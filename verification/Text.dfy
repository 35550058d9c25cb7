/** The string operations of Go's strings package that the modelled code uses, on code points. */
module Text {
  predicate IsSpace(c: char) {
    c == '\t' || c == '\n' || c == '\U{000B}' || c == '\U{000C}' || c == '\r' || c == ' '
    || c == '\U{0085}' || c == '\U{00A0}' || c == '\U{1680}' || '\U{2000}' <= c <= '\U{200A}'
    || c == '\U{2028}' || c == '\U{2029}' || c == '\U{202F}' || c == '\U{205F}' || c == '\U{3000}'
  }

  predicate NoSpace(s: string) {
    forall i :: 0 <= i < |s| ==> !IsSpace(s[i])
  }

  predicate Lacks(s: string, c: char) {
    forall i :: 0 <= i < |s| ==> s[i] != c
  }

  function TrimLeft(s: string): string {
    if s != [] && IsSpace(s[0]) then TrimLeft(s[1..]) else s
  }

  function TrimRight(s: string): string {
    if s != [] && IsSpace(s[|s| - 1]) then TrimRight(s[..|s| - 1]) else s
  }

  /** strings.TrimSpace */
  function Trim(s: string): string {
    TrimRight(TrimLeft(s))
  }

  predicate Trimmed(s: string) {
    s != [] ==> !IsSpace(s[0]) && !IsSpace(s[|s| - 1])
  }

  lemma {:induction false} TrimLeftStarts(s: string)
    ensures TrimLeft(s) != [] ==> !IsSpace(TrimLeft(s)[0])
  {
    if s != [] && IsSpace(s[0]) { TrimLeftStarts(s[1..]); }
  }

  lemma {:induction false} TrimRightEnds(s: string)
    ensures var t := TrimRight(s); t != [] ==> s != [] && t[0] == s[0] && !IsSpace(t[|t| - 1])
  {
    if s != [] && IsSpace(s[|s| - 1]) { TrimRightEnds(s[..|s| - 1]); }
  }

  lemma TrimIsTrimmed(s: string)
    ensures Trimmed(Trim(s))
  {
    TrimLeftStarts(s);
    TrimRightEnds(TrimLeft(s));
  }

  lemma {:induction false} TrimLeftLacks(s: string, c: char)
    requires Lacks(s, c)
    ensures Lacks(TrimLeft(s), c)
  {
    if s != [] && IsSpace(s[0]) { TrimLeftLacks(s[1..], c); }
  }

  lemma {:induction false} TrimRightLacks(s: string, c: char)
    requires Lacks(s, c)
    ensures Lacks(TrimRight(s), c)
  {
    if s != [] && IsSpace(s[|s| - 1]) { TrimRightLacks(s[..|s| - 1], c); }
  }

  lemma TrimLacks(s: string, c: char)
    requires Lacks(s, c)
    ensures Lacks(Trim(s), c)
  {
    TrimLeftLacks(s, c);
    TrimRightLacks(TrimLeft(s), c);
  }

  lemma TrimOfTrimmed(s: string)
    requires Trimmed(s)
    ensures Trim(s) == s
  {
  }

  lemma TrimSpaceBefore(s: string, c: char)
    requires IsSpace(c) && Trimmed(s)
    ensures Trim([c] + s) == s
  {
    assert ([c] + s)[1..] == s;
    assert TrimLeft([c] + s) == TrimLeft(s) == s;
  }

  lemma TrimSpaceAfter(s: string, c: char)
    requires IsSpace(c) && s != [] && Trimmed(s)
    ensures Trim(s + [c]) == s
  {
    assert (s + [c])[..|s|] == s;
    assert TrimRight(s + [c]) == TrimRight(s) == s;
  }

  /** The position of the first c, or -1. */
  function Index(s: string, c: char): (i: int)
    ensures -1 <= i < |s|
  {
    if s == [] then -1
    else if s[0] == c then 0
    else
      var i := Index(s[1..], c);
      if i < 0 then -1 else i + 1
  }

  lemma {:induction false} IndexFinds(s: string, c: char)
    ensures var i := Index(s, c);
      if i >= 0 then s[i] == c && Lacks(s[..i], c) else Lacks(s, c)
  {
    if s != [] && s[0] != c {
      var rest, i := s[1..], Index(s[1..], c);
      IndexFinds(rest, c);
      if i >= 0 {
        assert s[..i + 1] == [s[0]] + rest[..i];
      } else {
        assert s == [s[0]] + rest;
      }
    }
  }

  lemma {:induction false} IndexAbsent(s: string, c: char)
    requires Lacks(s, c)
    ensures Index(s, c) == -1
  {
    if s == [] {
    } else {
      IndexAbsent(s[1..], c);
    }
  }

  lemma {:induction false} IndexSkips(a: string, c: char, b: string)
    requires Lacks(a, c)
    ensures Index(a + [c] + b, c) == |a|
  {
    if a == [] {
      assert a + [c] + b == [c] + b;
    } else {
      assert (a + [c] + b)[1..] == a[1..] + [c] + b;
      IndexSkips(a[1..], c, b);
    }
  }

  /** The length of the leading run of characters that are not spaces. */
  function WordLength(s: string): (n: nat)
    ensures n <= |s| && NoSpace(s[..n])
    ensures n < |s| ==> IsSpace(s[n])
  {
    if s == [] || IsSpace(s[0]) then 0
    else
      var n := WordLength(s[1..]);
      assert s[..n + 1] == [s[0]] + s[1..][..n];
      n + 1
  }

  /** strings.Fields */
  function Fields(s: string): seq<string>
    decreases |s|
  {
    if s == [] then []
    else if IsSpace(s[0]) then Fields(s[1..])
    else
      var n := WordLength(s);
      [s[..n]] + Fields(s[n..])
  }

  lemma {:induction false} FieldsAreWords(s: string)
    ensures forall i :: 0 <= i < |Fields(s)| ==> Fields(s)[i] != [] && NoSpace(Fields(s)[i])
    decreases |s|
  {
    if s == [] {
    } else {
      if IsSpace(s[0]) { FieldsAreWords(s[1..]); } else { FieldsAreWords(s[WordLength(s)..]); }
    }
  }

  lemma {:induction false} FieldsLack(s: string, c: char)
    requires Lacks(s, c)
    ensures forall i :: 0 <= i < |Fields(s)| ==> Lacks(Fields(s)[i], c)
    decreases |s|
  {
    if s == [] {
    } else {
      if IsSpace(s[0]) {
        FieldsLack(s[1..], c);
      } else {
        var n := WordLength(s);
        FieldsLack(s[n..], c);
        assert Lacks(s[..n], c);
      }
    }
  }

  lemma {:induction false} WordLengthOf(w: string, rest: string)
    requires NoSpace(w) && (rest != [] ==> IsSpace(rest[0]))
    ensures WordLength(w + rest) == |w|
  {
    if w == [] {
      assert w + rest == rest;
    } else {
      assert (w + rest)[1..] == w[1..] + rest;
      WordLengthOf(w[1..], rest);
    }
  }

  lemma FieldsOfWord(w: string, rest: string)
    requires w != [] && NoSpace(w) && (rest != [] ==> IsSpace(rest[0]))
    ensures Fields(w + rest) == [w] + Fields(if rest == [] then [] else rest[1..])
  {
    WordLengthOf(w, rest);
    assert (w + rest)[..|w|] == w && (w + rest)[|w|..] == rest;
  }

  /** strings.Join with a one-character separator */
  function Join(parts: seq<string>, sep: char): string {
    if parts == [] then []
    else if |parts| == 1 then parts[0]
    else parts[0] + [sep] + Join(parts[1..], sep)
  }

  /** strings.Split with a one-character separator */
  function Split(s: string, sep: char): (parts: seq<string>)
    ensures parts != []
    decreases |s|
  {
    var i := Index(s, sep);
    if i < 0 then [s] else [s[..i]] + Split(s[i + 1..], sep)
  }

  lemma {:induction false} SplitLacks(s: string, sep: char)
    ensures forall i :: 0 <= i < |Split(s, sep)| ==> Lacks(Split(s, sep)[i], sep)
    decreases |s|
  {
    IndexFinds(s, sep);
    if Index(s, sep) >= 0 { SplitLacks(s[Index(s, sep) + 1..], sep); }
  }

  lemma {:induction false} SplitJoin(parts: seq<string>, sep: char)
    requires parts != [] && forall i :: 0 <= i < |parts| ==> Lacks(parts[i], sep)
    ensures Split(Join(parts, sep), sep) == parts
  {
    if |parts| == 1 {
      IndexAbsent(parts[0], sep);
    } else {
      var rest := Join(parts[1..], sep);
      var s := parts[0] + [sep] + rest;
      IndexSkips(parts[0], sep, rest);
      assert s[..|parts[0]|] == parts[0] && s[|parts[0]| + 1..] == rest;
      SplitJoin(parts[1..], sep);
    }
  }

  lemma {:induction false} JoinSplit(s: string, sep: char)
    ensures Join(Split(s, sep), sep) == s
    decreases |s|
  {
    var i := Index(s, sep);
    IndexFinds(s, sep);
    if i >= 0 {
      JoinSplit(s[i + 1..], sep);
      assert s == s[..i] + [sep] + s[i + 1..];
      assert Split(s, sep)[1..] == Split(s[i + 1..], sep);
    }
  }

  lemma {:induction false} JoinAppend(parts: seq<string>, sep: char, last: string)
    requires parts != []
    ensures Join(parts + [last], sep) == Join(parts, sep) + [sep] + last
  {
    if |parts| == 1 {
      assert (parts + [last])[1..] == [last];
    } else {
      assert (parts + [last])[1..] == parts[1..] + [last];
      JoinAppend(parts[1..], sep, last);
      var a, b := parts[0] + [sep], Join(parts[1..], sep);
      assert a + (b + [sep] + last) == (a + b) + [sep] + last;
    }
  }

  // ----------------------------------------------------------- what trimming and splitting mean

  predicate AllSpace(s: string) {
    forall i :: 0 <= i < |s| ==> IsSpace(s[i])
  }

  lemma {:induction false} TrimLeftSplits(s: string) returns (a: string)
    ensures s == a + TrimLeft(s) && AllSpace(a)
  {
    if s != [] && IsSpace(s[0]) {
      a := TrimLeftSplits(s[1..]);
      a := [s[0]] + a;
      assert s == [s[0]] + s[1..];
    } else {
      a := [];
    }
  }

  lemma {:induction false} TrimRightSplits(s: string) returns (b: string)
    ensures s == TrimRight(s) + b && AllSpace(b)
  {
    if s != [] && IsSpace(s[|s| - 1]) {
      b := TrimRightSplits(s[..|s| - 1]);
      assert s == s[..|s| - 1] + [s[|s| - 1]];
      b := b + [s[|s| - 1]];
    } else {
      b := [];
    }
  }

  /** Trimming takes off nothing but white space, and leaves none at either end. */
  lemma TrimMeans(s: string) returns (a: string, b: string)
    ensures s == a + Trim(s) + b && AllSpace(a) && AllSpace(b) && Trimmed(Trim(s))
  {
    a := TrimLeftSplits(s);
    b := TrimRightSplits(TrimLeft(s));
    TrimIsTrimmed(s);
    assert a + (Trim(s) + b) == a + Trim(s) + b;
  }

  lemma {:induction false} TrimLeftPast(a: string, s: string)
    requires AllSpace(a)
    ensures TrimLeft(a + s) == TrimLeft(s)
  {
    if a == [] {
      assert a + s == s;
    } else {
      assert (a + s)[1..] == a[1..] + s;
      TrimLeftPast(a[1..], s);
    }
  }

  lemma {:induction false} TrimRightPast(s: string, b: string)
    requires AllSpace(b)
    ensures TrimRight(s + b) == TrimRight(s)
  {
    if b == [] {
      assert s + b == s;
    } else {
      assert (s + b)[..|s + b| - 1] == s + b[..|b| - 1];
      TrimRightPast(s, b[..|b| - 1]);
    }
  }

  /** And it takes off all of it. */
  lemma TrimIs(a: string, s: string, b: string)
    requires AllSpace(a) && AllSpace(b) && Trimmed(s)
    ensures Trim(a + s + b) == s
  {
    assert a + s + b == a + (s + b);
    TrimLeftPast(a, s + b);
    if s == [] {
      assert s + b == b + [];
      TrimLeftPast(b, []);
    } else {
      assert TrimLeft(s + b) == s + b;
      TrimRightPast(s, b);
    }
  }

  lemma {:induction false} FieldsPast(a: string, s: string)
    requires AllSpace(a)
    ensures Fields(a + s) == Fields(s)
  {
    if a == [] {
      assert a + s == s;
    } else {
      assert (a + s)[1..] == a[1..] + s;
      FieldsPast(a[1..], s);
    }
  }

  lemma {:induction false} FieldsBefore(s: string, b: string)
    requires AllSpace(b)
    ensures Fields(s + b) == Fields(s)
    decreases |s|
  {
    if s == [] {
      assert s + b == b + [];
      FieldsPast(b, []);
    } else if IsSpace(s[0]) {
      assert (s + b)[1..] == s[1..] + b;
      FieldsBefore(s[1..], b);
    } else {
      var n := WordLength(s);
      var (word, rest) := (s[..n], s[n..]);
      assert s == word + rest && s + b == word + (rest + b);
      WordLengthOf(word, rest + b);
      assert (s + b)[..n] == word && (s + b)[n..] == rest + b;
      FieldsBefore(rest, b);
    }
  }

  lemma FieldsOfTrim(s: string)
    ensures Fields(Trim(s)) == Fields(s)
  {
    var a, b := TrimMeans(s);
    FieldsPast(a, Trim(s) + b);
    FieldsBefore(Trim(s), b);
    assert a + Trim(s) + b == a + (Trim(s) + b);
  }

  /** Words, each followed by a gap. */
  function Spread(words: seq<string>, gaps: seq<string>): string
    requires |words| == |gaps|
  {
    if words == [] then [] else words[0] + (gaps[0] + Spread(words[1..], gaps[1..]))
  }

  predicate AreWords(words: seq<string>) {
    forall i :: 0 <= i < |words| ==> words[i] != [] && NoSpace(words[i])
  }

  /** White space, at least one character of it between words. */
  predicate AreGaps(gaps: seq<string>) {
    forall i :: 0 <= i < |gaps| ==> AllSpace(gaps[i]) && (i < |gaps| - 1 ==> gaps[i] != [])
  }

  /** The fields of a text are its words, whatever white space stands around them. */
  lemma {:induction false} FieldsMeans(lead: string, words: seq<string>, gaps: seq<string>)
    requires AllSpace(lead) && |words| == |gaps| && AreWords(words) && AreGaps(gaps)
    ensures Fields(lead + Spread(words, gaps)) == words
    decreases |words|
  {
    FieldsPast(lead, Spread(words, gaps));
    if words == [] {
    } else {
      var rest := gaps[0] + Spread(words[1..], gaps[1..]);
      assert AreWords(words[1..]) && AreGaps(gaps[1..]);
      FieldsMeans(gaps[0], words[1..], gaps[1..]);
      WordLengthOf(words[0], rest);
      assert (words[0] + rest)[..|words[0]|] == words[0] && (words[0] + rest)[|words[0]|..] == rest;
    }
  }
}
