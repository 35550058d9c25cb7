/**
 Quoting for a remote POSIX shell (internal/domain/deployment/engine.go) against a reader of
 shell words: token recognition, section 2.3 of the Shell Command Language of POSIX.1-2017,
 with quoting by backslash (2.2.1) and by single quotes (2.2.2) and the control operators.
 Input outside that fragment - expansions, redirections, subshells, comments, double quotes,
 several lines - is not read at all.
 */
module Quote {
  import opened Wrappers
  import Text

  datatype Token = Word(text: string) | Operator(text: string)

  predicate IsBlank(c: char) {
    c == ' ' || c == '\t'
  }

  predicate IsControl(c: char) {
    c == '&' || c == '|' || c == ';'
  }

  /** Unquoted, these start something outside the fragment; so does # at the start of a word. */
  predicate IsOutside(c: char, word: Option<string>) {
    || c == '<' || c == '>' || c == '(' || c == ')' || c == '$' || c == '`' || c == '"' || c == '\n'
    || (c == '#' && word.None?)
  }

  function Flush(word: Option<string>): seq<Token> {
    if word.None? then [] else [Word(word.value)]
  }

  function Extend(word: Option<string>, s: string): Option<string> {
    Some((if word.None? then [] else word.value) + s)
  }

  function Then(tokens: seq<Token>, rest: Option<seq<Token>>): Option<seq<Token>> {
    if rest.None? then None else Some(tokens + rest.value)
  }

  /** The tokens of `s` when `word` is the word begun before it; None outside the fragment. */
  function Read(s: string, word: Option<string>): Option<seq<Token>>
    decreases |s|
  {
    if s == [] then Some(Flush(word))
    else if IsBlank(s[0]) then Then(Flush(word), Read(s[1..], None))
    else if s[0] == '\'' then
      var close := Text.Index(s[1..], '\'');
      if close < 0 then None else Read(s[close + 2..], Extend(word, s[1..close + 1]))
    else if s[0] == '\\' then
      if |s| < 2 then None
      else if s[1] == '\n' then Read(s[2..], word)
      else Read(s[2..], Extend(word, [s[1]]))
    else if IsControl(s[0]) then
      if |s| > 1 && s[1] == s[0] then Then(Flush(word) + [Operator([s[0], s[0]])], Read(s[2..], None))
      else Then(Flush(word) + [Operator([s[0]])], Read(s[1..], None))
    else if IsOutside(s[0], word) then None
    else Read(s[1..], Extend(word, [s[0]]))
  }

  function Tokenize(s: string): Option<seq<Token>> {
    Read(s, None)
  }

  /** strings.ReplaceAll(s, "'", `'\''`) */
  function EscapeQuotes(s: string): string {
    if s == [] then []
    else (if s[0] == '\'' then ['\'', '\\', '\'', '\''] else [s[0]]) + EscapeQuotes(s[1..])
  }

  function ShQuote(s: string): string {
    ['\''] + EscapeQuotes(s) + ['\'']
  }

  // --------------------------------------------------------------------------- one quoted word

  lemma {:induction false} EscapeWithoutQuote(s: string)
    requires Text.Lacks(s, '\'')
    ensures EscapeQuotes(s) == s
  {
    if s == [] {
    } else {
      EscapeWithoutQuote(s[1..]);
      assert s == [s[0]] + s[1..];
    }
  }

  lemma {:induction false} EscapeSplits(a: string, b: string)
    ensures EscapeQuotes(a + b) == EscapeQuotes(a) + EscapeQuotes(b)
  {
    if a == [] {
      assert a + b == b;
    } else {
      assert (a + b)[1..] == a[1..] + b;
      EscapeSplits(a[1..], b);
    }
  }

  /** A quoted string with a quote in it: the part before, the escaped quote, the rest quoted. */
  lemma QuoteSplits(a: string, b: string)
    requires Text.Lacks(a, '\'')
    ensures ShQuote(a + ['\''] + b) == ['\''] + a + ['\''] + (['\\', '\''] + ShQuote(b))
  {
    assert a + ['\''] + b == a + (['\''] + b);
    EscapeSplits(a, ['\''] + b);
    EscapeWithoutQuote(a);
    EscapeOfQuote(['\''] + b, b);
    Regroup(a, EscapeQuotes(b));
  }

  lemma Regroup(a: string, e: string)
    ensures ['\''] + (a + (['\'', '\\', '\'', '\''] + e)) + ['\''] ==
      ['\''] + a + ['\''] + (['\\', '\''] + (['\''] + e + ['\'']))
  {
  }

  lemma EscapeOfQuote(s: string, b: string)
    requires s == ['\''] + b
    ensures EscapeQuotes(s) == ['\'', '\\', '\'', '\''] + EscapeQuotes(b)
  {
  }

  /** A piece in single quotes is read literally. */
  lemma ReadQuoted(s: string, a: string, rest: string, word: Option<string>)
    requires Text.Lacks(a, '\'') && s == ['\''] + a + ['\''] + rest
    ensures Read(s, word) == Read(rest, Extend(word, a))
  {
    assert s[1..] == a + ['\''] + rest;
    Text.IndexSkips(a, '\'', rest);
    assert s[1..|a| + 1] == a;
    assert s[|a| + 2..] == rest;
  }

  lemma ReadEscaped(s: string, c: char, rest: string, word: Option<string>)
    requires c != '\n' && s == ['\\', c] + rest
    ensures Read(s, word) == Read(rest, Extend(word, [c]))
  {
  }

  lemma ExtendTwice(word: Option<string>, a: string, b: string)
    ensures Extend(Extend(word, a), b) == Extend(word, a + b)
  {
    if word.Some? {
      assert word.value + a + b == word.value + (a + b);
    } else {
      assert [] + a + b == [] + (a + b);
    }
  }

  /** Wherever it stands, a quoted string is read as exactly that string, added to the word at hand. */
  lemma {:induction false} QuotedIsOneWord(q: string, s: string, rest: string, word: Option<string>)
    requires q == ShQuote(s) + rest
    ensures Read(q, word) == Read(rest, Extend(word, s))
    decreases |s|
  {
    var i := Text.Index(s, '\'');
    Text.IndexFinds(s, '\'');
    if i < 0 {
      EscapeWithoutQuote(s);
      ReadQuoted(q, s, rest, word);
    } else {
      QuotedWithQuote(q, s, s[..i], s[i + 1..], rest, word);
      QuotedIsOneWord(ShQuote(s[i + 1..]) + rest, s[i + 1..], rest, Extend(word, s[..i + 1]));
      ExtendTwice(word, s[..i + 1], s[i + 1..]);
      assert s[..i + 1] + s[i + 1..] == s;
      assert s[..i] + ['\''] == s[..i + 1];
    }
  }

  lemma QuotedWithQuote(q: string, s: string, a: string, b: string, rest: string, word: Option<string>)
    requires q == ShQuote(s) + rest && s == a + ['\''] + b && Text.Lacks(a, '\'')
    ensures Read(q, word) == Read(ShQuote(b) + rest, Extend(word, a + ['\'']))
  {
    QuoteSplits(a, b);
    var tail := ShQuote(b) + rest;
    var escaped := ['\\', '\''] + tail;
    assert q == ['\''] + a + ['\''] + escaped;
    ReadQuoted(q, a, escaped, word);
    ReadEscaped(escaped, '\'', tail, Extend(word, a));
    ExtendTwice(word, a, ['\'']);
  }

  // -------------------------------------------------------------------------- lists of words

  function QuoteAll(words: seq<string>): seq<string> {
    if words == [] then [] else [ShQuote(words[0])] + QuoteAll(words[1..])
  }

  function AllWords(words: seq<string>): seq<Token> {
    if words == [] then [] else [Word(words[0])] + AllWords(words[1..])
  }

  lemma ReadBlank(s: string, rest: string, word: Option<string>)
    requires s == [' '] + rest
    ensures Read(s, word) == Then(Flush(word), Read(rest, None))
  {
  }

  lemma QuotedThenBlank(q: string, s: string, rest: string)
    requires q == ShQuote(s) + ([' '] + rest)
    ensures Read(q, None) == Then([Word(s)], Read(rest, None))
  {
    QuotedIsOneWord(q, s, [' '] + rest, None);
    ReadBlank([' '] + rest, rest, Extend(None, s));
    assert Extend(None, s) == Some(s) by {
      assert [] + s == s;
    }
  }

  lemma QuotedAtEnd(q: string, s: string)
    requires q == ShQuote(s)
    ensures Read(q, None) == Some([Word(s)])
  {
    assert q == ShQuote(s) + [];
    QuotedIsOneWord(q, s, [], None);
    assert [] + s == s;
  }

  /** Quoting a list of strings and joining them with blanks loses nothing: the shell reads the same list. */
  lemma {:induction false} QuotedListRoundTrip(words: seq<string>)
    ensures Tokenize(Text.Join(QuoteAll(words), ' ')) == Some(AllWords(words))
    decreases |words|
  {
    if words == [] {
    } else {
      var quoted := QuoteAll(words);
      QuoteAllLength(words);
      assert quoted[1..] == QuoteAll(words[1..]);
      if |words| == 1 {
        QuotedAtEnd(Text.Join(quoted, ' '), words[0]);
        assert Text.Join(quoted, ' ') == quoted[0];
        assert AllWords(words) == [Word(words[0])] + AllWords(words[1..]) == [Word(words[0])];
      } else {
        var tail := Text.Join(quoted[1..], ' ');
        var line := Text.Join(quoted, ' ');
        assert line == ShQuote(words[0]) + ([' '] + tail);
        QuotedThenBlank(line, words[0], tail);
        QuotedListRoundTrip(words[1..]);
      }
    }
  }

  lemma {:induction false} QuoteAllLength(words: seq<string>)
    ensures |QuoteAll(words)| == |words|
  {
    if words == [] {
    } else {
      QuoteAllLength(words[1..]);
    }
  }

  // ------------------------------------------------------------------------ command templates

  /** A command line as the code builds it: its own characters, and arguments that are quoted. */
  datatype Piece = Lit(c: char) | Arg(s: string)

  function Fill(pieces: seq<Piece>): string {
    if pieces == [] then []
    else (match pieces[0] case Lit(c) => [c] case Arg(s) => ShQuote(s)) + Fill(pieces[1..])
  }

  /**
   The tokens a template means, arguments never looked into; None when its own characters leave
   the fragment or use quotes themselves.
   */
  function ReadPieces(pieces: seq<Piece>, word: Option<string>): Option<seq<Token>>
    decreases |pieces|
  {
    if pieces == [] then Some(Flush(word))
    else
      match pieces[0]
      case Arg(s) => ReadPieces(pieces[1..], Extend(word, s))
      case Lit(c) =>
        if IsBlank(c) then Then(Flush(word), ReadPieces(pieces[1..], None))
        else if c == '\'' || c == '\\' then None
        else if IsControl(c) then
          if |pieces| > 1 && pieces[1] == pieces[0]
          then Then(Flush(word) + [Operator([c, c])], ReadPieces(pieces[2..], None))
          else Then(Flush(word) + [Operator([c])], ReadPieces(pieces[1..], None))
        else if IsOutside(c, word) then None
        else ReadPieces(pieces[1..], Extend(word, [c]))
  }

  /** The shell reads a filled template as the template says: no argument breaks out of its word. */
  lemma {:induction false} ArgumentsStayArguments(pieces: seq<Piece>, word: Option<string>)
    requires ReadPieces(pieces, word).Some?
    ensures Read(Fill(pieces), word) == ReadPieces(pieces, word)
    decreases |pieces|
  {
    if pieces == [] {
    } else {
      var (line, rest) := (Fill(pieces), Fill(pieces[1..]));
      match pieces[0]
      case Arg(s) =>
        QuotedIsOneWord(line, s, rest, word);
        ArgumentsStayArguments(pieces[1..], Extend(word, s));
      case Lit(c) =>
        assert line[0] == c && line[1..] == rest;
        if IsBlank(c) {
          ArgumentsStayArguments(pieces[1..], None);
        } else if IsControl(c) {
          ControlStaysControl(pieces, c, word);
        } else {
          ArgumentsStayArguments(pieces[1..], Extend(word, [c]));
        }
    }
  }

  lemma {:induction false} ControlStaysControl(pieces: seq<Piece>, c: char, word: Option<string>)
    requires pieces != [] && pieces[0] == Lit(c) && IsControl(c) && ReadPieces(pieces, word).Some?
    ensures Read(Fill(pieces), word) == ReadPieces(pieces, word)
    decreases |pieces|, 0
  {
    var (line, rest) := (Fill(pieces), Fill(pieces[1..]));
    assert line[0] == c && line[1..] == rest;
    SecondCharacter(pieces, c);
    if |pieces| > 1 && pieces[1] == pieces[0] {
      ArgumentsStayArguments(pieces[2..], None);
    } else {
      ArgumentsStayArguments(pieces[1..], None);
    }
  }

  lemma SecondCharacter(pieces: seq<Piece>, c: char)
    requires pieces != [] && pieces[0] == Lit(c) && IsControl(c)
    ensures var line := Fill(pieces);
      && |line| > 0
      && (|line| > 1 && line[1] == c <==> |pieces| > 1 && pieces[1] == pieces[0])
      && (|pieces| > 1 && pieces[1] == pieces[0] ==> line[2..] == Fill(pieces[2..]))
  {
  }

  /** Two fillings of one template. */
  ghost predicate SameTemplate(p: seq<Piece>, q: seq<Piece>) {
    |p| == |q| && forall i :: 0 <= i < |p| ==> p[i] == q[i] || (p[i].Arg? && q[i].Arg?)
  }

  /** The same operators, with words in the same places between them. */
  ghost predicate SameShape(t: seq<Token>, u: seq<Token>) {
    |t| == |u| && forall i :: 0 <= i < |t| ==> t[i] == u[i] || (t[i].Word? && u[i].Word?)
  }

  ghost predicate SameResult(t: Option<seq<Token>>, u: Option<seq<Token>>) {
    if t.None? then u.None? else u.Some? && SameShape(t.value, u.value)
  }

  lemma ThenSame(a: seq<Token>, t: Option<seq<Token>>, b: seq<Token>, u: Option<seq<Token>>)
    requires SameShape(a, b) && SameResult(t, u)
    ensures SameResult(Then(a, t), Then(b, u))
  {
  }

  lemma {:induction false} SameTemplateSameShape(p: seq<Piece>, q: seq<Piece>, v: Option<string>, w: Option<string>)
    requires SameTemplate(p, q) && (v.Some? <==> w.Some?)
    ensures SameResult(ReadPieces(p, v), ReadPieces(q, w))
    decreases |p|
  {
    if p == [] {
    } else {
      assert p[0] == q[0] || (p[0].Arg? && q[0].Arg?);
      match p[0]
      case Arg(s) => SameTemplateSameShape(p[1..], q[1..], Extend(v, s), Extend(w, q[0].s));
      case Lit(c) =>
        if IsControl(c) {
          ControlSameShape(p, q, c, v, w);
        } else if IsBlank(c) {
          SameTemplateSameShape(p[1..], q[1..], None, None);
          ThenSame(Flush(v), ReadPieces(p[1..], None), Flush(w), ReadPieces(q[1..], None));
        } else if c != '\'' && c != '\\' && !IsOutside(c, v) {
          SameTemplateSameShape(p[1..], q[1..], Extend(v, [c]), Extend(w, [c]));
        }
    }
  }

  lemma {:induction false} ControlSameShape(p: seq<Piece>, q: seq<Piece>, c: char, v: Option<string>, w: Option<string>)
    requires SameTemplate(p, q) && p != [] && p[0] == q[0] == Lit(c) && IsControl(c) && (v.Some? <==> w.Some?)
    ensures SameResult(ReadPieces(p, v), ReadPieces(q, w))
    decreases |p|, 0
  {
    if |p| > 1 && p[1] == p[0] {
      assert q[1] == p[1];
      SameTemplateSameShape(p[2..], q[2..], None, None);
      ThenSame(Flush(v) + [Operator([c, c])], ReadPieces(p[2..], None), Flush(w) + [Operator([c, c])],
        ReadPieces(q[2..], None));
    } else {
      assert |p| > 1 ==> q[1] != q[0];
      SameTemplateSameShape(p[1..], q[1..], None, None);
      ThenSame(Flush(v) + [Operator([c])], ReadPieces(p[1..], None), Flush(w) + [Operator([c])],
        ReadPieces(q[1..], None));
    }
  }

  /** What an argument holds never changes which commands a template runs. */
  lemma ArgumentsNeverChangeTheCommands(p: seq<Piece>, q: seq<Piece>)
    requires SameTemplate(p, q) && ReadPieces(p, None).Some?
    ensures Tokenize(Fill(p)).Some? && Tokenize(Fill(q)).Some?
    ensures SameShape(Tokenize(Fill(p)).value, Tokenize(Fill(q)).value)
  {
    SameTemplateSameShape(p, q, None, None);
    ArgumentsStayArguments(p, None);
    ArgumentsStayArguments(q, None);
  }

  // ------------------------------------------------------------------------- the rollback line

  predicate IsPlain(s: string) {
    forall i :: 0 <= i < |s| ==>
      !IsBlank(s[i]) && !IsControl(s[i]) && !IsOutside(s[i], None) && s[i] != '\'' && s[i] != '\\'
  }

  lemma {:induction false} ReadPlain(s: string, a: string, rest: string, word: Option<string>)
    requires IsPlain(a) && a != [] && s == a + rest
    ensures Read(s, word) == Read(rest, Extend(word, a))
    decreases |a|
  {
    assert s[0] == a[0] && s[1..] == a[1..] + rest;
    if |a| == 1 {
      assert a[1..] + rest == rest;
      assert a == [a[0]];
    } else {
      ReadPlain(s[1..], a[1..], rest, Extend(word, [a[0]]));
      ExtendTwice(word, [a[0]], a[1..]);
      assert [a[0]] + a[1..] == a;
    }
  }

  lemma PlainThenBlank(s: string, a: string, rest: string)
    requires IsPlain(a) && a != [] && s == a + ([' '] + rest)
    ensures Read(s, None) == Then([Word(a)], Read(rest, None))
  {
    ReadPlain(s, a, [' '] + rest, None);
    ReadBlank([' '] + rest, rest, Extend(None, a));
    assert [] + a == a;
  }

  lemma ReadAnd(s: string, rest: string)
    requires s == ['&', '&', ' '] + rest
    ensures Read(s, None) == Then([Operator(['&', '&'])], Read(rest, None))
  {
    assert s[2..] == [' '] + rest;
    ReadBlank(s[2..], rest, None);
    ThenNothing(Read(rest, None));
    assert Flush(None) + [Operator(['&', '&'])] == [Operator(['&', '&'])];
  }

  lemma ThenNothing(t: Option<seq<Token>>)
    ensures Then([], t) == t
  {
    if t.Some? {
      assert [] + t.value == t.value;
    }
  }

  const CD := ['c', 'd']
  const GIT := ['g', 'i', 't']
  const CHECKOUT := ['c', 'h', 'e', 'c', 'k', 'o', 'u', 't']

  /** git checkout <reference> */
  function CheckoutCommand(reference: string): string {
    GIT + ([' '] + (CHECKOUT + ([' '] + ShQuote(reference))))
  }

  /** cd <path> && git checkout <reference> */
  function RollbackCommand(path: string, reference: string): string {
    CD + ([' '] + (ShQuote(path) + ([' '] + (['&', '&', ' '] + CheckoutCommand(reference)))))
  }

  lemma PlainThenTokens(s: string, a: string, rest: string, tokens: seq<Token>)
    requires IsPlain(a) && a != [] && s == a + ([' '] + rest) && Read(rest, None) == Some(tokens)
    ensures Read(s, None) == Some([Word(a)] + tokens)
  {
    PlainThenBlank(s, a, rest);
  }

  lemma PlainWords()
    ensures IsPlain(CD) && IsPlain(GIT) && IsPlain(CHECKOUT)
  {
  }

  lemma CheckoutIsOneCommand(reference: string)
    ensures Read(CheckoutCommand(reference), None) == Some([Word(GIT), Word(CHECKOUT), Word(reference)])
  {
    var last := ShQuote(reference);
    var checkout := CHECKOUT + ([' '] + last);
    PlainWords();
    QuotedAtEnd(last, reference);
    PlainThenTokens(checkout, CHECKOUT, last, [Word(reference)]);
    PlainThenTokens(CheckoutCommand(reference), GIT, checkout, [Word(CHECKOUT)] + [Word(reference)]);
    assert [Word(GIT)] + ([Word(CHECKOUT)] + [Word(reference)]) == [Word(GIT), Word(CHECKOUT), Word(reference)];
  }

  /** The rollback command is one cd and one git checkout, whatever the path and the reference hold. */
  lemma RollbackIsTwoCommands(path: string, reference: string)
    ensures Tokenize(RollbackCommand(path, reference)) ==
      Some([Word(CD), Word(path), Operator(['&', '&']), Word(GIT), Word(CHECKOUT), Word(reference)])
  {
    var git := CheckoutCommand(reference);
    var and := ['&', '&', ' '] + git;
    var after := ShQuote(path) + ([' '] + and);
    PlainWords();
    CheckoutIsOneCommand(reference);
    ReadAnd(and, git);
    var rest := [Word(GIT), Word(CHECKOUT), Word(reference)];
    AfterPath(and, after, path, rest);
    PlainThenBlank(RollbackCommand(path, reference), CD, after);
    assert [Word(CD)] + ([Word(path), Operator(['&', '&'])] + rest)
      == [Word(CD), Word(path), Operator(['&', '&']), Word(GIT), Word(CHECKOUT), Word(reference)];
  }

  lemma AfterPath(and: string, after: string, path: string, git: seq<Token>)
    requires Read(and, None) == Then([Operator(['&', '&'])], Some(git)) && after == ShQuote(path) + ([' '] + and)
    ensures Read(after, None) == Some([Word(path), Operator(['&', '&'])] + git)
  {
    QuotedThenBlank(after, path, and);
    assert [Word(path)] + ([Operator(['&', '&'])] + git) == [Word(path), Operator(['&', '&'])] + git;
  }
}
