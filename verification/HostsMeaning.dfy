/**
 What reading and editing the hosts file mean for its text, line by line
 (internal/providers/domainprovider/hosts/hosts.go).
 */
module HostsMeaning {
  import opened Wrappers
  import opened Seqs
  import opened Text
  import opened Hosts
  import opened HostsEdit
  import opened HostsSafety

  // ------------------------------------------------------------------ one line of text

  /** A line with a comment: the text around its first '#'. */
  lemma LineWithComment(before: string, after: string)
    requires Lacks(before, '#')
    ensures ParseDataLine(before + "#" + after) ==
      if |Fields(before)| < 2 then None
      else Some(DataLine(Fields(before)[0], Fields(before)[1..], Trim(after), Trim(after) == "volt-managed"))
  {
    var raw := before + "#" + after;
    var left, right := TrimLeft(before), TrimRight(after);
    TrimmedComment(before, after);
    TrimLeftLacks(before, '#');
    IndexSkips(left, '#', right);
    assert (left + "#" + right)[..|left|] == left && (left + "#" + right)[|left| + 1..] == right;
    FieldsOfTrim(left);
    var lead := TrimLeftSplits(before);
    FieldsPast(lead, left);
    TrimTwice(after);
    assert left != [] ==> left[0] != '#';
  }

  lemma TrimmedComment(before: string, after: string)
    requires Lacks(before, '#')
    ensures Trim(before + "#" + after) == TrimLeft(before) + "#" + TrimRight(after)
  {
    var left, right := TrimLeft(before), TrimRight(after);
    var lead := TrimLeftSplits(before);
    var trail := TrimRightSplits(after);
    TrimLeftStarts(before);
    TrimRightEnds(after);
    HashInside(left, right);
    Regroup(lead, left, "#", right, trail);
    TrimIs(lead, left + "#" + right, trail);
  }

  lemma HashInside(left: string, right: string)
    requires (left != [] ==> !IsSpace(left[0])) && (right != [] ==> !IsSpace(right[|right| - 1]))
    ensures Trimmed(left + "#" + right)
  {
  }

  lemma Regroup(a: string, b: string, c: string, d: string, e: string)
    ensures (a + b) + c + (d + e) == a + (b + c + d) + e
  {
  }

  lemma TrimTwice(s: string)
    ensures Trim(TrimRight(s)) == Trim(s)
  {
    var b := TrimRightSplits(s);
    var a, c := TrimMeans(TrimRight(s));
    assert s == a + Trim(TrimRight(s)) + (c + b);
    TrimIs(a, Trim(TrimRight(s)), c + b);
  }

  lemma LineWithoutComment(raw: string)
    requires Lacks(raw, '#')
    ensures ParseDataLine(raw) ==
      if |Fields(raw)| < 2 then None else Some(DataLine(Fields(raw)[0], Fields(raw)[1..], "", false))
  {
    TrimLacks(raw, '#');
    IndexAbsent(Trim(raw), '#');
    FieldsOfTrim(raw);
  }

  /** The comment of a line: the trimmed text after its first '#', or nothing if it has none. */
  ghost predicate HasComment(raw: string, comment: string) {
    || (Lacks(raw, '#') && comment == "")
    || exists i :: HasCommentAt(raw, i, comment)
  }

  ghost predicate HasCommentAt(raw: string, i: int, comment: string) {
    0 <= i < |raw| && raw[i] == '#' && Lacks(raw[..i], '#') && comment == Trim(raw[i + 1..])
  }

  /** The same at the first '#' of the line. */
  lemma LineAtHash(raw: string, i: nat)
    requires i < |raw| && raw[i] == '#' && Lacks(raw[..i], '#') && ParseDataLine(raw).Some?
    ensures var d := ParseDataLine(raw).value;
      d.comment == Trim(raw[i + 1..]) && (d.managed <==> d.comment == "volt-managed")
  {
    var before, after := raw[..i], raw[i + 1..];
    assert raw == before + "#" + after;
    LineWithComment(before, after);
  }

  /** A line is taken for Volt's own exactly when its comment is "volt-managed". */
  lemma ManagedIffMarked(raw: string)
    requires ParseDataLine(raw).Some?
    ensures var d := ParseDataLine(raw).value;
      HasComment(raw, d.comment) && (d.managed <==> d.comment == "volt-managed")
  {
    var i := Index(raw, '#');
    IndexFinds(raw, '#');
    if i >= 0 {
      LineAtHash(raw, i);
      assert HasCommentAt(raw, i, ParseDataLine(raw).value.comment);
    } else {
      LineWithoutComment(raw);
    }
  }

  /** A printed line: the address, a tab, the names with blanks between them, and the comment after a tab and "# ". */
  lemma DataLineText(ip: string, hosts: seq<string>, x: string, comment: string, managed: bool)
    ensures RenderData(DataLine(ip, [x], "", managed)) == ip + "\t" + x
    ensures hosts != [] ==>
      RenderData(DataLine(ip, hosts + [x], "", managed)) == RenderData(DataLine(ip, hosts, "", managed)) + " " + x
    ensures comment != "" ==>
      RenderData(DataLine(ip, hosts, comment, managed))
        == RenderData(DataLine(ip, hosts, "", managed)) + "\t# " + comment
  {
    if hosts != [] {
      JoinAppend(hosts, ' ', x);
      var front, names := ip + "\t", Join(hosts, ' ');
      assert front + (names + " " + x) == (front + names) + " " + x;
    }
  }

  /** A printed file that is not empty ends with a newline, and a line that has text stands before it. */
  lemma FileText(lines: seq<Line>, l: Line)
    ensures Rendered(lines) != "" ==> Rendered(lines)[|Rendered(lines)| - 1] == '\n'
    ensures RenderLine(l) != "" && '\n' !in RenderLine(l) ==> Rendered([l]) == RenderLine(l) + "\n"
  {
    assert RenderLines([l]) == [RenderLine(l)];
  }

  /** The line written for a new name. */
  lemma NewLineText(h: string)
    ensures RenderLine(NewManagedLine(h)) == "127.0.0.1\t" + h + "\t# volt-managed"
  {
    assert Join([h], ' ') == h;
  }

  // ------------------------------------------------------------------ names

  /** Surrounding white space is dropped; an empty name, or one with ' ', '\t' or '#' in it, is invalid. */
  lemma NormalizeMeans(a: string, h: string, b: string)
    requires AllSpace(a) && AllSpace(b) && Trimmed(h)
    ensures Normalize(a + h + b) == None <==> h == "" || exists i :: 0 <= i < |h| && h[i] in [' ', '\t', '#']
    ensures Normalize(a + h + b).Some? ==> Normalize(a + h + b) == Some(h)
  {
    TrimIs(a, h, b);
  }

  function Folded(fold: Fold, s: string): string {
    seq(|s|, i requires 0 <= i < |s| => fold(s[i]))
  }

  lemma EqualFoldMeans(fold: Fold, a: string, b: string)
    ensures EqualFold(fold, a, b) <==> Folded(fold, a) == Folded(fold, b)
  {
    if Folded(fold, a) == Folded(fold, b) {
      forall i | 0 <= i < |a|
        ensures |a| == |b| && fold(a[i]) == fold(b[i])
      {
        assert Folded(fold, a)[i] == Folded(fold, b)[i];
      }
      assert |Folded(fold, a)| == |Folded(fold, b)|;
    }
  }

  ghost predicate Lists(fold: Fold, l: Line, h: string) {
    l.data.Some? && exists i :: 0 <= i < |l.data.value.hosts| && Folded(fold, l.data.value.hosts[i]) == Folded(fold, h)
  }

  lemma NamesMeans(fold: Fold, l: Line, h: string)
    ensures Names(fold, l, h) <==> Lists(fold, l, h)
  {
    if l.data.Some? {
      forall i | 0 <= i < |l.data.value.hosts|
        ensures EqualFold(fold, l.data.value.hosts[i], h) <==>
          Folded(fold, l.data.value.hosts[i]) == Folded(fold, h)
      {
        EqualFoldMeans(fold, l.data.value.hosts[i], h);
      }
    }
  }

  // ------------------------------------------------------------------ adding

  ghost predicate NobodyLists(fold: Fold, lines: seq<Line>, h: string) {
    forall k :: 0 <= k < |lines| ==> !Lists(fold, lines[k], h)
  }

  /** A name on no line gets a new line at the end. */
  lemma AddOfNewName(fold: Fold, lines: seq<Line>, h: string)
    requires NobodyLists(fold, lines, h)
    ensures PlanAdd(fold, lines, h) == Write(lines + [NewManagedLine(h)])
  {
    forall k | 0 <= k < |lines|
      ensures !Names(fold, lines[k], h)
    {
      NamesMeans(fold, lines[k], h);
    }
    FirstNamingIs(fold, lines, h, |lines|);
  }

  /** Otherwise the first line with the name decides. */
  lemma AddOfListedName(fold: Fold, lines: seq<Line>, h: string, i: nat)
    requires WellFormedFile(lines) && i < |lines|
    requires NobodyLists(fold, lines[..i], h) && Lists(fold, lines[i], h)
    ensures var d := lines[i].data.value;
      PlanAdd(fold, lines, h) ==
        if d.comment != "volt-managed" then Refuse
        else if d.ip == "127.0.0.1" then Keep
        else Write(lines[..i] + [lines[i].(data := Some(d.(ip := "127.0.0.1")))] + lines[i + 1..])
  {
    forall k | 0 <= k < i
      ensures !Names(fold, lines[k], h)
    {
      assert lines[..i][k] == lines[k];
      NamesMeans(fold, lines[k], h);
    }
    NamesMeans(fold, lines[i], h);
    FirstNamingIs(fold, lines, h, i);
    assert WellFormedLine(lines[i]);
  }

  // ------------------------------------------------------------------ removing

  /** A marked line for h and no other name. */
  ghost predicate OwnLine(fold: Fold, l: Line, h: string) {
    && BearsMark(l)
    && |l.data.value.hosts| == 1 && Folded(fold, l.data.value.hosts[0]) == Folded(fold, h)
  }

  ghost predicate LinesAt(picked: seq<Line>, lines: seq<Line>, idx: seq<nat>) {
    && |picked| == |idx|
    && forall k :: 0 <= k < |idx| ==> idx[k] < |lines| && picked[k] == lines[idx[k]]
  }

  ghost function NotOwn(fold: Fold, lines: seq<Line>, h: string): nat -> bool {
    (i: nat) => i < |lines| && !OwnLine(fold, lines[i], h)
  }

  lemma OwnedMeans(fold: Fold, l: Line, h: string)
    requires WellFormedLine(l)
    ensures Owned(fold, l, h) <==> OwnLine(fold, l, h)
  {
    if l.data.Some? && |l.data.value.hosts| == 1 {
      EqualFoldMeans(fold, l.data.value.hosts[0], h);
    }
  }

  /** Removing a name leaves the other lines, in order. */
  lemma RemoveLeavesTheOthers(fold: Fold, lines: seq<Line>, h: string) returns (idx: seq<nat>)
    requires WellFormedFile(lines)
    ensures Picks(idx, |lines|, NotOwn(fold, lines, h))
    ensures LinesAt(Without(fold, lines, h), lines, idx)
  {
    idx := Kept(|lines|, NotOwn(fold, lines, h));
    KeptPicks(|lines|, NotOwn(fold, lines, h));
    WithoutIsKept(fold, lines, h, |lines|);
    assert lines[..|lines|] == lines;
  }

  lemma {:induction false} WithoutIsKept(fold: Fold, lines: seq<Line>, h: string, n: nat)
    requires WellFormedFile(lines) && n <= |lines|
    ensures LinesAt(Without(fold, lines[..n], h), lines, Kept(n, NotOwn(fold, lines, h)))
  {
    if n == 0 {
    } else {
      WithoutIsKept(fold, lines, h, n - 1);
      assert lines[..n][..n - 1] == lines[..n - 1];
      OwnedMeans(fold, lines[n - 1], h);
    }
  }

  // ------------------------------------------------------------------ listing and conflicts

  ghost predicate ListsMarked(lines: seq<Line>, x: string) {
    exists i :: 0 <= i < |lines| && BearsMark(lines[i]) && x in lines[i].data.value.hosts
  }

  /** How often x stands on the marked lines. */
  ghost function TimesMarked(lines: seq<Line>, x: string): nat {
    if lines == [] then 0
    else
      var l := lines[|lines| - 1];
      TimesMarked(lines[..|lines| - 1], x) + if BearsMark(l) then multiset(l.data.value.hosts)[x] else 0
  }

  /** The list holds every name as often as it stands on the marked lines. */
  lemma {:induction false} ManagedHostsCount(lines: seq<Line>, x: string)
    requires WellFormedFile(lines)
    ensures multiset(ManagedHosts(lines))[x] == TimesMarked(lines, x)
  {
    if lines == [] {
    } else {
      var init, last := lines[..|lines| - 1], lines[|lines| - 1];
      assert WellFormedFile(init) && WellFormedLine(last);
      ManagedHostsCount(init, x);
    }
  }

  lemma {:induction false} ManagedHostsMeans(lines: seq<Line>, x: string)
    requires WellFormedFile(lines)
    ensures x in ManagedHosts(lines) <==> ListsMarked(lines, x)
  {
    if lines == [] {
    } else {
      var init, last := lines[..|lines| - 1], lines[|lines| - 1];
      assert WellFormedFile(init) && WellFormedLine(last);
      ManagedHostsMeans(init, x);
      assert lines == init + [last];
      OneMoreMarked(init, last, x);
    }
  }

  lemma OneMoreMarked(lines: seq<Line>, l: Line, x: string)
    ensures ListsMarked(lines + [l], x) <==> ListsMarked(lines, x) || (BearsMark(l) && x in l.data.value.hosts)
  {
    var all := lines + [l];
    if i :| 0 <= i < |lines| && BearsMark(lines[i]) && x in lines[i].data.value.hosts {
      assert all[i] == lines[i];
    }
    if BearsMark(l) && x in l.data.value.hosts {
      assert all[|lines|] == l;
    }
  }

  ghost function InConflict(fold: Fold, lines: seq<Line>, h: string): nat -> bool {
    (i: nat) => i < |lines| && Lists(fold, lines[i], h)
      && !(BearsMark(lines[i]) && lines[i].data.value.ip == "127.0.0.1")
  }

  /** Each conflict is about its line: the address a foreign line gives, or the wrong address on a marked one. */
  ghost predicate ConflictsAt(found: seq<Conflict>, lines: seq<Line>, idx: seq<nat>) {
    && |found| == |idx|
    && forall k :: 0 <= k < |idx| ==> idx[k] < |lines| && IsAbout(found[k], lines[idx[k]])
  }

  ghost predicate IsAbout(c: Conflict, l: Line) {
    && l.data.Some?
    && c == if BearsMark(l) then WrongAddress(l.data.value.ip) else ForeignMapping(l.data.value.ip)
  }

  lemma ConflictsMean(fold: Fold, lines: seq<Line>, h: string) returns (idx: seq<nat>)
    requires WellFormedFile(lines)
    ensures Picks(idx, |lines|, InConflict(fold, lines, h))
    ensures ConflictsAt(ConflictsIn(fold, lines, h), lines, idx)
  {
    idx := Kept(|lines|, InConflict(fold, lines, h));
    KeptPicks(|lines|, InConflict(fold, lines, h));
    ConflictsAreKept(fold, lines, h, |lines|);
    assert lines[..|lines|] == lines;
  }

  lemma {:induction false} ConflictsAreKept(fold: Fold, lines: seq<Line>, h: string, n: nat)
    requires WellFormedFile(lines) && n <= |lines|
    ensures ConflictsAt(ConflictsIn(fold, lines[..n], h), lines, Kept(n, InConflict(fold, lines, h)))
  {
    if n == 0 {
    } else {
      ConflictsAreKept(fold, lines, h, n - 1);
      assert lines[..n][..n - 1] == lines[..n - 1];
      NamesMeans(fold, lines[n - 1], h);
      assert WellFormedLine(lines[n - 1]);
    }
  }
}
