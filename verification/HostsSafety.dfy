/** What adding and removing host names promises about the file that results. */
module HostsSafety {
  import opened Wrappers
  import opened Text
  import opened Hosts
  import opened HostsEdit

  /** The data lines of a file, in order. */
  function DataOf(lines: seq<Line>): seq<DataLine> {
    if lines == [] then []
    else
      var l := lines[|lines| - 1];
      DataOf(lines[..|lines| - 1]) + if l.data.Some? then [l.data.value] else []
  }

  /** A data line whose comment says that it is Volt's. */
  predicate BearsMark(l: Line) {
    l.data.Some? && l.data.value.comment == "volt-managed"
  }

  /** The data of the lines whose comment is not Volt's mark, in order. */
  function ForeignOf(lines: seq<Line>): seq<DataLine> {
    if lines == [] then []
    else
      var l := lines[|lines| - 1];
      ForeignOf(lines[..|lines| - 1]) + if l.data.Some? && !BearsMark(l) then [l.data.value] else []
  }

  lemma AppendData(lines: seq<Line>, l: Line)
    ensures DataOf(lines + [l]) == DataOf(lines) + if l.data.Some? then [l.data.value] else []
    ensures ForeignOf(lines + [l]) ==
      ForeignOf(lines) + if l.data.Some? && !BearsMark(l) then [l.data.value] else []
  {
  }

  lemma {:induction false} SameData(a: seq<Line>, b: seq<Line>)
    requires |a| == |b| && forall i :: 0 <= i < |a| ==> a[i].data == b[i].data
    ensures DataOf(a) == DataOf(b) && ForeignOf(a) == ForeignOf(b)
  {
    if a == [] {
    } else {
      SameData(a[..|a| - 1], b[..|b| - 1]);
    }
  }

  lemma {:induction false} ForeignFromData(a: seq<Line>, b: seq<Line>)
    requires |a| == |b|
    requires forall i :: 0 <= i < |a| ==>
        a[i].data == b[i].data
          || (BearsMark(a[i]) && BearsMark(b[i]))
    ensures ForeignOf(a) == ForeignOf(b)
  {
    if a == [] {
    } else {
      ForeignFromData(a[..|a| - 1], b[..|b| - 1]);
    }
  }

  /** Writing a file and reading it back keeps its data. */
  lemma ReparsedData(lines: seq<Line>)
    requires WellFormedFile(lines)
    ensures DataOf(Parsed(Rendered(lines))) == DataOf(lines)
    ensures ForeignOf(Parsed(Rendered(lines))) == ForeignOf(lines)
  {
    ParsedRendered(lines);
    if PrintsNothing(lines) {
      if lines != [] {
        RereadLine(lines[0]);
        assert lines == [] + [lines[0]];
        AppendData([], lines[0]);
      }
    } else {
      SameData(lines, RereadAll(lines));
      AppendData(RereadAll(lines), BLANK);
      assert RereadAll(lines) + [] == RereadAll(lines);
    }
  }

  // ------------------------------------------------------------------ adding a name

  lemma NewLineIsWellFormed(hostname: string, h: string)
    requires Normalize(hostname) == Some(h) && NoSpace(h)
    ensures IsWord(h) && WellFormedLine(NewManagedLine(h)) && RenderLine(NewManagedLine(h)) != ""
  {
  }

  /** The first line naming h is one of Volt's own, and points home. */
  predicate PointsHome(fold: Fold, lines: seq<Line>, h: string) {
    var i := FirstNaming(fold, lines, h);
    i < |lines| && BearsMark(lines[i]) && lines[i].data.value.ip == "127.0.0.1"
  }

  lemma KeepIffPointsHome(fold: Fold, lines: seq<Line>, h: string)
    requires WellFormedFile(lines)
    ensures PlanAdd(fold, lines, h) == Keep <==> PointsHome(fold, lines, h)
  {
    var i := FirstNaming(fold, lines, h);
    assert i < |lines| ==> WellFormedLine(lines[i]);
  }

  /** What was named first is still named first once the file was written and read back. */
  lemma NamesSurvive(fold: Fold, lines: seq<Line>, h: string)
    requires WellFormedFile(lines) && FirstNaming(fold, lines, h) < |lines|
    ensures PointsHome(fold, lines, h) ==> PointsHome(fold, Parsed(Rendered(lines)), h)
  {
    var i := FirstNaming(fold, lines, h);
    FirstNamingFinds(fold, lines, h);
    ParsedRendered(lines);
    RereadLine(lines[i]);
    var b := Reparsed(lines);
    forall k | 0 <= k <= i ensures b[k].data == lines[k].data {}
    FirstNamingIs(fold, b, h, i);
  }

  lemma PlannedIsWellFormed(fold: Fold, lines: seq<Line>, hostname: string, h: string)
    requires WellFormedFile(lines) && Normalize(hostname) == Some(h) && NoSpace(h)
    requires PlanAdd(fold, lines, h).Write?
    ensures WellFormedFile(PlanAdd(fold, lines, h).lines)
    ensures ForeignOf(PlanAdd(fold, lines, h).lines) == ForeignOf(lines)
  {
    var i, after := FirstNaming(fold, lines, h), PlanAdd(fold, lines, h).lines;
    NewLineIsWellFormed(hostname, h);
    if i == |lines| {
      AppendData(lines, NewManagedLine(h));
    } else {
      assert WellFormedLine(lines[i]);
      HomeIsWord();
      ForeignFromData(lines, after);
    }
  }

  lemma PlannedPointsHome(fold: Fold, lines: seq<Line>, h: string)
    requires WellFormedFile(lines) && PlanAdd(fold, lines, h).Write?
    ensures PointsHome(fold, PlanAdd(fold, lines, h).lines, h)
  {
    var i, after := FirstNaming(fold, lines, h), PlanAdd(fold, lines, h).lines;
    FirstNamingFinds(fold, lines, h);
    assert i < |lines| ==> WellFormedLine(lines[i]);
    assert Names(fold, after[i], h) by {
      if i == |lines| { assert EqualFold(fold, after[i].data.value.hosts[0], h); }
    }
    FirstNamingIs(fold, after, h, i);
  }

  lemma HomeIsWord()
    ensures IsWord(MANAGED_IP)
  {
  }

  /** The file a successful Add leaves behind. */
  function AfterAdd(fold: Fold, content: string, h: string): string {
    match PlanAdd(fold, Parsed(content), h)
    case Write(lines) => Rendered(lines)
    case _ => content
  }

  lemma AddPointsHome(fold: Fold, content: string, hostname: string, h: string)
    requires Normalize(hostname) == Some(h) && NoSpace(h)
    requires PlanAdd(fold, Parsed(content), h) != Refuse
    ensures PointsHome(fold, Parsed(AfterAdd(fold, content, h)), h)
    ensures ForeignOf(Parsed(AfterAdd(fold, content, h))) == ForeignOf(Parsed(content))
  {
    var lines := Parsed(content);
    ParsedFileIsWellFormed(content);
    KeepIffPointsHome(fold, lines, h);
    if PlanAdd(fold, lines, h).Write? {
      WrittenPointsHome(fold, lines, hostname, h);
    }
  }

  lemma WrittenPointsHome(fold: Fold, lines: seq<Line>, hostname: string, h: string)
    requires WellFormedFile(lines) && Normalize(hostname) == Some(h) && NoSpace(h)
    requires PlanAdd(fold, lines, h).Write?
    ensures var again := Parsed(Rendered(PlanAdd(fold, lines, h).lines));
      PointsHome(fold, again, h) && ForeignOf(again) == ForeignOf(lines)
  {
    var after := PlanAdd(fold, lines, h).lines;
    PlannedIsWellFormed(fold, lines, hostname, h);
    PlannedPointsHome(fold, lines, h);
    NamesSurvive(fold, after, h);
    ReparsedData(after);
  }

  /** Case folding never turns a space into something else, or the reverse. */
  ghost predicate FoldKeepsSpaces(fold: Fold) {
    forall c, d :: fold(c) == fold(d) ==> (IsSpace(c) <==> IsSpace(d))
  }

  lemma SpacedNameIsNeverFound(fold: Fold, lines: seq<Line>, h: string)
    requires FoldKeepsSpaces(fold) && WellFormedFile(lines) && !NoSpace(h)
    ensures FirstNaming(fold, lines, h) == |lines|
  {
  }

  /**
   Adding a name a second time writes nothing exactly when the name has no white space inside;
   the check before adding looks only for spaces, tabs and '#'.
   */
  lemma AddIsIdempotentIff(fold: Fold, content: string, hostname: string, h: string)
    requires FoldKeepsSpaces(fold) && Normalize(hostname) == Some(h)
    requires PlanAdd(fold, Parsed(content), h) != Refuse
    ensures PlanAdd(fold, Parsed(AfterAdd(fold, content, h)), h) == Keep <==> NoSpace(h)
  {
    var again := Parsed(AfterAdd(fold, content, h));
    if NoSpace(h) {
      AddPointsHome(fold, content, hostname, h);
    } else {
      ParsedFileIsWellFormed(AfterAdd(fold, content, h));
      SpacedNameIsNeverFound(fold, again, h);
    }
  }

  /** A name with a vertical tab passes the check; added to an empty file, it is appended again by a second Add. */
  lemma VerticalTabExample(fold: Fold)
    requires FoldKeepsSpaces(fold)
    ensures var h := ['a', '\U{000B}', 'b'];
      && Normalize(h) == Some(h)
      && PlanAdd(fold, Parsed(""), h).Write?
      && PlanAdd(fold, Parsed(AfterAdd(fold, "", h)), h).Write?
  {
    var h := ['a', '\U{000B}', 'b'];
    var again := Parsed(AfterAdd(fold, "", h));
    assert !NoSpace(h) by {
      assert IsSpace(h[1]);
    }
    AddIsIdempotentIff(fold, "", h, h);
    ParsedFileIsWellFormed(AfterAdd(fold, "", h));
    SpacedNameIsNeverFound(fold, again, h);
  }

  /** If the line names h, it is one of Volt's own and points home. */
  predicate AtPeace(fold: Fold, l: Line, h: string) {
    Names(fold, l, h) ==> BearsMark(l) && l.data.value.ip == "127.0.0.1"
  }

  lemma {:induction false} NoConflictsMeans(fold: Fold, lines: seq<Line>, h: string)
    requires WellFormedFile(lines)
    ensures ConflictsIn(fold, lines, h) == [] <==> forall i :: 0 <= i < |lines| ==> AtPeace(fold, lines[i], h)
  {
    if lines == [] {
    } else {
      var init, last := lines[..|lines| - 1], lines[|lines| - 1];
      assert lines == init + [last];
      assert WellFormedFile(init) && WellFormedLine(last);
      NoConflictsMeans(fold, init, h);
      OneMoreConflict(fold, init, last, h);
    }
  }

  lemma OneMoreConflict(fold: Fold, lines: seq<Line>, l: Line, h: string)
    requires WellFormedLine(l)
    ensures ConflictsIn(fold, lines + [l], h) == [] <==> ConflictsIn(fold, lines, h) == [] && AtPeace(fold, l, h)
  {
    assert (lines + [l])[..|lines|] == lines;
  }

  /** Without conflicts Add succeeds, and changes no line that is already there. */
  lemma NoConflictsAddSucceeds(fold: Fold, lines: seq<Line>, h: string)
    requires WellFormedFile(lines) && ConflictsIn(fold, lines, h) == []
    ensures PlanAdd(fold, lines, h) ==
      if FirstNaming(fold, lines, h) == |lines| then Write(lines + [NewManagedLine(h)]) else Keep
  {
    var i := FirstNaming(fold, lines, h);
    NoConflictsMeans(fold, lines, h);
    FirstNamingFinds(fold, lines, h);
    assert i < |lines| ==> WellFormedLine(lines[i]) && AtPeace(fold, lines[i], h);
  }

  /** Add refuses exactly when the first line naming h is foreign. */
  lemma RefusedIffForeignFirst(fold: Fold, lines: seq<Line>, h: string)
    requires WellFormedFile(lines)
    ensures var i := FirstNaming(fold, lines, h);
      PlanAdd(fold, lines, h) == Refuse <==> i < |lines| && !BearsMark(lines[i])
  {
    var i := FirstNaming(fold, lines, h);
    assert i < |lines| ==> WellFormedLine(lines[i]);
  }

  // ------------------------------------------------------------------ removing a name

  lemma {:induction false} WithoutIsWellFormed(fold: Fold, lines: seq<Line>, h: string)
    requires WellFormedFile(lines)
    ensures WellFormedFile(Without(fold, lines, h))
  {
    if lines == [] {
    } else {
      var init := lines[..|lines| - 1];
      assert forall i :: 0 <= i < |init| ==> init[i] == lines[i];
      WithoutIsWellFormed(fold, init, h);
      assert WellFormedLine(lines[|lines| - 1]);
    }
  }

  lemma {:induction false} WithoutKeepsForeign(fold: Fold, lines: seq<Line>, h: string)
    requires WellFormedFile(lines)
    ensures ForeignOf(Without(fold, lines, h)) == ForeignOf(lines)
  {
    if lines == [] {
    } else {
      var init, last := lines[..|lines| - 1], lines[|lines| - 1];
      assert WellFormedFile(init) && WellFormedLine(last);
      WithoutKeepsForeign(fold, init, h);
      AppendData(Without(fold, init, h), last);
      assert Owned(fold, last, h) ==> Without(fold, lines, h) == Without(fold, init, h);
    }
  }

  lemma {:induction false} WithoutNothing(fold: Fold, lines: seq<Line>, h: string)
    requires forall i :: 0 <= i < |lines| ==> !Owned(fold, lines[i], h)
    ensures Without(fold, lines, h) == lines
  {
    if lines == [] {
    } else {
      WithoutNothing(fold, lines[..|lines| - 1], h);
    }
  }

  /** Remove never changes the data of a line Volt does not own. */
  lemma RemoveKeepsForeign(fold: Fold, content: string, h: string)
    ensures ForeignOf(Parsed(Rendered(Without(fold, Parsed(content), h)))) == ForeignOf(Parsed(content))
  {
    ParsedFileIsWellFormed(content);
    WithoutIsWellFormed(fold, Parsed(content), h);
    WithoutKeepsForeign(fold, Parsed(content), h);
    ReparsedData(Without(fold, Parsed(content), h));
  }

  /** The file Remove leaves behind when it finds something to remove. */
  function AfterRemove(fold: Fold, content: string, h: string): string {
    Rendered(Without(fold, Parsed(content), h))
  }

  /** Adding a name nobody mentions and removing it again restores the data lines. */
  lemma AddThenRemove(fold: Fold, content: string, hostname: string, h: string)
    requires Normalize(hostname) == Some(h) && NoSpace(h)
    requires FirstNaming(fold, Parsed(content), h) == |Parsed(content)|
    ensures var added := AfterAdd(fold, content, h);
      && Without(fold, Parsed(added), h) != Parsed(added)
      && DataOf(Parsed(AfterRemove(fold, added, h))) == DataOf(Parsed(content))
  {
    var lines := Parsed(content);
    ParsedFileIsWellFormed(content);
    RemovedAgain(fold, lines, hostname, h);
    assert AfterAdd(fold, content, h) == Rendered(lines + [NewManagedLine(h)]);
  }

  lemma RemovedAgain(fold: Fold, lines: seq<Line>, hostname: string, h: string)
    requires WellFormedFile(lines) && Normalize(hostname) == Some(h) && NoSpace(h)
    requires FirstNaming(fold, lines, h) == |lines|
    ensures var added := Parsed(Rendered(lines + [NewManagedLine(h)]));
      && Without(fold, added, h) != added
      && DataOf(Parsed(Rendered(Without(fold, added, h)))) == DataOf(lines)
  {
    var newcomer := NewManagedLine(h);
    NewLineIsWellFormed(hostname, h);
    FileWithNewLine(lines, newcomer);
    UnmentionedIsNotOwned(fold, lines, h);
    WithoutInserted(fold, RereadAll(lines), Reread(newcomer), h);
    DataOfReread(lines);
  }

  lemma FileWithNewLine(lines: seq<Line>, newcomer: Line)
    requires WellFormedFile(lines) && WellFormedLine(newcomer) && RenderLine(newcomer) != ""
    ensures Parsed(Rendered(lines + [newcomer])) == RereadAll(lines) + [Reread(newcomer)] + [BLANK]
  {
    ParsedRendered(lines + [newcomer]);
    assert RereadAll(lines + [newcomer]) == RereadAll(lines) + [Reread(newcomer)];
  }

  lemma DataOfReread(lines: seq<Line>)
    requires WellFormedFile(lines)
    ensures DataOf(Parsed(Rendered(RereadAll(lines) + [BLANK]))) == DataOf(lines)
  {
    var kept := RereadAll(lines) + [BLANK];
    forall i | 0 <= i < |kept| ensures WellFormedLine(kept[i]) {
      if i < |lines| { RereadLine(lines[i]); } else { BlankParses(); }
    }
    ReparsedData(kept);
    SameData(lines, RereadAll(lines));
    AppendData(RereadAll(lines), BLANK);
  }

  lemma UnmentionedIsNotOwned(fold: Fold, lines: seq<Line>, h: string)
    requires FirstNaming(fold, lines, h) == |lines|
    ensures forall i :: 0 <= i < |lines| ==> !Owned(fold, Reread(lines[i]), h)
  {
  }

  lemma WithoutLast(fold: Fold, lines: seq<Line>, last: Line, h: string)
    ensures Without(fold, lines + [last], h) == Without(fold, lines, h) + if Owned(fold, last, h) then [] else [last]
  {
    assert (lines + [last])[..|lines|] == lines;
  }

  lemma WithoutInserted(fold: Fold, lines: seq<Line>, own: Line, h: string)
    requires forall i :: 0 <= i < |lines| ==> !Owned(fold, lines[i], h)
    requires Owned(fold, own, h)
    ensures Without(fold, lines + [own] + [BLANK], h) == lines + [BLANK]
  {
    WithoutLast(fold, lines + [own], BLANK, h);
    WithoutLast(fold, lines, own, h);
    WithoutNothing(fold, lines, h);
  }
}
