/** Adding, removing, listing and checking host names (internal/providers/domainprovider/hosts/hosts.go). */
module HostsEdit {
  import opened Wrappers
  import opened Text
  import opened Hosts
  import Order

  /** The representative of a character's case-folding orbit; strings fold equally when their characters do. */
  type Fold = char -> char

  predicate EqualFold(fold: Fold, a: string, b: string) {
    |a| == |b| && forall i :: 0 <= i < |a| ==> fold(a[i]) == fold(b[i])
  }

  predicate HasHost(fold: Fold, d: DataLine, h: string) {
    exists i :: 0 <= i < |d.hosts| && EqualFold(fold, d.hosts[i], h)
  }

  predicate Names(fold: Fold, l: Line, h: string) {
    l.data.Some? && HasHost(fold, l.data.value, h)
  }

  /** The trimmed name, unless it is empty or holds a space, a tab or '#' inside. */
  function Normalize(hostname: string): Option<string> {
    var h := Trim(hostname);
    if h == "" || ' ' in h || '\t' in h || '#' in h then None else Some(h)
  }

  function NewManagedLine(h: string): Line {
    Line("", Some(DataLine(MANAGED_IP, [h], MANAGED_MARKER, true)))
  }

  /** The first line that names h, or the number of lines. */
  function FirstNaming(fold: Fold, lines: seq<Line>, h: string): (i: nat)
    ensures i <= |lines|
  {
    if lines == [] then 0
    else if Names(fold, lines[0], h) then 0
    else 1 + FirstNaming(fold, lines[1..], h)
  }

  lemma {:induction false} FirstNamingIs(fold: Fold, lines: seq<Line>, h: string, i: nat)
    requires i <= |lines| && forall k :: 0 <= k < i ==> !Names(fold, lines[k], h)
    requires i < |lines| ==> Names(fold, lines[i], h)
    ensures FirstNaming(fold, lines, h) == i
  {
    if i > 0 {
      FirstNamingIs(fold, lines[1..], h, i - 1);
    }
  }

  lemma {:induction false} FirstNamingFinds(fold: Fold, lines: seq<Line>, h: string)
    ensures var i := FirstNaming(fold, lines, h);
      && (forall k :: 0 <= k < i ==> !Names(fold, lines[k], h))
      && (i < |lines| ==> Names(fold, lines[i], h))
  {
    if lines != [] && !Names(fold, lines[0], h) {
      FirstNamingFinds(fold, lines[1..], h);
      forall k | 0 <= k < FirstNaming(fold, lines, h) ensures !Names(fold, lines[k], h) {
        if k > 0 { assert lines[1..][k - 1] == lines[k]; }
      }
    }
  }

  datatype Plan = Refuse | Keep | Write(lines: seq<Line>)

  function PlanAdd(fold: Fold, lines: seq<Line>, h: string): Plan {
    var i := FirstNaming(fold, lines, h);
    if i == |lines| then Write(lines + [NewManagedLine(h)])
    else if lines[i].data.None? || !lines[i].data.value.managed then Refuse
    else if lines[i].data.value.ip == MANAGED_IP then Keep
    else Write(lines[i := lines[i].(data := Some(lines[i].data.value.(ip := MANAGED_IP)))])
  }

  /** The lines Remove takes out: managed, naming h and nothing else. */
  predicate Owned(fold: Fold, l: Line, h: string) {
    l.data.Some? && l.data.value.managed && |l.data.value.hosts| == 1 && EqualFold(fold, l.data.value.hosts[0], h)
  }

  function Without(fold: Fold, lines: seq<Line>, h: string): seq<Line> {
    if lines == [] then []
    else
      var last := lines[|lines| - 1];
      Without(fold, lines[..|lines| - 1], h) + if Owned(fold, last, h) then [] else [last]
  }

  datatype Conflict = ForeignMapping(ip: string) | WrongAddress(ip: string)

  function ConflictsIn(fold: Fold, lines: seq<Line>, h: string): seq<Conflict> {
    if lines == [] then []
    else
      var l := lines[|lines| - 1];
      ConflictsIn(fold, lines[..|lines| - 1], h) +
      if !Names(fold, l, h) then []
      else if !l.data.value.managed then [ForeignMapping(l.data.value.ip)]
      else if l.data.value.ip != MANAGED_IP then [WrongAddress(l.data.value.ip)]
      else []
  }

  function ManagedHosts(lines: seq<Line>): seq<string> {
    if lines == [] then []
    else
      var l := lines[|lines| - 1];
      ManagedHosts(lines[..|lines| - 1]) + if l.data.Some? && l.data.value.managed then l.data.value.hosts else []
  }

  datatype Outcome = Ok | InvalidName | NotManaged | NotFound

  /** The provider and the one file it reads and writes; a missing file reads as empty. */
  class Provider {
    const fold: Fold
    var file: Option<string>

    constructor (fold: Fold, file: Option<string>)
      ensures this.fold == fold && this.file == file
    {
      this.fold, this.file := fold, file;
    }

    ghost function Lines(): seq<Line>
      reads this
    {
      if file.Some? then Parsed(file.value) else []
    }

    method Read() returns (lines: seq<Line>)
      ensures lines == Lines()
    {
      if file.None? {
        return [];
      }
      lines := ParseAll(file.value);
    }

    method WriteLines(lines: seq<Line>)
      modifies this
      ensures file == Some(Rendered(lines))
    {
      var s := Render(lines);
      file := Some(s);
    }

    method CheckHost(d: DataLine, h: string) returns (found: bool)
      ensures found == HasHost(fold, d, h)
    {
      for i := 0 to |d.hosts|
        invariant forall k :: 0 <= k < i ==> !EqualFold(fold, d.hosts[k], h)
      {
        if EqualFold(fold, d.hosts[i], h) {
          return true;
        }
      }
      return false;
    }

    method Add(hostname: string) returns (r: Outcome)
      modifies this
      ensures match Normalize(hostname)
        case None => r == InvalidName && file == old(file)
        case Some(h) =>
          match PlanAdd(fold, old(Lines()), h)
          case Refuse => r == NotManaged && file == old(file)
          case Keep => r == Ok && file == old(file)
          case Write(lines) => r == Ok && file == Some(Rendered(lines))
    {
      var host := Normalize(hostname);
      if host.None? {
        return InvalidName;
      }
      var lines := Read();
      for i := 0 to |lines|
        invariant forall k :: 0 <= k < i ==> !Names(fold, lines[k], host.value)
        invariant file == old(file)
      {
        var d := lines[i].data;
        if d.None? {
          continue;
        }
        var found := CheckHost(d.value, host.value);
        if !found {
          continue;
        }
        FirstNamingIs(fold, lines, host.value, i);
        if !d.value.managed {
          return NotManaged;
        }
        if d.value.ip == MANAGED_IP {
          return Ok;
        }
        lines := lines[i := lines[i].(data := Some(d.value.(ip := MANAGED_IP)))];
        WriteLines(lines);
        return Ok;
      }
      FirstNamingIs(fold, lines, host.value, |lines|);
      WriteLines(lines + [NewManagedLine(host.value)]);
      return Ok;
    }

    method Remove(hostname: string) returns (r: Outcome)
      modifies this
      ensures match Normalize(hostname)
        case None => r == InvalidName && file == old(file)
        case Some(h) =>
          var kept := Without(fold, old(Lines()), h);
          if kept == old(Lines()) then r == NotFound && file == old(file)
          else r == Ok && file == Some(Rendered(kept))
    {
      var host := Normalize(hostname);
      if host.None? {
        return InvalidName;
      }
      var lines := Read();
      var kept, removed := Keep(lines, host.value);
      if !removed {
        return NotFound;
      }
      WriteLines(kept);
      return Ok;
    }

    method Keep(lines: seq<Line>, h: string) returns (kept: seq<Line>, removed: bool)
      ensures kept == Without(fold, lines, h)
      ensures removed <==> kept != lines
    {
      kept, removed := [], false;
      for i := 0 to |lines|
        invariant kept == Without(fold, lines[..i], h)
        invariant |kept| <= i && (removed ==> |kept| < i) && (!removed ==> kept == lines[..i])
      {
        assert lines[..i + 1][..i] == lines[..i];
        if Owned(fold, lines[i], h) {
          removed := true;
          continue;
        }
        kept := kept + [lines[i]];
      }
      assert lines[..|lines|] == lines;
    }

    method CollectManaged(lines: seq<Line>) returns (out: seq<string>)
      ensures out == ManagedHosts(lines)
    {
      out := [];
      for i := 0 to |lines|
        invariant out == ManagedHosts(lines[..i])
      {
        assert lines[..i + 1][..i] == lines[..i];
        if lines[i].data.None? || !lines[i].data.value.managed {
          continue;
        }
        out := out + lines[i].data.value.hosts;
      }
      assert lines[..|lines|] == lines;
    }

    method List() returns (hosts: seq<string>)
      ensures Order.Sorted(hosts) && multiset(hosts) == multiset(ManagedHosts(Lines()))
    {
      var lines := Read();
      var out := CollectManaged(lines);
      Order.SortSorts(out);
      return Order.Sort(out);
    }

    method Conflicts(hostname: string) returns (r: Option<seq<Conflict>>)
      ensures match Normalize(hostname)
        case None => r == None
        case Some(h) => r == Some(ConflictsIn(fold, Lines(), h))
    {
      var host := Normalize(hostname);
      if host.None? {
        return None;
      }
      var lines := Read();
      var out: seq<Conflict> := [];
      for i := 0 to |lines|
        invariant out == ConflictsIn(fold, lines[..i], host.value)
      {
        assert lines[..i + 1][..i] == lines[..i];
        if lines[i].data.None? {
          continue;
        }
        var d := lines[i].data.value;
        var found := CheckHost(d, host.value);
        if !found {
          continue;
        }
        if !d.managed {
          out := out + [ForeignMapping(d.ip)];
        } else if d.ip != MANAGED_IP {
          out := out + [WrongAddress(d.ip)];
        }
      }
      assert lines[..|lines|] == lines;
      return Some(out);
    }
  }
}
