/**
 Which Node.js versions are there (internal/providers/runtime/node/node.go, installer.go),
 over one snapshot of the file system and of what `node --version` answers.
 */
module NodeRuntime {
  import opened Wrappers
  import opened Seqs
  import Order
  import Text

  datatype RuntimeVersion = RuntimeVersion(version: string, path: string, isDefault: bool)

  datatype Entry = Entry(name: string, isDir: bool)

  datatype Listing = Unreadable | Absent | Listed(entries: seq<Entry>)

  datatype Snapshot = Snapshot(
    defaultFile: Option<string>,          // the content of default.txt, if it can be read
    listing: Listing,                     // the directory of managed versions
    binaries: map<string, string>,        // the versions whose node binary exists, with its path
    onPath: Option<(string, string)>)     // version and path of the node on PATH

  // ------------------------------------------------------- version numbers in directory names

  predicate IsDigit(c: char) {
    '0' <= c <= '9'
  }

  function SkipDigits(s: string): string {
    if s != [] && IsDigit(s[0]) then SkipDigits(s[1..]) else s
  }

  /** The digits-dot-digits-dot-digit shape at the start of a string. */
  predicate StartsVersion(s: string) {
    var t := SkipDigits(s);
    var u := if t == [] then [] else SkipDigits(t[1..]);
    && s != [] && IsDigit(s[0])
    && |t| > 1 && t[0] == '.' && IsDigit(t[1])
    && |u| > 1 && u[0] == '.' && IsDigit(u[1])
  }

  /** semverRe.MatchString: the pattern is not anchored. */
  predicate HasVersion(s: string) {
    s != [] && (StartsVersion(s) || HasVersion(s[1..]))
  }

  // ------------------------------------------------------------------------------- sorting

  function Insert(x: RuntimeVersion, s: seq<RuntimeVersion>): seq<RuntimeVersion> {
    if s == [] then [x]
    else if Order.Leq(x.version, s[0].version) then [x] + s
    else [s[0]] + Insert(x, s[1..])
  }

  /** sort.Slice by version. */
  function Sort(s: seq<RuntimeVersion>): seq<RuntimeVersion> {
    if s == [] then [] else Insert(s[0], Sort(s[1..]))
  }

  ghost predicate Names(s: seq<RuntimeVersion>, version: string) {
    exists i :: 0 <= i < |s| && s[i].version == version
  }

  lemma NamesAppend(s: seq<RuntimeVersion>, v: RuntimeVersion)
    ensures forall version :: Names(s + [v], version) <==> Names(s, version) || version == v.version
  {
    forall version
      ensures Names(s + [v], version) <==> Names(s, version) || version == v.version
    {
      assert (s + [v])[|s|] == v;
      if i :| 0 <= i < |s| && s[i].version == version {
        assert (s + [v])[i] == s[i];
      }
    }
  }

  ghost predicate DistinctVersions(s: seq<RuntimeVersion>) {
    forall i, j :: 0 <= i < j < |s| ==> s[i].version != s[j].version
  }

  ghost predicate StrictlySorted(s: seq<RuntimeVersion>) {
    forall i, j :: 0 <= i < j < |s| ==> s[i].version != s[j].version && Order.Leq(s[i].version, s[j].version)
  }

  lemma ElementsCons(x: RuntimeVersion, s: seq<RuntimeVersion>)
    ensures Elements([x] + s) == {x} + Elements(s)
  {
  }

  lemma {:induction false} InsertElements(x: RuntimeVersion, s: seq<RuntimeVersion>)
    ensures Elements(Insert(x, s)) == Elements(s) + {x}
  {
    if s == [] || Order.Leq(x.version, s[0].version) {
      ElementsCons(x, s);
    } else {
      InsertElements(x, s[1..]);
      ElementsCons(s[0], Insert(x, s[1..]));
      ElementsCons(s[0], s[1..]);
      assert s == [s[0]] + s[1..];
    }
  }

  lemma {:induction false} SortElements(s: seq<RuntimeVersion>)
    ensures Elements(Sort(s)) == Elements(s)
  {
    if s == [] {
    } else {
      SortElements(s[1..]);
      InsertElements(s[0], Sort(s[1..]));
      assert s == [s[0]] + s[1..];
    }
  }

  lemma ConsStrict(x: RuntimeVersion, s: seq<RuntimeVersion>)
    requires StrictlySorted(s)
    requires forall i :: 0 <= i < |s| ==> x.version != s[i].version && Order.Leq(x.version, s[i].version)
    ensures StrictlySorted([x] + s)
  {
  }

  lemma {:induction false} InsertStrict(x: RuntimeVersion, s: seq<RuntimeVersion>)
    requires StrictlySorted(s) && !Names(s, x.version)
    ensures StrictlySorted(Insert(x, s))
  {
    if s == [] {
    } else {
      if Order.Leq(x.version, s[0].version) {
        forall i | 0 <= i < |s|
          ensures x.version != s[i].version && Order.Leq(x.version, s[i].version)
        {
          if i > 0 { Order.LeqTransitive(x.version, s[0].version, s[i].version); }
        }
        ConsStrict(x, s);
      } else {
        var rest := Insert(x, s[1..]);
        InsertStrict(x, s[1..]);
        InsertElements(x, s[1..]);
        Order.LeqTotal(x.version, s[0].version);
        forall i | 0 <= i < |rest|
          ensures s[0].version != rest[i].version && Order.Leq(s[0].version, rest[i].version)
        {
          assert rest[i] in Elements(rest);
          if rest[i] != x {
            var j :| 0 <= j < |s[1..]| && s[1..][j] == rest[i];
            assert s[j + 1] == rest[i];
          }
        }
        ConsStrict(s[0], rest);
      }
    }
  }

  lemma {:induction false} SortStrict(s: seq<RuntimeVersion>)
    requires DistinctVersions(s)
    ensures StrictlySorted(Sort(s))
  {
    if s == [] {
    } else {
      SortStrict(s[1..]);
      SortElements(s[1..]);
      var rest := Sort(s[1..]);
      forall i | 0 <= i < |rest|
        ensures rest[i].version != s[0].version
      {
        assert rest[i] in Elements(rest);
        var j :| 0 <= j < |s[1..]| && s[1..][j] == rest[i];
        assert s[j + 1] == rest[i];
      }
      InsertStrict(s[0], rest);
    }
  }

  // ----------------------------------------------------------------------------- detection

  /** readDefault */
  function ReadDefault(snap: Snapshot): string {
    if snap.defaultFile.None? then "" else Text.Trim(snap.defaultFile.value)
  }

  /** ActiveVersion: the default, when its binary exists, else the node on PATH. */
  function ActiveVersion(snap: Snapshot): Option<RuntimeVersion> {
    var v := ReadDefault(snap);
    if v != "" && v in snap.binaries then Some(RuntimeVersion(v, snap.binaries[v], true))
    else
      match snap.onPath
      case None => None
      case Some(found) => Some(RuntimeVersion(found.0, found.1, true))
  }

  /** A complete installed version in the managed directory. */
  predicate IsManaged(snap: Snapshot, e: Entry) {
    e.isDir && HasVersion(e.name) && e.name in snap.binaries
  }

  function ManagedVersion(snap: Snapshot, e: Entry): RuntimeVersion
    requires IsManaged(snap, e)
  {
    RuntimeVersion(e.name, snap.binaries[e.name], e.name == ReadDefault(snap))
  }

  ghost function ManagedIn(snap: Snapshot, entries: seq<Entry>): set<RuntimeVersion> {
    set e | e in entries && IsManaged(snap, e) :: ManagedVersion(snap, e)
  }

  ghost function Managed(snap: Snapshot): set<RuntimeVersion> {
    if snap.listing.Listed? then ManagedIn(snap, snap.listing.entries) else {}
  }

  method ManagedVersions(snap: Snapshot) returns (result: Option<seq<RuntimeVersion>>)
    ensures result.None? <==> snap.listing.Unreadable?
    ensures result.Some? ==> Elements(result.value) == Managed(snap)
  {
    if snap.listing.Unreadable? {
      return None;
    }
    if snap.listing.Absent? {
      return Some([]);
    }
    var entries := snap.listing.entries;
    var out := [];
    for i := 0 to |entries|
      invariant Elements(out) == ManagedIn(snap, entries[..i])
    {
      assert entries[..i + 1] == entries[..i] + [entries[i]];
      if IsManaged(snap, entries[i]) {
        ElementsAppend(out, ManagedVersion(snap, entries[i]));
        out := out + [ManagedVersion(snap, entries[i])];
      }
    }
    assert entries[..|entries|] == entries;
    SortElements(out);
    return Some(Sort(out));
  }

  /** What detection reports: the active version, and every managed version other than it. */
  ghost function Detected(snap: Snapshot): set<RuntimeVersion> {
    var active := ActiveVersion(snap);
    if active.None? then Managed(snap)
    else {active.value} + set v | v in Managed(snap) && v.version != active.value.version
  }

  method DetectInstalled(snap: Snapshot) returns (result: Option<seq<RuntimeVersion>>)
    ensures result.None? <==> snap.listing.Unreadable?
    ensures result.Some? ==> StrictlySorted(result.value) && Elements(result.value) == Detected(snap)
  {
    var listed := ManagedVersions(snap);
    if listed.None? {
      return None;
    }
    var managed := listed.value;
    var out: seq<RuntimeVersion> := [];
    var seen: set<string> := {};
    var active := ActiveVersion(snap);
    if active.Some? {
      out, seen := [active.value], {active.value.version};
      assert out[0] == active.value;
    }
    ghost var first := Elements(out);
    for i := 0 to |managed|
      invariant forall s :: s in seen <==> Names(out, s)
      invariant first <= Elements(out)
      invariant active.Some? ==> first == {active.value}
      invariant active.None? ==> first == {}
      invariant DistinctVersions(out)
      invariant forall k :: 0 <= k < i ==> Names(out, managed[k].version)
      invariant forall v :: v in Elements(out) - first ==>
        v in Managed(snap) && (active.Some? ==> v.version != active.value.version)
    {
      var v := managed[i];
      assert v in Elements(managed);
      if v.version !in seen {
        ElementsAppend(out, v);
        NamesAppend(out, v);
        out, seen := out + [v], seen + {v.version};
      }
    }
    EveryManagedIsThere(snap, managed, out, active);
    SortElements(out);
    SortStrict(out);
    return Some(Sort(out));
  }

  lemma EveryManagedIsThere(snap: Snapshot, managed: seq<RuntimeVersion>, out: seq<RuntimeVersion>,
      active: Option<RuntimeVersion>)
    requires active == ActiveVersion(snap) && Elements(managed) == Managed(snap)
    requires active.Some? ==> active.value in Elements(out)
    requires forall k :: 0 <= k < |managed| ==> Names(out, managed[k].version)
    requires forall v :: v in Elements(out) && Some(v) != active ==>
      v in Managed(snap) && (active.Some? ==> v.version != active.value.version)
    ensures Elements(out) == Detected(snap)
  {
  }

  /** The default that detection reports is the active version; there is never another. */
  lemma DefaultIsTheActiveOne(snap: Snapshot, v: RuntimeVersion)
    requires v in Detected(snap)
    ensures v.isDefault <==> ActiveVersion(snap) == Some(v)
  {
  }

  /** At most one default, in a list of distinct versions in ascending order. */
  lemma AtMostOneDefault(snap: Snapshot, found: seq<RuntimeVersion>, i: nat, j: nat)
    requires StrictlySorted(found) && Elements(found) == Detected(snap)
    requires i < |found| && j < |found| && found[i].isDefault && found[j].isDefault
    ensures i == j
  {
    assert found[i] in Elements(found) && found[j] in Elements(found);
    DefaultIsTheActiveOne(snap, found[i]);
    DefaultIsTheActiveOne(snap, found[j]);
  }
}
