/** From one detection of Node.js versions to the version table, over one snapshot. */
module Detection {
  import opened Wrappers
  import opened Seqs
  import NodeRuntime
  import Runtimes

  /** The caller hands the detected versions on as they are. */
  function AsDetected(found: seq<NodeRuntime.RuntimeVersion>): seq<Runtimes.Detected> {
    seq(|found|, i requires 0 <= i < |found| => Runtimes.Detected(found[i].version, found[i].path, found[i].isDefault))
  }

  ghost predicate Found(snap: NodeRuntime.Snapshot, found: seq<NodeRuntime.RuntimeVersion>) {
    NodeRuntime.StrictlySorted(found) && Elements(found) == NodeRuntime.Detected(snap)
  }

  ghost predicate IsThere(snap: NodeRuntime.Snapshot, version: string) {
    exists v :: v in NodeRuntime.Detected(snap) && v.version == version
  }

  lemma FoundIffThere(snap: NodeRuntime.Snapshot, found: seq<NodeRuntime.RuntimeVersion>, version: string)
    requires Found(snap, found)
    ensures IsThere(snap, version) <==> exists i :: 0 <= i < |found| && AsDetected(found)[i].version == version
  {
    if IsThere(snap, version) {
      var v :| v in Elements(found) && v.version == version;
      var i :| 0 <= i < |found| && found[i] == v;
      assert AsDetected(found)[i].version == version;
    }
    if i :| 0 <= i < |found| && AsDetected(found)[i].version == version {
      assert found[i] in Elements(found);
    }
  }

  /** After detection and update, the installed versions are those on the machine. */
  lemma TableMatchesTheMachine(snap: NodeRuntime.Snapshot, found: seq<NodeRuntime.RuntimeVersion>,
      before: Runtimes.Rows, after: Runtimes.Rows, rt: Runtimes.Id, version: string)
    requires Found(snap, found) && Runtimes.Reconciled(before, after, rt, AsDetected(found))
    ensures Runtimes.HasInstalled(after, rt, version) <==> IsThere(snap, version)
  {
    FoundIffThere(snap, found, version);
    Runtimes.InstalledIffDetected(before, after, rt, AsDetected(found), version);
  }

  /** Every detected version has an installed row with its path, marked as default if it is the active one. */
  lemma RowsAreAsDetected(snap: NodeRuntime.Snapshot, found: seq<NodeRuntime.RuntimeVersion>,
      before: Runtimes.Rows, after: Runtimes.Rows, rt: Runtimes.Id, v: NodeRuntime.RuntimeVersion)
    returns (id: Runtimes.Id)
    requires Found(snap, found) && Runtimes.Reconciled(before, after, rt, AsDetected(found))
    requires v in NodeRuntime.Detected(snap)
    ensures id in after && after[id] ==
      Runtimes.Row(rt, v.version, v.path, NodeRuntime.ActiveVersion(snap) == Some(v), Runtimes.Installed)
  {
    assert v in Elements(found);
    var i :| 0 <= i < |found| && found[i] == v;
    assert Runtimes.LastMention(AsDetected(found), i);
    id := Runtimes.DetectedRow(before, after, rt, AsDetected(found), i);
    NodeRuntime.DefaultIsTheActiveOne(snap, v);
  }

  /**
   The table keeps at most one default, unless there is an active version while the old default
   is no longer on the machine: its row goes missing and stays a default.
   */
  lemma OneDefaultUnlessLost(snap: NodeRuntime.Snapshot, found: seq<NodeRuntime.RuntimeVersion>,
      before: Runtimes.Rows, after: Runtimes.Rows, rt: Runtimes.Id)
    requires Found(snap, found) && Runtimes.Reconciled(before, after, rt, AsDetected(found))
    requires Runtimes.AtMostOneDefault(before, rt)
    ensures Runtimes.AtMostOneDefault(after, rt) <==>
      !(NodeRuntime.ActiveVersion(snap).Some? &&
        exists id :: id in before && before[id].runtime == rt && before[id].isDefault
          && !IsThere(snap, before[id].version))
  {
    var detected := AsDetected(found);
    forall i, j | 0 <= i < j < |detected|
      ensures detected[i].version != detected[j].version && !(detected[i].isDefault && detected[j].isDefault)
    {
      if found[i].isDefault && found[j].isDefault {
        NodeRuntime.AtMostOneDefault(snap, found, i, j);
      }
    }
    Runtimes.OneDefaultAfterDetectionIff(before, after, rt, detected);
    DefaultIffActive(snap, found);
    forall id | id in before
      ensures Runtimes.LostDefault(before, rt, detected, id) <==>
        before[id].runtime == rt && before[id].isDefault && !IsThere(snap, before[id].version)
    {
      FoundIffThere(snap, found, before[id].version);
      Runtimes.LatestFinds(detected, before[id].version);
    }
  }

  lemma DefaultIffActive(snap: NodeRuntime.Snapshot, found: seq<NodeRuntime.RuntimeVersion>)
    requires Found(snap, found)
    ensures NodeRuntime.ActiveVersion(snap).Some? <==>
      exists i :: 0 <= i < |found| && AsDetected(found)[i].isDefault
  {
    var active := NodeRuntime.ActiveVersion(snap);
    if active.Some? {
      assert active.value in Elements(found);
      var i :| 0 <= i < |found| && found[i] == active.value;
      assert AsDetected(found)[i].isDefault;
    }
    if i :| 0 <= i < |found| && AsDetected(found)[i].isDefault {
      assert found[i] in Elements(found);
      NodeRuntime.DefaultIsTheActiveOne(snap, found[i]);
    }
  }
}
