/**
 The runtime version tables (internal/domain/runtime/runtime.go). The primary key indexes a
 table; (runtime, version) is not declared unique, so the code alone has to keep it so.
 */
module Runtimes {
  import opened Wrappers

  type Id(==, !new, 0)

  datatype Status = Installed | Missing

  datatype Runtime = Runtime(kind: string, name: string)

  datatype Row = Row(runtime: Id, version: string, path: string, isDefault: bool, status: Status)

  datatype Detected = Detected(version: string, path: string, isDefault: bool)

  type Rows = map<Id, Row>

  ghost predicate UniqueKinds(runtimes: map<Id, Runtime>) {
    forall a, b :: a in runtimes && b in runtimes && runtimes[a].kind == runtimes[b].kind ==> a == b
  }

  ghost predicate UniqueVersions(rows: Rows) {
    forall a, b :: a in rows && b in rows && rows[a].runtime == rows[b].runtime && rows[a].version == rows[b].version
      ==> a == b
  }

  ghost predicate HasVersion(rows: Rows, rt: Id, version: string) {
    exists id :: id in rows && rows[id].runtime == rt && rows[id].version == version
  }

  ghost predicate HasInstalled(rows: Rows, rt: Id, version: string) {
    exists id :: id in rows && rows[id].runtime == rt && rows[id].version == version && rows[id].status == Installed
  }

  /** The one runtime of a kind, inserted with id `newId` unless it was there. */
  ghost predicate Ensured(before: map<Id, Runtime>, after: map<Id, Runtime>, kind: string, name: string, newId: Id,
      rt: Id)
  {
    && rt in after && after[rt].kind == kind
    && if exists id :: id in before && before[id].kind == kind then after == before
       else rt == newId && after == before[newId := Runtime(kind, name)]
  }

  // ------------------------------------------------------------------ what a detection means

  /** The last detection of a version in the list, if there is one. */
  function Latest(detected: seq<Detected>, version: string): Option<Detected> {
    if detected == [] then None
    else
      var d := detected[|detected| - 1];
      if d.version == version then Some(d) else Latest(detected[..|detected| - 1], version)
  }

  lemma {:induction false} LatestFinds(detected: seq<Detected>, version: string)
    ensures Latest(detected, version).Some? <==> exists i :: 0 <= i < |detected| && detected[i].version == version
    ensures Latest(detected, version).Some? ==>
      Latest(detected, version).value in detected && Latest(detected, version).value.version == version
  {
    if detected == [] {
    } else {
      var init := detected[..|detected| - 1];
      LatestFinds(init, version);
      if exists i :: 0 <= i < |detected| && detected[i].version == version {
        var i :| 0 <= i < |detected| && detected[i].version == version;
        assert i < |init| ==> init[i] == detected[i];
      }
    }
  }

  function RowOf(rt: Id, d: Detected): Row {
    Row(rt, d.version, d.path, d.isDefault, Installed)
  }

  /** A row of the table after a detection for runtime `rt`. */
  function Updated(row: Row, rt: Id, detected: seq<Detected>): Row {
    if row.runtime != rt then row
    else
      match Latest(detected, row.version)
      case Some(d) => RowOf(rt, d)
      case None => row.(status := Missing)
  }

  /** Old rows keep their id and are updated in place; new rows are those of versions seen for the first time. */
  ghost predicate Reconciled(before: Rows, after: Rows, rt: Id, detected: seq<Detected>) {
    && (forall id :: id in before ==> id in after && after[id] == Updated(before[id], rt, detected))
    && (forall id :: id in after && id !in before ==>
          && Latest(detected, after[id].version).Some?
          && after[id] == RowOf(rt, Latest(detected, after[id].version).value)
          && !HasVersion(before, rt, after[id].version))
    && (forall i :: 0 <= i < |detected| ==> HasVersion(after, rt, detected[i].version))
    && UniqueVersions(after)
  }

  // ----------------------------------------------------------------------------- repository

  class Repository {
    var runtimes: map<Id, Runtime>
    var versions: Rows

    ghost predicate Valid()
      reads this
    {
      UniqueKinds(runtimes) && UniqueVersions(versions)
    }

    constructor ()
      ensures Valid() && runtimes == map[] && versions == map[]
    {
      runtimes, versions := map[], map[];
    }

    method GetRuntimeByKind(kind: string) returns (found: Option<Id>)
      ensures found.Some? ==> found.value in runtimes && runtimes[found.value].kind == kind
      ensures found.None? ==> forall id :: id in runtimes ==> runtimes[id].kind != kind
    {
      if id :| id in runtimes && runtimes[id].kind == kind {
        return Some(id);
      }
      return None;
    }

    method EnsureRuntime(kind: string, name: string, newId: Id) returns (rt: Id)
      requires Valid() && newId !in runtimes
      modifies this`runtimes
      ensures Valid()
      ensures Ensured(old(runtimes), runtimes, kind, name, newId, rt)
    {
      var existing := GetRuntimeByKind(kind);
      if existing.Some? {
        return existing.value;
      }
      runtimes := runtimes[newId := Runtime(kind, name)];
      return newId;
    }

    /** `newIds`: the ids drawn for the rows; `commits`: whether the transaction goes through. */
    method ReplaceDetected(kind: string, name: string, detected: seq<Detected>, runtimeId: Id, newIds: seq<Id>,
        commits: bool)
      returns (rt: Option<Id>)
      requires Valid() && runtimeId !in runtimes && |newIds| == |detected|
      requires forall i :: 0 <= i < |newIds| ==> newIds[i] !in versions
      requires forall i, j :: 0 <= i < j < |newIds| ==> newIds[i] != newIds[j]
      modifies this
      ensures Valid()
      ensures rt.Some? <==> commits
      ensures rt.Some? ==> Ensured(old(runtimes), runtimes, kind, name, runtimeId, rt.value)
      ensures rt.Some? ==> Reconciled(old(versions), versions, rt.value, detected)
      ensures rt.None? ==> versions == old(versions)
      ensures rt.None? ==> exists id :: Ensured(old(runtimes), runtimes, kind, name, runtimeId, id)
    {
      var id := EnsureRuntime(kind, name, runtimeId);
      if !commits {
        return None;
      }
      ghost var (known, before) := (runtimes, versions);
      var rows := MarkMissing(versions, id);
      ReconcileNone(versions, id);
      for i := 0 to |detected|
        invariant runtimes == known && versions == before
        invariant Reconciled(before, rows, id, detected[..i])
        invariant forall k :: i <= k < |newIds| ==> newIds[k] !in rows
      {
        var d := detected[i];
        assert detected[..i + 1] == detected[..i] + [d];
        if existing :| existing in rows && rows[existing].runtime == id && rows[existing].version == d.version {
          ReconcileKnown(before, rows, id, detected[..i], d, existing);
          assert rows[existing].(path := d.path, isDefault := d.isDefault, status := Installed) == RowOf(id, d);
          rows := rows[existing := rows[existing].(path := d.path, isDefault := d.isDefault, status := Installed)];
        } else {
          ReconcileNew(before, rows, id, detected[..i], d, newIds[i]);
          rows := rows[newIds[i] := Row(id, d.version, d.path, d.isDefault, Installed)];
        }
      }
      assert detected[..|detected|] == detected;
      versions := rows;
      return Some(id);
    }

    method SetDefaultVersion(kind: string, version: string, commits: bool) returns (ok: bool)
      requires Valid()
      modifies this`versions
      ensures Valid()
      ensures ok <==> commits && exists rt ::
        rt in runtimes && runtimes[rt].kind == kind && HasVersion(old(versions), rt, version)
      ensures !ok ==> versions == old(versions)
      ensures ok ==> exists rt ::
        rt in runtimes && runtimes[rt].kind == kind && versions == WithDefault(old(versions), rt, version)
    {
      var rt := GetRuntimeByKind(kind);
      if rt.None? {
        return false;
      }
      var id := rt.value;
      if row :| row in versions && versions[row].runtime == id && versions[row].version == version {
        if !commits {
          return false;
        }
        ClearThenMark(versions, id, version);
        versions := MarkDefault(ClearDefaults(versions, id), id, version);
        return true;
      }
      assert forall other :: other in runtimes && runtimes[other].kind == kind ==> other == id;
      return false;
    }
  }

  lemma LatestAppend(detected: seq<Detected>, d: Detected, version: string)
    ensures Latest(detected + [d], version) == if d.version == version then Some(d) else Latest(detected, version)
  {
  }

  function MarkMissing(rows: Rows, rt: Id): Rows {
    map id | id in rows :: if rows[id].runtime == rt then rows[id].(status := Missing) else rows[id]
  }

  lemma ReconcileNone(before: Rows, rt: Id)
    requires UniqueVersions(before)
    ensures Reconciled(before, MarkMissing(before, rt), rt, [])
  {
  }

  lemma ReconcileKnown(before: Rows, rows: Rows, rt: Id, detected: seq<Detected>, d: Detected, existing: Id)
    requires Reconciled(before, rows, rt, detected)
    requires existing in rows && rows[existing].runtime == rt && rows[existing].version == d.version
    ensures Reconciled(before, rows[existing := RowOf(rt, d)], rt, detected + [d])
  {
    var after := rows[existing := RowOf(rt, d)];
    KeepsVersions(rows, after, rt, detected, d);
    forall id | id in before
      ensures id in after && after[id] == Updated(before[id], rt, detected + [d])
    {
      UpdatedKeepsKey(before[id], rt, detected);
      LatestAppend(detected, d, before[id].version);
    }
    NewRowsStillNew(before, rows, after, rt, detected, d, existing);
  }

  lemma NewRowsStillNew(before: Rows, rows: Rows, after: Rows, rt: Id, detected: seq<Detected>, d: Detected,
      changed: Id)
    requires Reconciled(before, rows, rt, detected) && after == rows[changed := RowOf(rt, d)]
    requires changed in rows ==> rows[changed].version == d.version
    requires changed !in rows ==> !HasVersion(before, rt, d.version)
    requires forall id :: id in rows && id != changed && rows[id].runtime == rt ==> rows[id].version != d.version
    ensures forall id :: id in after && id !in before ==>
      && Latest(detected + [d], after[id].version).Some?
      && after[id] == RowOf(rt, Latest(detected + [d], after[id].version).value)
      && !HasVersion(before, rt, after[id].version)
  {
  }

  lemma KeepsVersions(rows: Rows, after: Rows, rt: Id, detected: seq<Detected>, d: Detected)
    requires forall id :: id in rows ==>
      id in after && after[id].runtime == rows[id].runtime && after[id].version == rows[id].version
    requires exists id :: id in after && after[id].runtime == rt && after[id].version == d.version
    requires forall i :: 0 <= i < |detected| ==> HasVersion(rows, rt, detected[i].version)
    ensures forall i :: 0 <= i < |detected + [d]| ==> HasVersion(after, rt, (detected + [d])[i].version)
  {
  }

  lemma ReconcileNew(before: Rows, rows: Rows, rt: Id, detected: seq<Detected>, d: Detected, newId: Id)
    requires Reconciled(before, rows, rt, detected) && newId !in rows && !HasVersion(rows, rt, d.version)
    ensures Reconciled(before, rows[newId := RowOf(rt, d)], rt, detected + [d])
  {
    var after := rows[newId := RowOf(rt, d)];
    assert newId in after;
    KeepsVersions(rows, after, rt, detected, d);
    forall id | id in before
      ensures id in after && after[id] == Updated(before[id], rt, detected + [d])
      ensures !(before[id].runtime == rt && before[id].version == d.version)
    {
      assert id in rows;
      UpdatedKeepsKey(before[id], rt, detected);
      LatestAppend(detected, d, before[id].version);
    }
    NewRowsStillNew(before, rows, after, rt, detected, d, newId);
  }

  // ------------------------------------------------------------------------------ properties

  /** A version with a detection has a row afterwards. */
  lemma DetectedHasRow(before: Rows, after: Rows, rt: Id, detected: seq<Detected>, version: string)
    requires Reconciled(before, after, rt, detected) && Latest(detected, version).Some?
    ensures HasVersion(after, rt, version)
  {
    LatestFinds(detected, version);
    var i :| 0 <= i < |detected| && detected[i].version == version;
    assert HasVersion(after, rt, detected[i].version);
  }

  lemma UpdatedKeepsKey(row: Row, rt: Id, detected: seq<Detected>)
    ensures Updated(row, rt, detected).runtime == row.runtime && Updated(row, rt, detected).version == row.version
  {
    LatestFinds(detected, row.version);
  }

  /** After a detection the installed versions of its runtime are exactly the detected ones. */
  lemma InstalledIffDetected(before: Rows, after: Rows, rt: Id, detected: seq<Detected>, version: string)
    requires Reconciled(before, after, rt, detected)
    ensures HasInstalled(after, rt, version) <==> exists i :: 0 <= i < |detected| && detected[i].version == version
  {
    LatestFinds(detected, version);
    if HasInstalled(after, rt, version) {
      var id :| id in after && after[id].runtime == rt && after[id].version == version && after[id].status == Installed;
      if id in before {
        UpdatedKeepsKey(before[id], rt, detected);
      }
    }
    if i :| 0 <= i < |detected| && detected[i].version == version {
      assert HasVersion(after, rt, detected[i].version);
      var id :| id in after && after[id].runtime == rt && after[id].version == version;
      if id in before {
        UpdatedKeepsKey(before[id], rt, detected);
      }
      assert after[id].status == Installed;
    }
  }

  /** No row is lost or given to another version, and other runtimes are left alone. */
  lemma NothingIsLost(before: Rows, after: Rows, rt: Id, detected: seq<Detected>, id: Id)
    requires Reconciled(before, after, rt, detected) && id in before
    ensures id in after && after[id].runtime == before[id].runtime && after[id].version == before[id].version
    ensures before[id].runtime != rt ==> after[id] == before[id]
  {
    UpdatedKeepsKey(before[id], rt, detected);
  }

  /** The same detection again changes nothing: no ids are drawn the second time. */
  lemma DetectingAgainChangesNothing(before: Rows, once: Rows, twice: Rows, rt: Id, detected: seq<Detected>)
    requires Reconciled(before, once, rt, detected) && Reconciled(once, twice, rt, detected)
    ensures twice == once
  {
    forall id | id in once
      ensures id in twice && twice[id] == once[id]
    {
      LatestFinds(detected, once[id].version);
      if id in before {
        UpdatedKeepsKey(before[id], rt, detected);
      }
    }
    forall id | id in twice
      ensures id in once
    {
      if Latest(detected, twice[id].version).Some? {
        DetectedHasRow(before, once, rt, detected, twice[id].version);
      }
    }
  }

  /** One detection has one outcome, up to the ids of new rows: every row of one is a row of the other. */
  lemma OutcomeIsDetermined(before: Rows, after: Rows, other: Rows, rt: Id, detected: seq<Detected>, id: Id)
    requires Reconciled(before, after, rt, detected) && Reconciled(before, other, rt, detected) && id in after
    ensures exists twin :: twin in other && other[twin] == after[id]
  {
    if id in before {
      assert id in other && other[id] == after[id];
    } else {
      var version := after[id].version;
      LatestFinds(detected, version);
      DetectedHasRow(before, other, rt, detected, version);
      var twin :| twin in other && other[twin].runtime == rt && other[twin].version == version;
      if twin in before {
        UpdatedKeepsKey(before[twin], rt, detected);
      }
      assert other[twin] == after[id];
    }
  }

  ghost predicate LastMention(detected: seq<Detected>, i: nat) {
    i < |detected| && forall j :: i < j < |detected| ==> detected[j].version != detected[i].version
  }

  lemma {:induction false} LatestIsTheLastMention(detected: seq<Detected>, i: nat)
    requires LastMention(detected, i)
    ensures Latest(detected, detected[i].version) == Some(detected[i])
  {
    if i < |detected| - 1 {
      var init := detected[..|detected| - 1];
      assert init[i] == detected[i] && LastMention(init, i);
      LatestIsTheLastMention(init, i);
    }
  }

  /** The row of a detected version holds what the last detection of that version said. */
  lemma DetectedRow(before: Rows, after: Rows, rt: Id, detected: seq<Detected>, i: nat) returns (id: Id)
    requires Reconciled(before, after, rt, detected) && LastMention(detected, i)
    ensures id in after
    ensures after[id] == Row(rt, detected[i].version, detected[i].path, detected[i].isDefault, Installed)
  {
    LatestIsTheLastMention(detected, i);
    assert HasVersion(after, rt, detected[i].version);
    id :| id in after && after[id].runtime == rt && after[id].version == detected[i].version;
    if id in before {
      UpdatedKeepsKey(before[id], rt, detected);
    }
  }

  /** The row of a version that was not detected goes missing, and keeps its path and default mark. */
  lemma UndetectedRow(before: Rows, after: Rows, rt: Id, detected: seq<Detected>, id: Id)
    requires Reconciled(before, after, rt, detected) && id in before && before[id].runtime == rt
    requires forall i :: 0 <= i < |detected| ==> detected[i].version != before[id].version
    ensures id in after
    ensures after[id] == Row(rt, before[id].version, before[id].path, before[id].isDefault, Missing)
  {
    LatestFinds(detected, before[id].version);
  }

  // -------------------------------------------------------------------------------- defaults

  ghost predicate AtMostOneDefault(rows: Rows, rt: Id) {
    forall a, b :: a in rows && b in rows && rows[a].runtime == rt == rows[b].runtime && rows[a].isDefault
      && rows[b].isDefault
      ==> a == b
  }

  function WithDefault(rows: Rows, rt: Id, version: string): Rows {
    map id | id in rows ::
      if rows[id].runtime == rt then rows[id].(isDefault := rows[id].version == version) else rows[id]
  }

  function ClearDefaults(rows: Rows, rt: Id): Rows {
    map id | id in rows :: if rows[id].runtime == rt then rows[id].(isDefault := false) else rows[id]
  }

  function MarkDefault(rows: Rows, rt: Id, version: string): Rows {
    map id | id in rows ::
      if rows[id].runtime == rt && rows[id].version == version then rows[id].(isDefault := true) else rows[id]
  }

  lemma ClearThenMark(rows: Rows, rt: Id, version: string)
    requires UniqueVersions(rows)
    ensures MarkDefault(ClearDefaults(rows, rt), rt, version) == WithDefault(rows, rt, version)
    ensures UniqueVersions(WithDefault(rows, rt, version))
  {
  }

  /** Setting a default leaves exactly one for its runtime, and changes nothing else. */
  lemma ExactlyOneDefault(rows: Rows, rt: Id, version: string) returns (chosen: Id)
    requires UniqueVersions(rows) && HasVersion(rows, rt, version)
    ensures var after := WithDefault(rows, rt, version);
      && chosen in after && after[chosen].version == version
      && (forall id :: id in after && after[id].runtime == rt ==> (after[id].isDefault <==> id == chosen))
      && after.Keys == rows.Keys
      && (forall id :: id in rows ==> after[id].(isDefault := rows[id].isDefault) == rows[id])
      && (forall id :: id in rows && rows[id].runtime != rt ==> after[id] == rows[id])
  {
    chosen :| chosen in rows && rows[chosen].runtime == rt && rows[chosen].version == version;
  }

  /** A default whose version was not detected: its row goes missing but stays the default. */
  ghost predicate LostDefault(rows: Rows, rt: Id, detected: seq<Detected>, id: Id) {
    id in rows && rows[id].runtime == rt && rows[id].isDefault && Latest(detected, rows[id].version).None?
  }

  /**
   A detection with one default at most keeps one default at most, unless the old default was
   not detected while another version is the detected default.
   */
  lemma OneDefaultAfterDetectionIff(before: Rows, after: Rows, rt: Id, detected: seq<Detected>)
    requires Reconciled(before, after, rt, detected) && AtMostOneDefault(before, rt)
    requires forall i, j :: 0 <= i < j < |detected| ==>
      detected[i].version != detected[j].version && !(detected[i].isDefault && detected[j].isDefault)
    ensures AtMostOneDefault(after, rt) <==>
      !((exists id :: LostDefault(before, rt, detected, id))
        && (exists i :: 0 <= i < |detected| && detected[i].isDefault))
  {
    if lost, i :| LostDefault(before, rt, detected, lost) && 0 <= i < |detected| && detected[i].isDefault {
      assert after[lost].isDefault;
      assert HasVersion(after, rt, detected[i].version);
      var id :| id in after && after[id].runtime == rt && after[id].version == detected[i].version;
      DefaultIfDetected(before, after, rt, detected, id, i);
      LatestFinds(detected, detected[i].version);
      assert id != lost;
    } else {
      forall a, b | a in after && b in after && after[a].runtime == rt == after[b].runtime && after[a].isDefault
        && after[b].isDefault
        ensures a == b
      {
        WhereDefaultsComeFrom(before, after, rt, detected, a);
        WhereDefaultsComeFrom(before, after, rt, detected, b);
      }
    }
  }

  lemma {:induction false} LatestOfDistinct(detected: seq<Detected>, i: nat)
    requires i < |detected|
    requires forall i, j :: 0 <= i < j < |detected| ==> detected[i].version != detected[j].version
    ensures Latest(detected, detected[i].version) == Some(detected[i])
  {
    if i < |detected| - 1 {
      LatestOfDistinct(detected[..|detected| - 1], i);
    }
  }

  lemma DefaultIfDetected(before: Rows, after: Rows, rt: Id, detected: seq<Detected>, id: Id, i: nat)
    requires Reconciled(before, after, rt, detected) && i < |detected|
    requires forall i, j :: 0 <= i < j < |detected| ==> detected[i].version != detected[j].version
    requires id in after && after[id].runtime == rt && after[id].version == detected[i].version
    ensures after[id] == RowOf(rt, detected[i])
  {
    LatestOfDistinct(detected, i);
    if id in before {
      UpdatedKeepsKey(before[id], rt, detected);
    }
  }

  lemma WhereDefaultsComeFrom(before: Rows, after: Rows, rt: Id, detected: seq<Detected>, id: Id)
    requires Reconciled(before, after, rt, detected)
    requires id in after && after[id].runtime == rt && after[id].isDefault
    ensures LostDefault(before, rt, detected, id) ||
      exists i :: 0 <= i < |detected| && detected[i].isDefault && detected[i].version == after[id].version
  {
    LatestFinds(detected, after[id].version);
    if id in before {
      UpdatedKeepsKey(before[id], rt, detected);
    }
    if Latest(detected, after[id].version).Some? {
      var i :| 0 <= i < |detected| && detected[i] == Latest(detected, after[id].version).value;
      assert detected[i].isDefault;
    }
  }

  /** The default 18 is gone and 20 is the detected default: afterwards both rows are defaults. */
  lemma LostDefaultExample(rt: Id, a: Id, b: Id, path: string)
    requires a != b
    ensures var before: Rows := map[a := Row(rt, "18", path, true, Installed)];
      var detected := [Detected("20", path, true)];
      var after := before[a := Row(rt, "18", path, true, Missing)][b := Row(rt, "20", path, true, Installed)];
      Reconciled(before, after, rt, detected) && AtMostOneDefault(before, rt) && !AtMostOneDefault(after, rt)
  {
    var before: Rows := map[a := Row(rt, "18", path, true, Installed)];
    var detected := [Detected("20", path, true)];
    var after := before[a := Row(rt, "18", path, true, Missing)][b := Row(rt, "20", path, true, Installed)];
    assert Latest(detected, "20") == Some(detected[0]);
    assert detected[..0] == [];
    assert "18" != "20" by {
      assert "18"[0] != "20"[0];
    }
    assert Latest(detected, "18") == None;
    assert HasVersion(after, rt, "20") by {
      assert b in after;
    }
    assert a in after && b in after;
  }
}
