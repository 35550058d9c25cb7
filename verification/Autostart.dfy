/** StartAutostart (internal/domain/service/manager.go): dependency order, one attempt each. */
module Autostart {
  import opened Seqs
  import opened Services
  import Topo

  /** What the outside world answers while the services are started. */
  datatype World = World(cancelled: nat -> bool, running: Id -> bool, starts: Id -> bool)

  datatype Event = SeenRunning(id: Id) | Attempted(svc: Service, ok: bool)

  datatype Outcome = Done | Cancelled | Cycle(stuck: seq<Id>)

  function EventId(e: Event): Id {
    match e
    case SeenRunning(id) => id
    case Attempted(svc, _) => svc.id
  }

  function EventIds(log: seq<Event>): (ids: seq<Id>)
    ensures |ids| == |log| && forall i :: 0 <= i < |log| ==> ids[i] == EventId(log[i])
  {
    seq(|log|, i requires 0 <= i < |log| => EventId(log[i]))
  }

  /** services.id is a primary key. */
  ghost predicate DistinctRecords(records: seq<Record>) {
    forall i, j :: 0 <= i < j < |records| ==> records[i].id != records[j].id
  }

  function Wanted(records: seq<Record>): seq<Service> {
    if records == [] then []
    else
      var last := records[|records| - 1];
      Wanted(records[..|records| - 1]) + if last.autostart then [FromRecord(last)] else []
  }

  /** The positions of the rows marked for autostart, in order. */
  ghost function Marked(records: seq<Record>): seq<nat> {
    if records == [] then []
    else
      var last := |records| - 1;
      Marked(records[..last]) + if records[last].autostart then [last] else []
  }

  ghost predicate AscendingMarks(idx: seq<nat>, records: seq<Record>) {
    && (forall k :: 0 <= k < |idx| ==> idx[k] < |records| && records[idx[k]].autostart)
    && (forall k, m :: 0 <= k < m < |idx| ==> idx[k] < idx[m])
  }

  lemma {:induction false} MarkedAscend(records: seq<Record>)
    ensures AscendingMarks(Marked(records), records)
  {
    if records == [] {
    } else {
      var last := |records| - 1;
      var before := Marked(records[..last]);
      MarkedAscend(records[..last]);
      OneMoreMark(records, before);
    }
  }

  lemma OneMoreMark(records: seq<Record>, before: seq<nat>)
    requires records != [] && AscendingMarks(before, records[..|records| - 1])
    ensures AscendingMarks(before, records)
    ensures records[|records| - 1].autostart ==> AscendingMarks(before + [|records| - 1], records)
  {
    var last := |records| - 1;
    forall k | 0 <= k < |before|
      ensures before[k] < last && records[before[k]].autostart
    {
      assert records[..last][before[k]] == records[before[k]];
    }
  }

  lemma {:induction false} MarkedHasAll(records: seq<Record>, i: nat) returns (k: nat)
    requires i < |records| && records[i].autostart
    ensures k < |Marked(records)| && Marked(records)[k] == i
  {
    var last := |records| - 1;
    if i < last {
      k := MarkedHasAll(records[..last], i);
    } else {
      k := |Marked(records[..last])|;
    }
  }

  lemma {:induction false} WantedAreMarked(records: seq<Record>)
    ensures |Wanted(records)| == |Marked(records)|
    ensures forall k :: 0 <= k < |Marked(records)| ==>
      Marked(records)[k] < |records| && Wanted(records)[k] == FromRecord(records[Marked(records)[k]])
  {
    if records == [] {
    } else {
      var last := |records| - 1;
      WantedAreMarked(records[..last]);
      forall k | 0 <= k < |Marked(records)|
        ensures Marked(records)[k] < |records| && Wanted(records)[k] == FromRecord(records[Marked(records)[k]])
      {
        if k < |Marked(records[..last])| {
          assert records[..last][Marked(records)[k]] == records[Marked(records)[k]];
        }
      }
    }
  }

  function Nodes(services: seq<Service>): (nodes: seq<Topo.Node>)
    ensures |nodes| == |services|
    ensures forall i :: 0 <= i < |nodes| ==> nodes[i] == Topo.Node(services[i].id, services[i].dependsOn)
  {
    seq(|services|, i requires 0 <= i < |services| => Topo.Node(services[i].id, services[i].dependsOn))
  }

  /** The services are the rows marked for autostart, in row order: service k comes from row idx[k]. */
  ghost predicate Selects(idx: seq<nat>, records: seq<Record>, services: seq<Service>) {
    && |idx| == |services|
    && (forall k :: 0 <= k < |idx| ==>
          idx[k] < |records| && records[idx[k]].autostart && services[k] == FromRecord(records[idx[k]]))
    && (forall k, m :: 0 <= k < m < |idx| ==> idx[k] < idx[m])
    && (forall i :: 0 <= i < |records| && records[i].autostart ==> exists k :: 0 <= k < |idx| && idx[k] == i)
  }

  lemma WantedSelects(records: seq<Record>)
    ensures Selects(Marked(records), records, Wanted(records))
  {
    WantedAreMarked(records);
    MarkedAscend(records);
    forall i | 0 <= i < |records| && records[i].autostart
      ensures exists k :: 0 <= k < |Marked(records)| && Marked(records)[k] == i
    {
      var k := MarkedHasAll(records, i);
    }
  }

  lemma WantedAt(records: seq<Record>, k: nat) returns (i: nat)
    requires k < |Wanted(records)|
    ensures k < |Marked(records)| && i == Marked(records)[k]
    ensures i < |records| && records[i].autostart && Wanted(records)[k] == FromRecord(records[i])
    ensures Nodes(Wanted(records))[k] == Topo.Node(records[i].id, records[i].dependsOn)
  {
    WantedAreMarked(records);
    MarkedAscend(records);
    i := Marked(records)[k];
  }

  lemma WantedAreDistinct(records: seq<Record>)
    requires DistinctRecords(records)
    ensures Topo.DistinctIds(Nodes(Wanted(records)))
  {
    var nodes := Nodes(Wanted(records));
    WantedAreMarked(records);
    MarkedAscend(records);
    forall k, m | 0 <= k < m < |nodes|
      ensures nodes[k].id != nodes[m].id
    {
      var i := WantedAt(records, k);
      var j := WantedAt(records, m);
    }
  }

  ghost predicate HasMarked(records: seq<Record>, id: Id) {
    exists i :: 0 <= i < |records| && records[i].autostart && records[i].id == id
  }

  /** The graph of the rows marked for autostart: each id with its dependencies. */
  ghost function RowGraph(records: seq<Record>): (g: Topo.Graph)
    requires DistinctRecords(records)
    ensures forall x :: x in g <==> HasMarked(records, x)
    ensures forall i :: 0 <= i < |records| && records[i].autostart ==>
      records[i].id in g && g[records[i].id] == records[i].dependsOn
  {
    GraphOfRows(records);
    Topo.GraphOf(Nodes(Wanted(records)))
  }

  lemma GraphOfRows(records: seq<Record>)
    requires DistinctRecords(records)
    ensures var g := Topo.GraphOf(Nodes(Wanted(records)));
      && (forall x :: x in g <==> HasMarked(records, x))
      && (forall i :: 0 <= i < |records| && records[i].autostart ==>
            records[i].id in g && g[records[i].id] == records[i].dependsOn)
  {
    var nodes := Nodes(Wanted(records));
    WantedAreDistinct(records);
    WantedAreMarked(records);
    Topo.GraphAt(nodes);
    forall x | x in Topo.GraphOf(nodes)
      ensures HasMarked(records, x)
    {
      assert x in Elements(Topo.Ids(nodes));
      var k :| 0 <= k < |nodes| && Topo.Ids(nodes)[k] == x;
      var i := WantedAt(records, k);
    }
    forall i | 0 <= i < |records| && records[i].autostart
      ensures records[i].id in Topo.GraphOf(nodes)
      ensures Topo.GraphOf(nodes)[records[i].id] == records[i].dependsOn
    {
      var k := MarkedHasAll(records, i);
      var same := WantedAt(records, k);
    }
  }

  /** A log entry tells what the world said, about the service as its row describes it. */
  predicate Reports(e: Event, id: Id, services: map<Id, Service>, w: World) {
    id in services && e == if w.running(id) then SeenRunning(id) else Attempted(services[id], w.starts(id))
  }

  ghost predicate Follows(log: seq<Event>, order: seq<Id>, services: map<Id, Service>, w: World) {
    |log| <= |order| && forall i :: 0 <= i < |log| ==>
      Reports(log[i], order[i], services, w) && EventId(log[i]) == order[i]
  }

  /** byId holds the first i services under their ids, and nothing else. */
  ghost predicate Indexed(services: seq<Service>, i: nat, byId: map<Id, Service>) {
    && i <= |services| == |Topo.Ids(Nodes(services))|
    && byId.Keys == Elements(Topo.Ids(Nodes(services))[..i])
    && forall k :: 0 <= k < i ==> services[k].id in byId && byId[services[k].id] == services[k]
  }

  lemma IndexStep(services: seq<Service>, i: nat, byId: map<Id, Service>)
    requires Topo.DistinctIds(Nodes(services)) && i < |services| && Indexed(services, i, byId)
    ensures Indexed(services, i + 1, byId[services[i].id := services[i]])
  {
    var nodes, ids := Nodes(services), Topo.Ids(Nodes(services));
    assert ids[..i + 1] == ids[..i] + [services[i].id];
    ElementsAppend(ids[..i], services[i].id);
    forall k | 0 <= k < i
      ensures services[k].id != services[i].id
    {
      assert nodes[k].id != nodes[i].id;
    }
  }

  lemma IndexDone(services: seq<Service>, byId: map<Id, Service>)
    requires Topo.DistinctIds(Nodes(services)) && Indexed(services, |services|, byId)
    ensures byId.Keys == Topo.GraphOf(Nodes(services)).Keys
  {
    var ids := Topo.Ids(Nodes(services));
    assert ids[..|services|] == ids;
    Topo.GraphAt(Nodes(services));
  }

  method IndexById(services: seq<Service>) returns (byId: map<Id, Service>)
    requires Topo.DistinctIds(Nodes(services))
    ensures byId.Keys == Topo.GraphOf(Nodes(services)).Keys
    ensures forall i :: 0 <= i < |services| ==> services[i].id in byId && byId[services[i].id] == services[i]
  {
    byId := map[];
    for i := 0 to |services|
      invariant Indexed(services, i, byId)
    {
      IndexStep(services, i, byId);
      byId := byId[services[i].id := services[i]];
    }
    IndexDone(services, byId);
  }

  /** Goes through the order, skipping what runs and shrugging off what does not start. */
  method StartInOrder(order: seq<Id>, byId: map<Id, Service>, w: World) returns (log: seq<Event>, outcome: Outcome)
    requires forall i :: 0 <= i < |order| ==> order[i] in byId && byId[order[i]].id == order[i]
    ensures Follows(log, order, byId, w)
    ensures outcome == Done || outcome == Cancelled
    ensures outcome == Done ==> |log| == |order|
    ensures outcome == Cancelled ==> w.cancelled(|log|)
    ensures forall k :: 0 <= k < |log| ==> !w.cancelled(k)
  {
    log := [];
    for i := 0 to |order|
      invariant |log| == i && Follows(log, order, byId, w)
      invariant forall k :: 0 <= k < i ==> !w.cancelled(k)
    {
      if w.cancelled(i) {
        return log, Cancelled;
      }
      var id := order[i];
      if w.running(id) {
        log := log + [SeenRunning(id)];
        continue;
      }
      log := log + [Attempted(byId[id], w.starts(id))];
    }
    return log, Done;
  }

  method SelectWanted(records: seq<Record>) returns (autostart: seq<Service>)
    ensures autostart == Wanted(records)
    ensures exists idx :: Selects(idx, records, autostart)
  {
    autostart := [];
    for i := 0 to |records|
      invariant autostart == Wanted(records[..i])
    {
      assert records[..i + 1][..i] == records[..i];
      if !records[i].autostart {
        continue;
      }
      autostart := autostart + [FromRecord(records[i])];
    }
    assert records[..|records|] == records;
    WantedSelects(records);
  }

  /** A log entry about row r: seen running, or attempted as the service the row describes. */
  predicate AboutRow(e: Event, r: Record, w: World) {
    r.autostart && e == if w.running(r.id) then SeenRunning(r.id) else Attempted(FromRecord(r), w.starts(r.id))
  }

  ghost predicate AboutSomeRow(e: Event, records: seq<Record>, w: World) {
    exists i :: 0 <= i < |records| && AboutRow(e, records[i], w)
  }

  /** Row i names row j, which is marked for autostart too, as a dependency. */
  predicate Needs(records: seq<Record>, i: int, j: int) {
    0 <= i < |records| && 0 <= j < |records| && records[j].autostart && records[j].id in records[i].dependsOn
  }

  /** The service `id` was handled before entry k. */
  ghost predicate HandledBefore(log: seq<Event>, k: nat, id: Id) {
    exists m :: 0 <= m < k && m < |log| && EventId(log[m]) == id
  }

  /**
   Nothing is started when the dependencies of the autostart services loop; the outcome then
   names, in row order, the rows that lead into a cycle. Otherwise each row marked for autostart
   is handled at most once, and only after all its autostart dependencies were.
   */
  method StartAutostart(records: seq<Record>, w: World) returns (log: seq<Event>, outcome: Outcome)
    requires DistinctRecords(records)
    ensures outcome.Cycle? <==> Topo.Cyclic(RowGraph(records))
    ensures outcome.Cycle? ==> log == [] && Distinct(outcome.stuck)
    ensures outcome.Cycle? ==> forall x ::
      x in outcome.stuck <==> x in RowGraph(records) && Topo.ReachesCycle(RowGraph(records), x)
    ensures outcome.Cycle? ==> InRowOrder(records, outcome.stuck)
    ensures Distinct(EventIds(log))
    ensures forall k :: 0 <= k < |log| ==> AboutSomeRow(log[k], records, w)
    ensures forall k, i, j :: 0 <= k < |log| && Needs(records, i, j) && records[i].id == EventId(log[k]) ==>
      HandledBefore(log, k, records[j].id)
    ensures outcome == Done ==>
      forall i :: 0 <= i < |records| && records[i].autostart ==> HandledBefore(log, |log|, records[i].id)
    ensures outcome == Cancelled ==> w.cancelled(|log|)
    ensures forall k :: 0 <= k < |log| ==> !w.cancelled(k)
  {
    var autostart, sorted := SortWanted(records);
    if sorted.Stuck? {
      return [], Cycle(sorted.ids);
    }
    log, outcome := StartWanted(records, autostart, sorted.order, w);
    LogInRows(records, sorted.order, log, outcome);
  }

  ghost predicate OrdersRows(records: seq<Record>, order: seq<Id>)
    requires DistinctRecords(records)
  {
    Elements(order) == RowGraph(records).Keys && Distinct(order) && Topo.DependenciesFirst(RowGraph(records), order)
  }

  method SortWanted(records: seq<Record>) returns (autostart: seq<Service>, sorted: Topo.SortResult)
    requires DistinctRecords(records)
    ensures autostart == Wanted(records)
    ensures sorted.Stuck? <==> Topo.Cyclic(RowGraph(records))
    ensures sorted.Stuck? ==> Distinct(sorted.ids) && InRowOrder(records, sorted.ids)
    ensures sorted.Stuck? ==> forall x ::
      x in sorted.ids <==> x in RowGraph(records) && Topo.ReachesCycle(RowGraph(records), x)
    ensures sorted.Ordered? ==> OrdersRows(records, sorted.order)
  {
    autostart := SelectWanted(records);
    WantedAreDistinct(records);
    sorted := Topo.Sort(Nodes(autostart));
    if sorted.Stuck? {
      AscendingRows(records, sorted.ids);
    }
  }

  method StartWanted(records: seq<Record>, autostart: seq<Service>, order: seq<Id>, w: World)
    returns (log: seq<Event>, outcome: Outcome)
    requires DistinctRecords(records) && autostart == Wanted(records) && OrdersRows(records, order)
    ensures |log| <= |order| && forall k :: 0 <= k < |log| ==> EventId(log[k]) == order[k]
    ensures forall k :: 0 <= k < |log| ==> AboutSomeRow(log[k], records, w)
    ensures outcome == Done || outcome == Cancelled
    ensures outcome == Done ==> |log| == |order|
    ensures outcome == Cancelled ==> w.cancelled(|log|)
    ensures forall k :: 0 <= k < |log| ==> !w.cancelled(k)
  {
    WantedAreDistinct(records);
    var byId := IndexById(autostart);
    OrderIsIndexed(autostart, order, byId);
    log, outcome := StartInOrder(order, byId, w);
    EntriesAboutRows(records, order, byId, w, log);
  }

  lemma LogInRows(records: seq<Record>, order: seq<Id>, log: seq<Event>, outcome: Outcome)
    requires DistinctRecords(records)
    requires OrdersRows(records, order)
    requires |log| <= |order| && forall k :: 0 <= k < |log| ==> EventId(log[k]) == order[k]
    requires outcome == Done ==> |log| == |order|
    ensures Distinct(EventIds(log))
    ensures forall k, i, j :: 0 <= k < |log| && Needs(records, i, j) && records[i].id == EventId(log[k]) ==>
      HandledBefore(log, k, records[j].id)
    ensures outcome == Done ==>
      forall i :: 0 <= i < |records| && records[i].autostart ==> HandledBefore(log, |log|, records[i].id)
  {
    var g := RowGraph(records);
    assert EventIds(log) == order[..|log|];
    PrefixKeepsOrder(g, order, |log|);
    forall k | 0 <= k < |log|
      ensures EventId(log[k]) in g
    {
      assert order[k] in Elements(order);
    }
    DependenciesHandled(records, log);
    AllRowsHandled(records, log, outcome);
  }

  predicate IsRow(records: seq<Record>, i: int, id: Id) {
    0 <= i < |records| && records[i].id == id
  }

  /** The ids stand in the order of their rows. */
  ghost predicate InRowOrder(records: seq<Record>, ids: seq<Id>) {
    forall k, m, i, j :: 0 <= k < m < |ids| && IsRow(records, i, ids[k]) && IsRow(records, j, ids[m]) ==> i < j
  }

  lemma AscendingRows(records: seq<Record>, ids: seq<Id>)
    requires DistinctRecords(records)
    requires forall x :: x in ids ==> x in Topo.GraphOf(Nodes(Wanted(records)))
    requires var all := Topo.Ids(Nodes(Wanted(records)));
      forall k, m :: 0 <= k < m < |ids| ==> Topo.Position(all, ids[k]) < Topo.Position(all, ids[m])
    ensures InRowOrder(records, ids)
  {
    var nodes := Nodes(Wanted(records));
    var all := Topo.Ids(nodes);
    WantedAreDistinct(records);
    Topo.GraphAt(nodes);
    MarkedAscend(records);
    WantedAreMarked(records);
    forall k, m, i, j | 0 <= k < m < |ids| && IsRow(records, i, ids[k]) && IsRow(records, j, ids[m])
      ensures i < j
    {
      assert ids[k] in ids && ids[m] in ids;
      assert ids[k] in Elements(all) && ids[m] in Elements(all);
      var a := WantedAt(records, Topo.Position(all, ids[k]));
      var b := WantedAt(records, Topo.Position(all, ids[m]));
      assert a == i && b == j;
    }
  }

  lemma EntriesAboutRows(records: seq<Record>, order: seq<Id>, byId: map<Id, Service>, w: World, log: seq<Event>)
    requires Follows(log, order, byId, w)
    requires forall i :: 0 <= i < |order| ==>
      order[i] in byId && byId[order[i]].id == order[i] && byId[order[i]] in Wanted(records)
    ensures forall k :: 0 <= k < |log| ==> AboutSomeRow(log[k], records, w)
  {
    forall k | 0 <= k < |log|
      ensures AboutSomeRow(log[k], records, w)
    {
      assert Reports(log[k], order[k], byId, w);
      var p :| 0 <= p < |Wanted(records)| && Wanted(records)[p] == byId[order[k]];
      var i := WantedAt(records, p);
      assert AboutRow(log[k], records[i], w);
    }
  }

  lemma DependenciesHandled(records: seq<Record>, log: seq<Event>)
    requires DistinctRecords(records)
    requires Topo.DependenciesFirst(RowGraph(records), EventIds(log))
    requires forall k :: 0 <= k < |log| ==> EventId(log[k]) in RowGraph(records)
    ensures forall k, i, j :: 0 <= k < |log| && Needs(records, i, j) && records[i].id == EventId(log[k]) ==>
      HandledBefore(log, k, records[j].id)
  {
    var ids := EventIds(log);
    forall k, i, j | 0 <= k < |log| && Needs(records, i, j) && records[i].id == EventId(log[k])
      ensures HandledBefore(log, k, records[j].id)
    {
      assert records[i].autostart;
      assert Topo.Edge(RowGraph(records), ids[k], records[j].id);
      var m :| 0 <= m < k && ids[..k][m] == records[j].id;
      assert EventId(log[m]) == records[j].id;
    }
  }

  lemma AllRowsHandled(records: seq<Record>, log: seq<Event>, outcome: Outcome)
    requires DistinctRecords(records)
    requires outcome == Done ==> Elements(EventIds(log)) == RowGraph(records).Keys
    ensures outcome == Done ==>
      forall i :: 0 <= i < |records| && records[i].autostart ==> HandledBefore(log, |log|, records[i].id)
  {
    if outcome == Done {
      forall i | 0 <= i < |records| && records[i].autostart
        ensures HandledBefore(log, |log|, records[i].id)
      {
        assert records[i].id in Elements(EventIds(log));
        var m :| 0 <= m < |log| && EventIds(log)[m] == records[i].id;
        assert EventId(log[m]) == records[i].id;
      }
    }
  }

  lemma OrderIsIndexed(services: seq<Service>, order: seq<Id>, byId: map<Id, Service>)
    requires byId.Keys == Topo.GraphOf(Nodes(services)).Keys == Elements(order)
    requires Topo.DistinctIds(Nodes(services))
    requires forall i :: 0 <= i < |services| ==> services[i].id in byId && byId[services[i].id] == services[i]
    ensures forall i :: 0 <= i < |order| ==>
      order[i] in byId && byId[order[i]].id == order[i] && byId[order[i]] in services
  {
    Topo.GraphAt(Nodes(services));
    forall i | 0 <= i < |order|
      ensures order[i] in byId && byId[order[i]].id == order[i] && byId[order[i]] in services
    {
      assert order[i] in Elements(order);
      var k :| 0 <= k < |services| && Topo.Ids(Nodes(services))[k] == order[i];
    }
  }

  lemma PrefixKeepsOrder(g: Topo.Graph, order: seq<Id>, n: nat)
    requires n <= |order| && Distinct(order) && Topo.DependenciesFirst(g, order)
    ensures Distinct(order[..n]) && Topo.DependenciesFirst(g, order[..n])
    ensures Elements(order[..n]) <= Elements(order)
    ensures n == |order| ==> order[..n] == order
  {
  }
}
