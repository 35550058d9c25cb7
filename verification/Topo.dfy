/**
 Dependency ordering of services (internal/domain/service/topo.go): Kahn's algorithm
 with a first-in-first-out queue and a report of the services left over.
 */
module Topo {
  import opened Seqs

  type Id(==, !new, 0)

  datatype Node = Node(id: Id, dependsOn: seq<Id>)

  datatype SortResult = Ordered(order: seq<Id>) | Stuck(ids: seq<Id>)

  /** services.id is a primary key, so callers hand over distinct ids. */
  ghost predicate DistinctIds(nodes: seq<Node>) {
    forall i, j :: 0 <= i < j < |nodes| ==> nodes[i].id != nodes[j].id
  }

  function Ids(nodes: seq<Node>): (r: seq<Id>)
    ensures |r| == |nodes| && forall i :: 0 <= i < |r| ==> r[i] == nodes[i].id
  {
    seq(|nodes|, i requires 0 <= i < |nodes| => nodes[i].id)
  }

  // ---------------------------------------------------------------- the graph

  type Graph = map<Id, seq<Id>>

  ghost function GraphOf(nodes: seq<Node>): Graph {
    if nodes == [] then map[]
    else
      var last := nodes[|nodes| - 1];
      GraphOf(nodes[..|nodes| - 1])[last.id := last.dependsOn]
  }

  lemma {:induction false} GraphAt(nodes: seq<Node>)
    requires DistinctIds(nodes)
    ensures GraphOf(nodes).Keys == Elements(Ids(nodes))
    ensures forall i :: 0 <= i < |nodes| ==>
      nodes[i].id in GraphOf(nodes) && GraphOf(nodes)[nodes[i].id] == nodes[i].dependsOn
  {
    if nodes == [] {
    } else {
      var init := nodes[..|nodes| - 1];
      GraphAt(init);
      assert Ids(nodes) == Ids(init) + [nodes[|nodes| - 1].id];
      ElementsAppend(Ids(init), nodes[|nodes| - 1].id);
      forall i | 0 <= i < |nodes|
        ensures nodes[i].id in GraphOf(nodes) && GraphOf(nodes)[nodes[i].id] == nodes[i].dependsOn
      {
        if i < |init| { assert init[i] == nodes[i]; }
      }
    }
  }

  /** a depends on b, and b takes part in the ordering; other dependencies are ignored. */
  ghost predicate Edge(g: Graph, a: Id, b: Id) {
    a in g && b in g[a] && b in g
  }

  ghost predicate Path(g: Graph, p: seq<Id>) {
    p != [] && p[0] in g && forall i :: 0 <= i < |p| - 1 ==> Edge(g, p[i], p[i + 1])
  }

  ghost predicate Cycle(g: Graph, c: seq<Id>) {
    |c| >= 2 && Path(g, c) && c[0] == c[|c| - 1]
  }

  ghost predicate Cyclic(g: Graph) {
    exists c :: Cycle(g, c)
  }

  /** Following dependencies from x one can arrive on a cycle. */
  ghost predicate ReachesCycle(g: Graph, x: Id) {
    exists p, c :: Path(g, p) && p[0] == x && Cycle(g, c) && p[|p| - 1] == c[0]
  }

  /** There is a chain of k dependencies starting at x. */
  ghost predicate HasChain(g: Graph, x: Id, k: nat)
    decreases k
  {
    x in g && (k == 0 || exists d :: Edge(g, x, d) && HasChain(g, d, k - 1))
  }

  /** The longest dependency chain of a is no longer than that of b. */
  ghost predicate Shallower(g: Graph, a: Id, b: Id) {
    forall k: nat :: HasChain(g, a, k) ==> HasChain(g, b, k)
  }

  ghost predicate Layered(g: Graph, s: seq<Id>) {
    forall i, j :: 0 <= i < j < |s| ==> Shallower(g, s[i], s[j])
  }

  ghost predicate DependenciesFirst(g: Graph, s: seq<Id>) {
    forall i, d {:trigger Edge(g, s[i], d)} :: 0 <= i < |s| && Edge(g, s[i], d) ==> d in s[..i]
  }

  // ------------------------------------------------- cycles and what is left over

  ghost predicate DependsInto(g: Graph, x: Id, u: set<Id>) {
    exists d :: d in u && Edge(g, x, d)
  }

  /** Every member of u depends on a member of u. */
  ghost predicate Entangled(g: Graph, u: set<Id>) {
    u <= g.Keys && forall x {:trigger DependsInto(g, x, u)} :: x in u ==> DependsInto(g, x, u)
  }

  lemma PathSlice(g: Graph, p: seq<Id>, i: nat, j: nat)
    requires Path(g, p) && i < j <= |p|
    ensures Path(g, p[i..j])
  {
    assert i > 0 ==> Edge(g, p[i - 1], p[i]);
    forall k | 0 <= k < |p[i..j]| - 1 ensures Edge(g, p[i..j][k], p[i..j][k + 1]) {
      assert Edge(g, p[i + k], p[i + k + 1]);
    }
  }

  /** From x one can walk n dependencies without leaving a set in which nobody is done. */
  lemma {:induction false} Walk(g: Graph, u: set<Id>, x: Id, n: nat) returns (p: seq<Id>)
    requires Entangled(g, u) && x in u
    ensures |p| == n + 1 && p[0] == x && Path(g, p) && Elements(p) <= u
    decreases n
  {
    if n == 0 {
      p := [x];
    } else {
      assert DependsInto(g, x, u);
      var d :| d in u && Edge(g, x, d);
      var rest := Walk(g, u, d, n - 1);
      p := [x] + rest;
    }
  }

  /** A set in which every member depends on another member holds a cycle for each to reach. */
  lemma LeftoverReachesCycle(g: Graph, u: set<Id>, x: Id)
    requires Entangled(g, u) && x in u
    ensures ReachesCycle(g, x)
  {
    var p := Walk(g, u, x, |u|);
    var i, j := Pigeonhole(p, u);
    var lead, loop := p[..i + 1], p[i..j + 1];
    PathSlice(g, p, 0, i + 1);
    PathSlice(g, p, i, j + 1);
    assert lead == p[0..i + 1];
    assert Cycle(g, loop);
    assert lead[|lead| - 1] == loop[0];
  }

  /** Inside an order that puts dependencies first, every path runs strictly backwards. */
  lemma {:induction false} PathRunsBackwards(g: Graph, order: seq<Id>, p: seq<Id>, i: nat)
    requires DependenciesFirst(g, order) && Path(g, p) && i < |order| && p[0] == order[i]
    ensures p[|p| - 1] in order[..i + 1]
    ensures |p| >= 2 ==> p[|p| - 1] in order[..i]
  {
    if |p| >= 2 {
      assert Edge(g, p[0], p[1]);
      var j :| 0 <= j < i && order[j] == p[1];
      PathSlice(g, p, 1, |p|);
      PathRunsBackwards(g, order, p[1..], j);
      assert p[|p| - 1] == p[1..][|p| - 2];
    }
  }

  lemma OrderedReachesNoCycle(g: Graph, order: seq<Id>, x: Id)
    requires DependenciesFirst(g, order) && Distinct(order) && x in order
    ensures !ReachesCycle(g, x)
  {
    forall p, c | Path(g, p) && p[0] == x && Cycle(g, c) && p[|p| - 1] == c[0] ensures false {
      var i :| 0 <= i < |order| && order[i] == x;
      PathRunsBackwards(g, order, p, i);
      var j :| 0 <= j < |order| && order[j] == c[0];
      PathRunsBackwards(g, order, c, j);
    }
  }

  // ---------------------------------------------------------------- counting

  /** How many entries of deps (repeats counted) lie in s. */
  ghost function CountIn(deps: seq<Id>, s: set<Id>): (n: nat) {
    if deps == [] then 0
    else CountIn(deps[..|deps| - 1], s) + (if deps[|deps| - 1] in s then 1 else 0)
  }

  lemma {:induction false} CountInZero(deps: seq<Id>, s: set<Id>)
    ensures CountIn(deps, s) == 0 <==> forall d :: d in deps ==> d !in s
  {
    if deps == [] {
    } else {
      var init := deps[..|deps| - 1];
      CountInZero(init, s);
      assert deps == init + [deps[|deps| - 1]];
    }
  }

  lemma {:induction false} CountInRemove(deps: seq<Id>, s: set<Id>, d: Id)
    requires d in s
    ensures CountIn(deps, s) == CountIn(deps, s - {d}) + multiset(deps)[d]
  {
    if deps == [] {
    } else {
      var init := deps[..|deps| - 1];
      CountInRemove(init, s, d);
      assert deps == init + [deps[|deps| - 1]];
    }
  }

  // ---------------------------------------------------- what the order looks like

  /** The last position of order holding an entry of deps, or -1. */
  function LastDependency(order: seq<Id>, deps: seq<Id>): (p: int)
    ensures -1 <= p < |order|
    ensures p >= 0 ==> order[p] in deps
    ensures forall q :: p < q < |order| ==> order[q] !in deps
  {
    if order == [] then -1
    else if order[|order| - 1] in deps then |order| - 1
    else LastDependency(order[..|order| - 1], deps)
  }

  function Position(ids: seq<Id>, x: Id): (p: nat)
    ensures p <= |ids|
    ensures x in ids ==> p < |ids| && ids[p] == x
  {
    if ids == [] then 0 else if ids[0] == x then 0 else 1 + Position(ids[1..], x)
  }

  /** a was released earlier than b: by an earlier service, or by the same one and a stands first in the input. */
  ghost predicate ReleasedBefore(g: Graph, ids: seq<Id>, order: seq<Id>, a: Id, b: Id)
    requires a in g && b in g
  {
    var p, q := LastDependency(order, g[a]), LastDependency(order, g[b]);
    p < q || (p == q && Position(ids, a) < Position(ids, b))
  }

  ghost predicate FirstInFirstOut(g: Graph, ids: seq<Id>, order: seq<Id>, s: seq<Id>) {
    (forall i {:trigger s[i] in g} :: 0 <= i < |s| ==> s[i] in g)
    && forall i, j {:trigger ReleasedBefore(g, ids, order, s[i], s[j])} :: 0 <= i < j < |s| ==>
      ReleasedBefore(g, ids, order, s[i], s[j])
  }

  /** The order the algorithm promises: each service once, dependencies first, ties by release. */
  ghost predicate KahnOrder(nodes: seq<Node>, order: seq<Id>) {
    var g := GraphOf(nodes);
    && Distinct(order) && Elements(order) == g.Keys
    && DependenciesFirst(g, order)
    && FirstInFirstOut(g, Ids(nodes), order, order)
  }

  // ---------------------------------------------------------------- the algorithm

  function Dependents(m: map<Id, seq<Id>>, d: Id): seq<Id> {
    if d in m then m[d] else []
  }

  ghost function Repeat(x: Id, n: nat): seq<Id> {
    seq(n, _ => x)
  }

  /** Who waits for d, in input order, once for each time d is listed. */
  ghost function WaitList(nodes: seq<Node>, d: Id): seq<Id> {
    if nodes == [] then []
    else
      var last := nodes[|nodes| - 1];
      WaitList(nodes[..|nodes| - 1], d) + Repeat(last.id, multiset(last.dependsOn)[d])
  }

  ghost predicate Counted(nodes: seq<Node>, inDegree: map<Id, int>, dependents: map<Id, seq<Id>>) {
    var g := GraphOf(nodes);
    && inDegree.Keys == g.Keys
    && (forall x :: x in g ==> inDegree[x] == CountIn(g[x], g.Keys))
    && (forall d :: d in g ==> Dependents(dependents, d) == WaitList(nodes, d))
  }

  /** The degrees once the services in before are counted, starting from zero. */
  ghost function Degrees(before: seq<Node>, zero: map<Id, int>, present: set<Id>): map<Id, int> {
    if before == [] then zero
    else
      var last := before[|before| - 1];
      Degrees(before[..|before| - 1], zero, present)[last.id := CountIn(last.dependsOn, present)]
  }

  lemma {:induction false} DegreesAt(before: seq<Node>, zero: map<Id, int>, present: set<Id>)
    requires DistinctIds(before)
    ensures Degrees(before, zero, present).Keys == zero.Keys + GraphOf(before).Keys
    ensures forall x :: x in zero && x !in GraphOf(before) ==> Degrees(before, zero, present)[x] == zero[x]
    ensures forall x :: x in GraphOf(before) ==>
      Degrees(before, zero, present)[x] == CountIn(GraphOf(before)[x], present)
  {
    if before == [] {
    } else {
      DegreesAt(before[..|before| - 1], zero, present);
    }
  }

  lemma DistinctAppend(before: seq<Node>, n: Node)
    requires DistinctIds(before + [n])
    ensures DistinctIds(before) && n.id !in GraphOf(before)
  {
    var all := before + [n];
    forall i, j | 0 <= i < j < |before| ensures before[i].id != before[j].id {
      assert all[i] == before[i] && all[j] == before[j];
    }
    GraphAt(before);
    forall i | 0 <= i < |before| ensures before[i].id != n.id {
      assert all[i] == before[i] && all[|before|] == n;
    }
  }

  method ZeroDegrees(nodes: seq<Node>) returns (present: set<Id>, inDegree: map<Id, int>)
    ensures present == inDegree.Keys == GraphOf(nodes).Keys
    ensures forall x :: x in inDegree ==> inDegree[x] == 0
  {
    present := {};
    inDegree := map[];
    for i := 0 to |nodes|
      invariant present == inDegree.Keys == GraphOf(nodes[..i]).Keys
      invariant forall x :: x in inDegree ==> inDegree[x] == 0
    {
      assert nodes[..i + 1][..i] == nodes[..i];
      present := present + {nodes[i].id};
      inDegree := inDegree[nodes[i].id := 0];
    }
    assert nodes[..|nodes|] == nodes;
  }

  method CountDependencies(nodes: seq<Node>) returns (inDegree: map<Id, int>, dependents: map<Id, seq<Id>>)
    requires DistinctIds(nodes)
    ensures Counted(nodes, inDegree, dependents)
  {
    var present, zero := ZeroDegrees(nodes);
    inDegree := zero;
    dependents := map[];
    ghost var before: seq<Node> := [];
    for i := 0 to |nodes|
      invariant before == nodes[..i]
      invariant inDegree == Degrees(before, zero, present)
      invariant WaitLists(dependents, present, before)
    {
      var n := nodes[i];
      assert before + [n] == nodes[..i + 1];
      CountingInvariant(nodes, i, zero, present);
      ghost var earlier := dependents;
      inDegree, dependents := CountOne(n, present, inDegree, dependents);
      WaitListsStep(earlier, present, before, n);
      before := before + [n];
    }
    assert before == nodes;
    DegreesAt(nodes, zero, present);
  }

  ghost predicate WaitLists(dependents: map<Id, seq<Id>>, present: set<Id>, before: seq<Node>) {
    forall d :: d in present ==> Dependents(dependents, d) == WaitList(before, d)
  }

  lemma WaitListsStep(dependents: map<Id, seq<Id>>, present: set<Id>, before: seq<Node>, n: Node)
    requires WaitLists(dependents, present, before)
    ensures WaitLists(Enter(dependents, present, n.id, n.dependsOn), present, before + [n])
  {
    assert (before + [n])[..|before|] == before;
    forall d | d in present {
      EnterAt(dependents, present, n.id, n.dependsOn, d);
    }
  }

  lemma CountingInvariant(nodes: seq<Node>, i: nat, zero: map<Id, int>, present: set<Id>)
    requires DistinctIds(nodes) && i < |nodes| && zero.Keys == present == GraphOf(nodes).Keys
    requires forall x :: x in zero ==> zero[x] == 0
    ensures var before, n := nodes[..i], nodes[i];
      && n.id in Degrees(before, zero, present) && Degrees(before, zero, present)[n.id] == 0
      && Degrees(before + [n], zero, present) == Degrees(before, zero, present)[n.id := CountIn(n.dependsOn, present)]
  {
    var before, n := nodes[..i], nodes[i];
    DistinctAppend(before, n);
    DegreesAt(before, zero, present);
    GraphAt(nodes);
    assert (before + [n])[..i] == before;
  }

  /** The wait lists after id has been entered for each entry of deps. */
  ghost function Enter(dependents: map<Id, seq<Id>>, present: set<Id>, id: Id, deps: seq<Id>): map<Id, seq<Id>> {
    if deps == [] then dependents
    else
      var m, last := Enter(dependents, present, id, deps[..|deps| - 1]), deps[|deps| - 1];
      if last in present then m[last := Dependents(m, last) + [id]] else m
  }

  lemma {:induction false} EnterAt(dependents: map<Id, seq<Id>>, present: set<Id>, id: Id, deps: seq<Id>, d: Id)
    requires d in present
    ensures Dependents(Enter(dependents, present, id, deps), d)
      == Dependents(dependents, d) + Repeat(id, multiset(deps)[d])
  {
    if deps == [] {
    } else {
      var init := deps[..|deps| - 1];
      EnterAt(dependents, present, id, init, d);
      CountLast(deps, d);
      RepeatOneMore(Dependents(dependents, d), id, multiset(init)[d]);
    }
  }

  lemma CountLast(deps: seq<Id>, d: Id)
    requires deps != []
    ensures multiset(deps)[d] == multiset(deps[..|deps| - 1])[d] + if deps[|deps| - 1] == d then 1 else 0
  {
    assert deps == deps[..|deps| - 1] + [deps[|deps| - 1]];
  }

  lemma RepeatOneMore(s: seq<Id>, x: Id, n: nat)
    ensures s + Repeat(x, n) + [x] == s + Repeat(x, n + 1)
  {
  }

  /** One turn of the counting loop. */
  method CountOne(n: Node, present: set<Id>, inDegree0: map<Id, int>, dependents0: map<Id, seq<Id>>)
    returns (inDegree: map<Id, int>, dependents: map<Id, seq<Id>>)
    requires n.id in inDegree0 && inDegree0[n.id] == 0
    ensures inDegree == inDegree0[n.id := CountIn(n.dependsOn, present)]
    ensures dependents == Enter(dependents0, present, n.id, n.dependsOn)
  {
    inDegree, dependents := inDegree0, dependents0;
    ghost var seen: seq<Id> := [];
    for j := 0 to |n.dependsOn|
      invariant seen == n.dependsOn[..j]
      invariant inDegree == inDegree0[n.id := CountIn(seen, present)]
      invariant dependents == Enter(dependents0, present, n.id, seen)
    {
      var dep := n.dependsOn[j];
      ghost var next := seen + [dep];
      assert next[..|seen|] == seen && next == n.dependsOn[..j + 1];
      seen := next;
      if dep !in present {
        continue;
      }
      inDegree := inDegree[n.id := inDegree[n.id] + 1];
      dependents := dependents[dep := Dependents(dependents, dep) + [n.id]];
    }
    assert seen == n.dependsOn;
  }

  // ------------------------------------------------------- facts about wait lists

  lemma {:induction false} WaitListCounts(nodes: seq<Node>, d: Id)
    requires DistinctIds(nodes)
    ensures forall x :: x in WaitList(nodes, d) ==> x in GraphOf(nodes)
    ensures forall x :: x in GraphOf(nodes) ==> multiset(WaitList(nodes, d))[x] == multiset(GraphOf(nodes)[x])[d]
  {
    if nodes == [] {
    } else {
      var init, last := nodes[..|nodes| - 1], nodes[|nodes| - 1];
      assert nodes == init + [last];
      DistinctAppend(init, last);
      WaitListCounts(init, d);
      RepeatCounts(last.id, multiset(last.dependsOn)[d]);
    }
  }

  lemma {:induction false} RepeatCounts(x: Id, n: nat)
    ensures multiset(Repeat(x, n))[x] == n
    ensures forall y :: y in Repeat(x, n) ==> y == x
  {
    if n > 0 {
      RepeatCounts(x, n - 1);
      assert Repeat(x, n) == Repeat(x, n - 1) + [x];
    }
  }

  ghost predicate ByPosition(ids: seq<Id>, s: seq<Id>) {
    forall i, j :: 0 <= i < j < |s| ==> Position(ids, s[i]) <= Position(ids, s[j])
  }

  lemma {:induction false} PositionAt(ids: seq<Id>, i: nat)
    requires Distinct(ids) && i < |ids|
    ensures Position(ids, ids[i]) == i
  {
  }

  lemma {:induction false} PositionInPrefix(ids: seq<Id>, more: seq<Id>, x: Id)
    requires x in ids
    ensures Position(ids + more, x) == Position(ids, x) < |ids|
  {
    if ids[0] != x {
      assert (ids + more)[1..] == ids[1..] + more;
      PositionInPrefix(ids[1..], more, x);
    }
  }

  lemma {:induction false} WaitListByPosition(nodes: seq<Node>, d: Id)
    requires DistinctIds(nodes)
    ensures ByPosition(Ids(nodes), WaitList(nodes, d))
  {
    if nodes == [] {
    } else {
      var init, last := nodes[..|nodes| - 1], nodes[|nodes| - 1];
      var s, n := WaitList(init, d), multiset(last.dependsOn)[d];
      assert nodes == init + [last] && Ids(nodes) == Ids(init) + [last.id];
      DistinctAppend(init, last);
      WaitListByPosition(init, d);
      WaitListCounts(init, d);
      GraphAt(init);
      PositionAt(Ids(nodes), |init|);
      forall i | 0 <= i < |s|
        ensures Position(Ids(nodes), s[i]) == Position(Ids(init), s[i]) < |init|
      {
        assert s[i] in Elements(Ids(init));
        PositionInPrefix(Ids(init), [last.id], s[i]);
      }
      ByPositionRepeat(Ids(nodes), s, last.id, n);
    }
  }

  lemma ByPositionRepeat(ids: seq<Id>, s: seq<Id>, x: Id, n: nat)
    requires ByPosition(ids, s) && forall i :: 0 <= i < |s| ==> Position(ids, s[i]) <= Position(ids, x)
    ensures ByPosition(ids, s + Repeat(x, n))
  {
  }

  // ------------------------------------------------------------- releasing services

  /** The degrees after each entry of ws has been lowered once. */
  ghost function Lower(inDegree: map<Id, int>, ws: seq<Id>): (m: map<Id, int>)
    requires forall x :: x in ws ==> x in inDegree
    ensures m.Keys == inDegree.Keys
  {
    if ws == [] then inDegree
    else
      var m, last := Lower(inDegree, ws[..|ws| - 1]), ws[|ws| - 1];
      m[last := m[last] - 1]
  }

  /** The entries of ws whose degree reached zero, in the order it did. */
  ghost function Freed(inDegree: map<Id, int>, ws: seq<Id>): seq<Id>
    requires forall x :: x in ws ==> x in inDegree
  {
    if ws == [] then []
    else
      var last := ws[|ws| - 1];
      Freed(inDegree, ws[..|ws| - 1]) + if Lower(inDegree, ws)[last] == 0 then [last] else []
  }

  method Release(ws: seq<Id>, inDegree0: map<Id, int>, queue0: seq<Id>) returns (inDegree: map<Id, int>, queue: seq<Id>)
    requires forall x :: x in ws ==> x in inDegree0
    ensures inDegree == Lower(inDegree0, ws)
    ensures queue == queue0 + Freed(inDegree0, ws)
  {
    inDegree, queue := inDegree0, queue0;
    ghost var seen: seq<Id> := [];
    for i := 0 to |ws|
      invariant seen == ws[..i]
      invariant inDegree == Lower(inDegree0, seen)
      invariant queue == queue0 + Freed(inDegree0, seen)
    {
      var dep := ws[i];
      ghost var next := seen + [dep];
      assert next[..|seen|] == seen && next == ws[..i + 1];
      seen := next;
      inDegree := inDegree[dep := inDegree[dep] - 1];
      if inDegree[dep] == 0 {
        queue := queue + [dep];
      }
    }
    assert seen == ws;
  }

  lemma {:induction false} LowerAt(inDegree: map<Id, int>, ws: seq<Id>, x: Id)
    requires x in inDegree && forall y :: y in ws ==> y in inDegree
    ensures Lower(inDegree, ws)[x] == inDegree[x] - multiset(ws)[x]
  {
    if ws == [] {
    } else {
      LowerAt(inDegree, ws[..|ws| - 1], x);
      assert ws == ws[..|ws| - 1] + [ws[|ws| - 1]];
    }
  }

  /** x is freed exactly when its degree is used up, provided no degree is overdrawn. */
  lemma {:induction false} FreedIffUsedUp(inDegree: map<Id, int>, ws: seq<Id>, x: Id)
    requires x in inDegree && forall y :: y in ws ==> y in inDegree
    requires inDegree[x] >= multiset(ws)[x]
    ensures multiset(Freed(inDegree, ws))[x] == if inDegree[x] == multiset(ws)[x] > 0 then 1 else 0
  {
    if ws == [] {
    } else {
      var init, last := ws[..|ws| - 1], ws[|ws| - 1];
      assert ws == init + [last];
      FreedIffUsedUp(inDegree, init, x);
      LowerAt(inDegree, ws, x);
    }
  }

  lemma {:induction false} FreedInWaiting(inDegree: map<Id, int>, ws: seq<Id>)
    requires forall x :: x in ws ==> x in inDegree
    ensures forall x :: x in Freed(inDegree, ws) ==> x in ws
  {
    if ws == [] {
    } else {
      FreedInWaiting(inDegree, ws[..|ws| - 1]);
      assert ws == ws[..|ws| - 1] + [ws[|ws| - 1]];
    }
  }

  lemma {:induction false} FreedByPosition(inDegree: map<Id, int>, ws: seq<Id>, ids: seq<Id>)
    requires forall x :: x in ws ==> x in inDegree
    requires ByPosition(ids, ws)
    ensures ByPosition(ids, Freed(inDegree, ws))
  {
    if ws == [] {
    } else {
      var init, last := ws[..|ws| - 1], ws[|ws| - 1];
      FreedByPosition(inDegree, init, ids);
      FreedInWaiting(inDegree, init);
      assert ws == init + [last];
      ByPositionAppend(ids, init, last, Freed(inDegree, init));
    }
  }

  lemma ByPositionAppend(ids: seq<Id>, s: seq<Id>, x: Id, sub: seq<Id>)
    requires ByPosition(ids, s + [x]) && ByPosition(ids, sub)
    requires forall y :: y in sub ==> y in s
    ensures ByPosition(ids, sub + [x])
  {
    forall i | 0 <= i < |sub| ensures Position(ids, sub[i]) <= Position(ids, x) {
      assert sub[i] in sub;
      var k :| 0 <= k < |s| && s[k] == sub[i];
      assert (s + [x])[k] == s[k] && (s + [x])[|s|] == x;
    }
  }

  lemma {:induction false} OnceIsDistinct(s: seq<Id>)
    requires forall x :: multiset(s)[x] <= 1
    ensures Distinct(s)
  {
    forall i, j | 0 <= i < j < |s| ensures s[i] != s[j] {
      var front, back := s[..j], s[j..];
      assert s == front + back;
      assert front[i] == s[i] && s[j] == back[0];
      assert multiset(s)[s[i]] == multiset(front)[s[i]] + multiset(back)[s[i]];
    }
  }

  // ------------------------------------------------------------------ the main loop

  /** What holds between two turns of the main loop; seen is everything ever queued. */
  ghost predicate Draining(nodes: seq<Node>, order: seq<Id>, seen: seq<Id>, inDegree: map<Id, int>) {
    var g := GraphOf(nodes);
    && order <= seen
    && inDegree.Keys == g.Keys
    && (forall x :: x in g ==> inDegree[x] == CountIn(g[x], g.Keys - Elements(order)))
    && Distinct(seen) && (forall x :: x in seen <==> x in g && inDegree[x] == 0)
    && DependenciesFirst(g, seen)
    && FirstInFirstOut(g, Ids(nodes), order, seen)
  }

  /** Dependencies of whatever was queued have all been taken off the queue. */
  lemma SeenIsReady(nodes: seq<Node>, order: seq<Id>, seen: seq<Id>, inDegree: map<Id, int>, x: Id, d: Id)
    requires Draining(nodes, order, seen, inDegree)
    requires x in seen && Edge(GraphOf(nodes), x, d)
    ensures d in order
  {
    CountInZero(GraphOf(nodes)[x], GraphOf(nodes).Keys - Elements(order));
  }

  /** The head of the queue and who waits for it. */
  ghost predicate Turn(nodes: seq<Node>, order: seq<Id>, seen: seq<Id>, inDegree: map<Id, int>, id: Id, ws: seq<Id>) {
    && DistinctIds(nodes)
    && Draining(nodes, order, seen, inDegree)
    && |order| < |seen| && seen[|order|] == id
    && ws == WaitList(nodes, id)
    && (forall x :: x in ws ==> x in inDegree)
  }

  lemma TurnCounts(nodes: seq<Node>, order: seq<Id>, seen: seq<Id>, inDegree: map<Id, int>, id: Id, ws: seq<Id>, x: Id)
    requires Turn(nodes, order, seen, inDegree, id, ws)
    requires x in GraphOf(nodes)
    ensures var g := GraphOf(nodes);
      && multiset(ws)[x] == multiset(g[x])[id] <= inDegree[x]
      && Lower(inDegree, ws)[x] == CountIn(g[x], g.Keys - Elements(order + [id])) == inDegree[x] - multiset(ws)[x]
      && multiset(Freed(inDegree, ws))[x] == if inDegree[x] == multiset(ws)[x] > 0 then 1 else 0
  {
    var g := GraphOf(nodes);
    WaitListCounts(nodes, id);
    ElementsAppend(order, id);
    assert id in seen && id !in order;
    assert g.Keys - Elements(order + [id]) == g.Keys - Elements(order) - {id};
    CountInRemove(g[x], g.Keys - Elements(order), id);
    LowerAt(inDegree, ws, x);
    FreedIffUsedUp(inDegree, ws, x);
  }

  lemma TurnSeen(nodes: seq<Node>, order: seq<Id>, seen: seq<Id>, inDegree: map<Id, int>, id: Id, ws: seq<Id>)
    requires Turn(nodes, order, seen, inDegree, id, ws)
    ensures var more := seen + Freed(inDegree, ws);
      Distinct(more) && forall x :: x in more <==> x in GraphOf(nodes) && Lower(inDegree, ws)[x] == 0
  {
    var g, freed, lowered := GraphOf(nodes), Freed(inDegree, ws), Lower(inDegree, ws);
    FreedInWaiting(inDegree, ws);
    forall x ensures multiset(freed)[x] <= 1 {
      if x in freed {
        TurnCounts(nodes, order, seen, inDegree, id, ws, x);
      }
    }
    OnceIsDistinct(freed);
    forall x | x in g
      ensures x in seen || x in freed <==> lowered[x] == 0
      ensures x in freed ==> x !in seen
    {
      TurnCounts(nodes, order, seen, inDegree, id, ws, x);
      assert x in freed <==> multiset(freed)[x] > 0;
    }
    assert forall x :: x in freed ==> x in g;
    DistinctUnion(seen, freed);
  }

  lemma DistinctUnion(a: seq<Id>, b: seq<Id>)
    requires Distinct(a) && Distinct(b) && forall x :: x in b ==> x !in a
    ensures Distinct(a + b)
  {
    forall i, j | 0 <= i < j < |a + b| ensures (a + b)[i] != (a + b)[j] {
      if i < |a| <= j { assert (a + b)[i] in a && (a + b)[j] in b; }
    }
  }

  lemma TurnDependenciesFirst(nodes: seq<Node>, order: seq<Id>, seen: seq<Id>, inDegree: map<Id, int>, id: Id,
      ws: seq<Id>)
    requires Turn(nodes, order, seen, inDegree, id, ws)
    ensures DependenciesFirst(GraphOf(nodes), seen + Freed(inDegree, ws))
  {
    var g, freed := GraphOf(nodes), Freed(inDegree, ws);
    var more := seen + freed;
    forall i, d | 0 <= i < |more| && Edge(g, more[i], d) ensures d in more[..i] {
      if i < |seen| {
        assert more[..i] == seen[..i];
      } else {
        assert more[i] in freed;
        FreedIsReady(nodes, order, seen, inDegree, id, ws, more[i], d);
        TakenIsPrefix(order, seen, id, freed);
        InLongerPrefix(order + [id], more, i, d);
      }
    }
  }

  lemma InLongerPrefix(part: seq<Id>, more: seq<Id>, i: nat, d: Id)
    requires part <= more && |part| <= i <= |more| && d in part
    ensures d in more[..i]
  {
    assert part == more[..i][..|part|];
  }

  lemma FreedIsReady(nodes: seq<Node>, order: seq<Id>, seen: seq<Id>, inDegree: map<Id, int>, id: Id, ws: seq<Id>,
      x: Id, d: Id)
    requires Turn(nodes, order, seen, inDegree, id, ws)
    requires x in Freed(inDegree, ws) && Edge(GraphOf(nodes), x, d)
    ensures d in order + [id]
  {
    var g := GraphOf(nodes);
    TurnCounts(nodes, order, seen, inDegree, id, ws, x);
    CountInZero(g[x], g.Keys - Elements(order + [id]));
  }

  lemma TurnReleases(nodes: seq<Node>, order: seq<Id>, seen: seq<Id>, inDegree: map<Id, int>, id: Id, ws: seq<Id>,
      x: Id)
    requires Turn(nodes, order, seen, inDegree, id, ws)
    requires x in GraphOf(nodes)
    ensures x in seen ==> LastDependency(order + [id], GraphOf(nodes)[x]) == LastDependency(order, GraphOf(nodes)[x])
    ensures x in Freed(inDegree, ws) ==> LastDependency(order + [id], GraphOf(nodes)[x]) == |order|
  {
    var g := GraphOf(nodes);
    assert (order + [id])[..|order|] == order;
    assert id in seen && id !in order;
    if x in seen && id in g[x] {
      SeenIsReady(nodes, order, seen, inDegree, x, id);
    }
    if x in Freed(inDegree, ws) {
      FreedInWaiting(inDegree, ws);
      TurnCounts(nodes, order, seen, inDegree, id, ws, x);
      assert multiset(ws)[x] > 0;
    }
  }

  lemma TurnMembers(nodes: seq<Node>, order: seq<Id>, seen: seq<Id>, inDegree: map<Id, int>, id: Id, ws: seq<Id>)
    requires Turn(nodes, order, seen, inDegree, id, ws)
    ensures var more := seen + Freed(inDegree, ws);
      Distinct(more) && forall i {:trigger more[i]} :: 0 <= i < |more| ==>
        more[i] in GraphOf(nodes) && more[i] in Ids(nodes)
    ensures ByPosition(Ids(nodes), Freed(inDegree, ws))
  {
    var more := seen + Freed(inDegree, ws);
    TurnSeen(nodes, order, seen, inDegree, id, ws);
    WaitListByPosition(nodes, id);
    FreedByPosition(inDegree, ws, Ids(nodes));
    GraphAt(nodes);
    forall i | 0 <= i < |more| ensures more[i] in GraphOf(nodes) && more[i] in Ids(nodes) {
      assert more[i] in more;
    }
  }

  lemma TurnOrdersPair(nodes: seq<Node>, order: seq<Id>, seen: seq<Id>, inDegree: map<Id, int>, id: Id, ws: seq<Id>,
      i: nat, j: nat)
    requires Turn(nodes, order, seen, inDegree, id, ws) && ByPosition(Ids(nodes), Freed(inDegree, ws))
    requires var more := seen + Freed(inDegree, ws);
      && i < j < |more| && more[i] != more[j]
      && more[i] in GraphOf(nodes) && more[i] in Ids(nodes) && more[j] in GraphOf(nodes) && more[j] in Ids(nodes)
    ensures var more := seen + Freed(inDegree, ws);
      ReleasedBefore(GraphOf(nodes), Ids(nodes), order + [id], more[i], more[j])
  {
    var ids, freed := Ids(nodes), Freed(inDegree, ws);
    var more := seen + freed;
    TurnReleases(nodes, order, seen, inDegree, id, ws, more[i]);
    TurnReleases(nodes, order, seen, inDegree, id, ws, more[j]);
    if j < |seen| {
      assert more[i] == seen[i] && more[j] == seen[j];
      assert ReleasedBefore(GraphOf(nodes), ids, order, seen[i], seen[j]);
    } else if i < |seen| {
      assert more[i] in seen && more[j] in freed;
    } else {
      assert more[i] in freed && more[j] in freed;
      PositionsDiffer(ids, more[i], more[j]);
      assert Position(ids, freed[i - |seen|]) <= Position(ids, freed[j - |seen|]);
    }
  }

  lemma PositionsDiffer(ids: seq<Id>, a: Id, b: Id)
    requires a in ids && b in ids && a != b
    ensures Position(ids, a) != Position(ids, b)
  {
  }

  lemma TurnFirstInFirstOut(nodes: seq<Node>, order: seq<Id>, seen: seq<Id>, inDegree: map<Id, int>, id: Id,
      ws: seq<Id>)
    requires Turn(nodes, order, seen, inDegree, id, ws)
    ensures FirstInFirstOut(GraphOf(nodes), Ids(nodes), order + [id], seen + Freed(inDegree, ws))
  {
    var more := seen + Freed(inDegree, ws);
    TurnMembers(nodes, order, seen, inDegree, id, ws);
    forall i, j | 0 <= i < j < |more|
      ensures ReleasedBefore(GraphOf(nodes), Ids(nodes), order + [id], more[i], more[j])
    {
      TurnOrdersPair(nodes, order, seen, inDegree, id, ws, i, j);
    }
  }

  /** Taking the head off the queue and lowering those who wait for it keeps the loop invariant. */
  lemma TurnDegrees(nodes: seq<Node>, order: seq<Id>, seen: seq<Id>, inDegree: map<Id, int>, id: Id, ws: seq<Id>)
    requires Turn(nodes, order, seen, inDegree, id, ws)
    ensures var g := GraphOf(nodes);
      && Lower(inDegree, ws).Keys == g.Keys
      && forall x :: x in g ==> Lower(inDegree, ws)[x] == CountIn(g[x], g.Keys - Elements(order + [id]))
  {
    var g := GraphOf(nodes);
    forall x | x in g
      ensures Lower(inDegree, ws)[x] == CountIn(g[x], g.Keys - Elements(order + [id]))
    {
      TurnCounts(nodes, order, seen, inDegree, id, ws, x);
    }
  }

  lemma TakenIsPrefix(order: seq<Id>, seen: seq<Id>, id: Id, more: seq<Id>)
    requires order <= seen && |order| < |seen| && seen[|order|] == id
    ensures order + [id] <= seen + more
  {
    assert order + [id] == seen[..|order| + 1];
  }

  lemma DrainStep(nodes: seq<Node>, order: seq<Id>, seen: seq<Id>, inDegree: map<Id, int>, id: Id, ws: seq<Id>)
    requires Turn(nodes, order, seen, inDegree, id, ws)
    ensures Draining(nodes, order + [id], seen + Freed(inDegree, ws), Lower(inDegree, ws))
  {
    TurnDegrees(nodes, order, seen, inDegree, id, ws);
    TurnSeen(nodes, order, seen, inDegree, id, ws);
    TurnDependenciesFirst(nodes, order, seen, inDegree, id, ws);
    TurnFirstInFirstOut(nodes, order, seen, inDegree, id, ws);
    TakenIsPrefix(order, seen, id, Freed(inDegree, ws));
  }

  /** One turn of the main loop: what was taken off the queue, what was ever put on it, the degrees. */
  datatype Progress = Progress(order: seq<Id>, seen: seq<Id>, inDegree: map<Id, int>)

  ghost predicate Sound(nodes: seq<Node>, p: Progress) {
    Draining(nodes, p.order, p.seen, p.inDegree)
  }

  /** The ids of the services in before whose degree is zero, in input order. */
  ghost function Seeds(before: seq<Node>, inDegree: map<Id, int>): seq<Id>
    requires forall i :: 0 <= i < |before| ==> before[i].id in inDegree
  {
    if before == [] then []
    else
      var last := before[|before| - 1].id;
      Seeds(before[..|before| - 1], inDegree) + if inDegree[last] == 0 then [last] else []
  }

  lemma {:induction false} SeedsAt(before: seq<Node>, inDegree: map<Id, int>)
    requires DistinctIds(before)
    requires forall i :: 0 <= i < |before| ==> before[i].id in inDegree
    ensures Distinct(Seeds(before, inDegree))
    ensures forall x :: x in Seeds(before, inDegree) <==> x in GraphOf(before) && x in inDegree && inDegree[x] == 0
    ensures ByPosition(Ids(before), Seeds(before, inDegree))
  {
    if before == [] {
    } else {
      var init, last := before[..|before| - 1], before[|before| - 1];
      assert before == init + [last] && Ids(before) == Ids(init) + [last.id];
      DistinctAppend(init, last);
      SeedsAt(init, inDegree);
      SeedsByPosition(init, last, inDegree);
      assert Seeds(before, inDegree) ==
        if inDegree[last.id] == 0 then Seeds(init, inDegree) + [last.id] else Seeds(init, inDegree);
    }
  }

  lemma SeedsByPosition(init: seq<Node>, last: Node, inDegree: map<Id, int>)
    requires DistinctIds(init + [last])
    requires forall i :: 0 <= i < |init| ==> init[i].id in inDegree
    requires forall x :: x in Seeds(init, inDegree) ==> x in GraphOf(init)
    requires ByPosition(Ids(init), Seeds(init, inDegree))
    ensures ByPosition(Ids(init + [last]), Seeds(init, inDegree))
    ensures ByPosition(Ids(init + [last]), Seeds(init, inDegree) + [last.id])
  {
    var seeds, ids := Seeds(init, inDegree), Ids(init + [last]);
    assert ids == Ids(init) + [last.id];
    DistinctAppend(init, last);
    GraphAt(init);
    PositionAt(ids, |init|);
    forall i | 0 <= i < |seeds| ensures Position(ids, seeds[i]) == Position(Ids(init), seeds[i]) < |init| {
      assert seeds[i] in seeds && seeds[i] in Elements(Ids(init));
      PositionInPrefix(Ids(init), [last.id], seeds[i]);
    }
  }

  lemma SeedsAreReady(g: Graph, seeds: seq<Id>)
    requires forall x :: x in seeds ==> x in g && CountIn(g[x], g.Keys) == 0
    ensures DependenciesFirst(g, seeds)
  {
    forall x, d | x in seeds ensures !Edge(g, x, d) {
      CountInZero(g[x], g.Keys);
    }
  }

  lemma SeedsFirstInFirstOut(g: Graph, ids: seq<Id>, seeds: seq<Id>)
    requires Distinct(seeds) && ByPosition(ids, seeds)
    requires forall x :: x in seeds ==> x in g && x in ids
    ensures FirstInFirstOut(g, ids, [], seeds)
  {
  }

  lemma DrainStart(nodes: seq<Node>, inDegree: map<Id, int>)
    requires DistinctIds(nodes)
    requires inDegree.Keys == GraphOf(nodes).Keys
    requires forall x :: x in GraphOf(nodes) ==> inDegree[x] == CountIn(GraphOf(nodes)[x], GraphOf(nodes).Keys)
    ensures forall i :: 0 <= i < |nodes| ==> nodes[i].id in inDegree
    ensures Sound(nodes, Progress([], Seeds(nodes, inDegree), inDegree))
  {
    GraphAt(nodes);
    var g, seeds := GraphOf(nodes), Seeds(nodes, inDegree);
    SeedsAt(nodes, inDegree);
    assert g.Keys - Elements<Id>([]) == g.Keys;
    SeedsAreReady(g, seeds);
    forall x | x in seeds ensures x in Ids(nodes) { assert x in Elements(Ids(nodes)); }
    SeedsFirstInFirstOut(g, Ids(nodes), seeds);
  }

  method Seed(nodes: seq<Node>, inDegree: map<Id, int>) returns (queue: seq<Id>)
    requires forall i :: 0 <= i < |nodes| ==> nodes[i].id in inDegree
    ensures queue == Seeds(nodes, inDegree)
  {
    queue := [];
    for i := 0 to |nodes|
      invariant queue == Seeds(nodes[..i], inDegree)
    {
      assert nodes[..i + 1][..i] == nodes[..i];
      if inDegree[nodes[i].id] == 0 {
        queue := queue + [nodes[i].id];
      }
    }
    assert nodes[..|nodes|] == nodes;
  }

  ghost function Advance(p: Progress, id: Id, ws: seq<Id>): Progress
    requires forall x :: x in ws ==> x in p.inDegree
  {
    Progress(p.order + [id], p.seen + Freed(p.inDegree, ws), Lower(p.inDegree, ws))
  }

  lemma AdvanceIsSound(nodes: seq<Node>, p: Progress, id: Id, dependents: map<Id, seq<Id>>)
    requires DistinctIds(nodes) && Sound(nodes, p)
    requires forall d :: d in GraphOf(nodes) ==> Dependents(dependents, d) == WaitList(nodes, d)
    requires |p.order| < |p.seen| && p.seen[|p.order|] == id
    ensures |p.order| < |nodes|
    ensures forall x :: x in Dependents(dependents, id) ==> x in p.inDegree
    ensures Sound(nodes, Advance(p, id, Dependents(dependents, id)))
  {
    assert id in p.seen;
    WaitListCounts(nodes, id);
    DrainStep(nodes, p.order, p.seen, p.inDegree, id, WaitList(nodes, id));
    SeenFits(nodes, p.order, p.seen, p.inDegree);
  }

  lemma Requeue(order: seq<Id>, queue: seq<Id>, more: seq<Id>)
    requires queue != []
    ensures (order + queue) + more == (order + [queue[0]]) + (queue[1..] + more)
  {
  }

  method Drain(nodes: seq<Node>, inDegree0: map<Id, int>, dependents: map<Id, seq<Id>>, seeds: seq<Id>)
    returns (order: seq<Id>, inDegree: map<Id, int>)
    requires DistinctIds(nodes) && Sound(nodes, Progress([], seeds, inDegree0))
    requires forall d :: d in GraphOf(nodes) ==> Dependents(dependents, d) == WaitList(nodes, d)
    ensures Sound(nodes, Progress(order, order, inDegree))
  {
    var queue := seeds;
    inDegree := inDegree0;
    order := [];
    ghost var p := Progress([], seeds, inDegree);
    while |queue| > 0
      invariant p.order == order && p.seen == order + queue && p.inDegree == inDegree
      invariant Sound(nodes, p)
      decreases |nodes| - |order|
    {
      var id := queue[0];
      AdvanceIsSound(nodes, p, id, dependents);
      Requeue(order, queue, Freed(inDegree, Dependents(dependents, id)));
      p := Advance(p, id, Dependents(dependents, id));
      queue := queue[1..];
      order := order + [id];
      inDegree, queue := Release(Dependents(dependents, id), inDegree, queue);
    }
    assert p == Progress(order, order, inDegree);
  }

  lemma SeenFits(nodes: seq<Node>, order: seq<Id>, seen: seq<Id>, inDegree: map<Id, int>)
    requires DistinctIds(nodes) && Draining(nodes, order, seen, inDegree)
    ensures |seen| <= |nodes| == |GraphOf(nodes)|
    ensures |seen| == |nodes| ==> Elements(seen) == GraphOf(nodes).Keys
  {
    GraphAt(nodes);
    assert Elements(Ids(nodes)) == GraphOf(nodes).Keys;
    DistinctCard(Ids(nodes));
    DistinctFits(seen, GraphOf(nodes).Keys);
  }

  // ------------------------------------------------------------------- the result

  /** The services in before from which a cycle of g can be reached, in input order. */
  ghost function Looping(g: Graph, before: seq<Node>): seq<Id> {
    if before == [] then []
    else
      var last := before[|before| - 1].id;
      Looping(g, before[..|before| - 1]) + if ReachesCycle(g, last) then [last] else []
  }

  /** Ids from the first n positions, in ascending position. */
  ghost predicate Ascends(ids: seq<Id>, s: seq<Id>, n: nat) {
    && (forall i :: 0 <= i < |s| ==> Position(ids, s[i]) < n)
    && (forall i, j :: 0 <= i < j < |s| ==> Position(ids, s[i]) < Position(ids, s[j]))
  }

  lemma AscendsAppend(ids: seq<Id>, s: seq<Id>, x: Id, n: nat)
    requires Ascends(ids, s, n) && Position(ids, x) == n
    ensures Ascends(ids, s + [x], n + 1)
  {
  }

  lemma {:induction false} LoopingAscends(nodes: seq<Node>, g: Graph, n: nat)
    requires DistinctIds(nodes) && n <= |nodes|
    ensures Ascends(Ids(nodes), Looping(g, nodes[..n]), n)
  {
    if n == 0 {
    } else {
      var x := nodes[n - 1].id;
      var before := Looping(g, nodes[..n - 1]);
      LoopingAscends(nodes, g, n - 1);
      PositionAt(Ids(nodes), n - 1);
      AscendsAppend(Ids(nodes), before, x, n - 1);
      assert nodes[..n][..n - 1] == nodes[..n - 1];
      assert Looping(g, nodes[..n]) == before + if ReachesCycle(g, x) then [x] else [];
    }
  }

  lemma {:induction false} LoopingReaches(g: Graph, before: seq<Node>, i: nat)
    requires i < |Looping(g, before)|
    ensures ReachesCycle(g, Looping(g, before)[i])
  {
    if i < |Looping(g, before[..|before| - 1])| {
      LoopingReaches(g, before[..|before| - 1], i);
    }
  }

  /** All services of the first n that can reach a cycle. */
  lemma {:induction false} LoopingHas(nodes: seq<Node>, g: Graph, n: nat, k: nat)
    requires k < n <= |nodes| && ReachesCycle(g, nodes[k].id)
    ensures nodes[k].id in Looping(g, nodes[..n])
  {
    assert nodes[..n][..n - 1] == nodes[..n - 1];
    if k < n - 1 {
      LoopingHas(nodes, g, n - 1, k);
    }
  }

  /** The report names each service that can reach a cycle once, and no other, in input order. */
  lemma LoopingMeans(nodes: seq<Node>, stuck: seq<Id>)
    requires DistinctIds(nodes) && stuck == Looping(GraphOf(nodes), nodes)
    ensures Distinct(stuck)
    ensures forall x :: x in stuck <==> x in GraphOf(nodes) && ReachesCycle(GraphOf(nodes), x)
    ensures forall i, j :: 0 <= i < j < |stuck| ==> Position(Ids(nodes), stuck[i]) < Position(Ids(nodes), stuck[j])
  {
    var g, ids := GraphOf(nodes), Ids(nodes);
    assert nodes[..|nodes|] == nodes;
    LoopingAscends(nodes, g, |nodes|);
    GraphAt(nodes);
    forall x | x in g && ReachesCycle(g, x)
      ensures x in stuck
    {
      assert x in Elements(ids);
      var k :| 0 <= k < |ids| && ids[k] == x;
      LoopingHas(nodes, g, |nodes|, k);
    }
    forall i | 0 <= i < |stuck|
      ensures stuck[i] in g && ReachesCycle(g, stuck[i])
    {
      LoopingReaches(g, nodes, i);
      InPosition(ids, stuck[i]);
      assert stuck[i] in Elements(ids);
    }
  }

  lemma {:induction false} InPosition(ids: seq<Id>, x: Id)
    requires Position(ids, x) < |ids|
    ensures x in ids
  {
    if ids[0] == x {
    } else {
      InPosition(ids[1..], x);
    }
  }

  /** Once the queue is empty, what was never released is what can reach a cycle. */
  lemma LeftoverIsLooping(nodes: seq<Node>, order: seq<Id>, inDegree: map<Id, int>)
    requires DistinctIds(nodes) && Sound(nodes, Progress(order, order, inDegree))
    ensures inDegree.Keys == GraphOf(nodes).Keys
    ensures forall x :: x in GraphOf(nodes) ==> (inDegree[x] > 0 <==> x !in order)
    ensures forall x :: x in GraphOf(nodes) ==> (x !in order <==> ReachesCycle(GraphOf(nodes), x))
  {
    var g := GraphOf(nodes);
    var u := g.Keys - Elements(order);
    forall x | x in u ensures DependsInto(g, x, u) {
      CountInZero(g[x], u);
      assert exists d :: d in g[x] && d in u;
    }
    forall x | x in g ensures x !in order <==> ReachesCycle(g, x) {
      if x in order {
        OrderedReachesNoCycle(g, order, x);
      } else {
        LeftoverReachesCycle(g, u, x);
      }
    }
  }

  lemma AllReleasedIffAcyclic(g: Graph, order: seq<Id>)
    requires Elements(order) <= g.Keys
    requires forall x :: x in g ==> (x !in order <==> ReachesCycle(g, x))
    ensures Elements(order) == g.Keys <==> !Cyclic(g)
  {
  }

  lemma AllOrderedIffAcyclic(nodes: seq<Node>, order: seq<Id>, inDegree: map<Id, int>)
    requires DistinctIds(nodes) && Sound(nodes, Progress(order, order, inDegree))
    ensures |order| == |nodes| <==> !Cyclic(GraphOf(nodes))
    ensures |order| == |nodes| ==> KahnOrder(nodes, order)
  {
    LeftoverIsLooping(nodes, order, inDegree);
    SeenFits(nodes, order, order, inDegree);
    AllReleasedIffAcyclic(GraphOf(nodes), order);
    DistinctCard(order);
  }

  method StuckServices(nodes: seq<Node>, inDegree: map<Id, int>) returns (stuck: seq<Id>)
    requires DistinctIds(nodes) && inDegree.Keys == GraphOf(nodes).Keys
    requires forall x :: x in inDegree ==> (inDegree[x] > 0 <==> ReachesCycle(GraphOf(nodes), x))
    ensures Distinct(stuck)
    ensures forall x :: x in stuck <==> x in GraphOf(nodes) && ReachesCycle(GraphOf(nodes), x)
    ensures forall i, j :: 0 <= i < j < |stuck| ==> Position(Ids(nodes), stuck[i]) < Position(Ids(nodes), stuck[j])
  {
    GraphAt(nodes);
    stuck := [];
    for i := 0 to |nodes|
      invariant stuck == Looping(GraphOf(nodes), nodes[..i])
    {
      assert nodes[..i + 1][..i] == nodes[..i];
      assert nodes[i].id in GraphOf(nodes);
      if inDegree[nodes[i].id] > 0 {
        stuck := stuck + [nodes[i].id];
      }
    }
    assert nodes[..|nodes|] == nodes;
    LoopingMeans(nodes, stuck);
  }

  /** Orders the services, or names exactly those that lead into a cycle. */
  method Sort(nodes: seq<Node>) returns (r: SortResult)
    requires DistinctIds(nodes)
    ensures r.Ordered? <==> !Cyclic(GraphOf(nodes))
    ensures r.Ordered? ==> KahnOrder(nodes, r.order)
    ensures r.Stuck? ==> Distinct(r.ids)
    ensures r.Stuck? ==> forall x :: x in r.ids <==> x in GraphOf(nodes) && ReachesCycle(GraphOf(nodes), x)
    ensures r.Stuck? ==> forall i, j :: 0 <= i < j < |r.ids| ==>
      Position(Ids(nodes), r.ids[i]) < Position(Ids(nodes), r.ids[j])
  {
    var inDegree, dependents := CountDependencies(nodes);
    DrainStart(nodes, inDegree);
    var queue := Seed(nodes, inDegree);
    var order, left := Drain(nodes, inDegree, dependents, queue);
    AllOrderedIffAcyclic(nodes, order, left);
    if |order| != |nodes| {
      LeftoverIsLooping(nodes, order, left);
      var stuck := StuckServices(nodes, left);
      return Stuck(stuck);
    }
    return Ordered(order);
  }

  // ------------------------------------------------------- what the order promises

  /** Every dependency of order[i] stands before it, no later than the last one. */
  lemma DependencyStandsBefore(nodes: seq<Node>, order: seq<Id>, i: nat, d: Id) returns (p: nat)
    requires KahnOrder(nodes, order) && i < |order| && Edge(GraphOf(nodes), order[i], d)
    ensures p < i && order[p] == d && p <= LastDependency(order, GraphOf(nodes)[order[i]])
  {
    assert d in order[..i];
    p :| 0 <= p < i && order[p] == d;
  }

  lemma LastDependencyStandsBefore(nodes: seq<Node>, order: seq<Id>, i: nat, q: nat)
    requires KahnOrder(nodes, order) && i < |order| && order[i] in GraphOf(nodes)
    requires q == LastDependency(order, GraphOf(nodes)[order[i]])
    ensures q < i && Edge(GraphOf(nodes), order[i], order[q])
  {
    assert order[q] in Elements(order);
    var p := DependencyStandsBefore(nodes, order, i, order[q]);
    assert p == q;
  }

  lemma LaterHasLaterDependency(nodes: seq<Node>, order: seq<Id>, i: nat, j: nat, d: Id) returns (p: nat, q: nat)
    requires KahnOrder(nodes, order) && i < j < |order| && Edge(GraphOf(nodes), order[i], d)
    ensures p <= q < j && order[p] == d && Edge(GraphOf(nodes), order[j], order[q])
  {
    var g := GraphOf(nodes);
    p := DependencyStandsBefore(nodes, order, i, d);
    ReleaseOrder(nodes, order, i, j);
    q := LastDependency(order, g[order[j]]);
    LastDependencyStandsBefore(nodes, order, j, q);
  }

  /** s[j] has a dependency standing no earlier than the dependency d of s[i]. */
  ghost predicate Climb(g: Graph, s: seq<Id>, i: nat, j: nat, d: Id) {
    exists p, q :: 0 <= p <= q < j < |s| && s[p] == d && Edge(g, s[j], s[q])
  }

  ghost predicate Climbs(g: Graph, s: seq<Id>) {
    && (forall i {:trigger s[i] in g} :: 0 <= i < |s| ==> s[i] in g)
    && (forall i, j, d {:trigger Climb(g, s, i, j, d)} :: 0 <= i < j < |s| && Edge(g, s[i], d) ==> Climb(g, s, i, j, d))
  }

  lemma OrderClimbs(nodes: seq<Node>, order: seq<Id>)
    requires KahnOrder(nodes, order)
    ensures Climbs(GraphOf(nodes), order)
  {
    var g := GraphOf(nodes);
    forall i | 0 <= i < |order| ensures order[i] in g { Member(nodes, order, i); }
    forall i, j, d | 0 <= i < j < |order| && Edge(g, order[i], d) ensures Climb(g, order, i, j, d) {
      var p, q := LaterHasLaterDependency(nodes, order, i, j, d);
    }
  }

  /** Depth never decreases along the order: it is sorted into layers. */
  lemma {:induction false} ClimbsIsLayered(g: Graph, s: seq<Id>, i: nat, j: nat, k: nat)
    requires Climbs(g, s) && i < j < |s| && HasChain(g, s[i], k)
    ensures HasChain(g, s[j], k)
    decreases k
  {
    if k == 0 {
      assert s[j] in g;
    } else {
      var d :| Edge(g, s[i], d) && HasChain(g, d, k - 1);
      assert Climb(g, s, i, j, d);
      var p, q :| 0 <= p <= q < j && s[p] == d && Edge(g, s[j], s[q]);
      if p < q {
        ClimbsIsLayered(g, s, p, q, k - 1);
      }
      ChainThrough(g, s[j], s[q], k);
    }
  }

  lemma ChainThrough(g: Graph, x: Id, d: Id, k: nat)
    requires k > 0 && Edge(g, x, d) && HasChain(g, d, k - 1)
    ensures HasChain(g, x, k)
  {
  }

  lemma SortedIntoLayers(nodes: seq<Node>, order: seq<Id>)
    requires KahnOrder(nodes, order)
    ensures Layered(GraphOf(nodes), order)
  {
    OrderClimbs(nodes, order);
    LayersFromClimbs(GraphOf(nodes), order);
  }

  lemma LayersFromClimbs(g: Graph, s: seq<Id>)
    requires Climbs(g, s)
    ensures Layered(g, s)
  {
    forall i, j, k: nat | 0 <= i < j < |s| && HasChain(g, s[i], k) ensures HasChain(g, s[j], k) {
      ClimbsIsLayered(g, s, i, j, k);
    }
  }

  lemma OrderIsPermutation(nodes: seq<Node>, order: seq<Id>)
    requires DistinctIds(nodes) && KahnOrder(nodes, order)
    ensures multiset(order) == multiset(Ids(nodes))
  {
    GraphAt(nodes);
    SameElements(order, Ids(nodes));
  }

  lemma {:induction false} SameElements(a: seq<Id>, b: seq<Id>)
    requires Distinct(a) && Distinct(b) && Elements(a) == Elements(b)
    ensures multiset(a) == multiset(b)
  {
    forall x ensures multiset(a)[x] == multiset(b)[x] {
      OnceIfDistinct(a, x);
      OnceIfDistinct(b, x);
      assert x in a <==> x in Elements(a);
      assert x in b <==> x in Elements(b);
    }
  }

  lemma {:induction false} OnceIfDistinct(s: seq<Id>, x: Id)
    requires Distinct(s)
    ensures multiset(s)[x] == if x in s then 1 else 0
  {
    if s == [] {
    } else {
      var init, last := s[..|s| - 1], s[|s| - 1];
      assert s == init + [last];
      OnceIfDistinct(init, x);
    }
  }

  /** The promise leaves no choice: any two orders that keep it are the same. */
  lemma {:induction false} OrderIsUnique(nodes: seq<Node>, a: seq<Id>, b: seq<Id>, n: nat)
    requires DistinctIds(nodes) && KahnOrder(nodes, a) && KahnOrder(nodes, b) && n <= |a|
    ensures |a| == |b| && a[..n] == b[..n]
  {
    DistinctCard(a);
    DistinctCard(b);
    if n > 0 {
      OrderIsUnique(nodes, a, b, n - 1);
      NextIsUnique(nodes, a, b, n - 1);
    }
  }

  lemma SameLastDependency(nodes: seq<Node>, a: seq<Id>, b: seq<Id>, n: nat, x: Id)
    requires KahnOrder(nodes, a) && KahnOrder(nodes, b) && n < |a| == |b| && a[..n] == b[..n]
    requires x in GraphOf(nodes) && a[n] == x
    ensures LastDependency(a, GraphOf(nodes)[x]) == LastDependency(b, GraphOf(nodes)[x]) < n
  {
    var g := GraphOf(nodes);
    var p, q := LastDependency(a, g[x]), LastDependency(b, g[x]);
    if p >= 0 {
      LastDependencyStandsBefore(nodes, a, n, p);
      assert a[..n][p] == b[..n][p];
    }
    if q >= 0 {
      assert b[q] in Elements(b);
      var r := DependencyStandsBefore(nodes, a, n, b[q]);
      assert a[..n][r] == b[..n][r];
      assert r == q;
    }
  }

  /** What stands at n in a stands beyond n in b, if b agrees with a up to n but not at n. */
  lemma StandsBeyond(a: seq<Id>, b: seq<Id>, n: nat) returns (i: nat)
    requires n < |a| == |b| && a[..n] == b[..n] && a[n] != b[n]
    requires a[n] !in a[..n] && a[n] in b
    ensures n < i < |b| && b[i] == a[n]
  {
    forall k | 0 <= k < n ensures b[k] != a[n] {
      assert b[..n][k] == b[k];
    }
    i :| 0 <= i < |b| && b[i] == a[n];
  }

  lemma NextIsUnique(nodes: seq<Node>, a: seq<Id>, b: seq<Id>, n: nat)
    requires KahnOrder(nodes, a) && KahnOrder(nodes, b)
    requires n < |a| == |b| && a[..n] == b[..n]
    ensures a[n] == b[n]
  {
    if a[n] != b[n] {
      NotInPrefix(a, n);
      NotInPrefix(b, n);
      assert a[n] in Elements(b) && b[n] in Elements(a) by { assert a[n] in Elements(a) && b[n] in Elements(b); }
      var i := StandsBeyond(a, b, n);
      var j := StandsBeyond(b, a, n);
      ReleaseOrder(nodes, a, n, j);
      ReleaseOrder(nodes, b, n, i);
      SameLastDependency(nodes, a, b, n, a[n]);
      SameLastDependency(nodes, b, a, n, b[n]);
    }
  }

  lemma Member(nodes: seq<Node>, s: seq<Id>, i: nat)
    requires KahnOrder(nodes, s) && i < |s|
    ensures s[i] in GraphOf(nodes)
  {
  }

  lemma ReleaseOrder(nodes: seq<Node>, s: seq<Id>, i: nat, j: nat)
    requires KahnOrder(nodes, s) && i < j < |s|
    ensures s[i] in GraphOf(nodes) && s[j] in GraphOf(nodes)
    ensures ReleasedBefore(GraphOf(nodes), Ids(nodes), s, s[i], s[j])
  {
  }

  /** With nothing to wait for, the order is the input order. */
  lemma IndependentKeepInputOrder(nodes: seq<Node>, order: seq<Id>)
    requires DistinctIds(nodes) && KahnOrder(nodes, order)
    requires forall a, b :: !Edge(GraphOf(nodes), a, b)
    ensures order == Ids(nodes)
  {
    var ids := Ids(nodes);
    GraphAt(nodes);
    InputOrderIsKahn(nodes);
    OrderIsUnique(nodes, order, ids, |order|);
    assert order[..|order|] == order && ids[..|order|] == ids;
  }

  /** Two services with the same dependencies come in input order. */
  lemma SameDependenciesKeepInputOrder(nodes: seq<Node>, order: seq<Id>, i: nat, j: nat, p: nat, q: nat)
    requires DistinctIds(nodes) && KahnOrder(nodes, order)
    requires i < |nodes| && j < |nodes| && nodes[i].dependsOn == nodes[j].dependsOn
    requires p < |order| && q < |order| && order[p] == nodes[i].id && order[q] == nodes[j].id
    ensures p < q <==> i < j
  {
    var ids := Ids(nodes);
    GraphAt(nodes);
    PositionAt(ids, i);
    PositionAt(ids, j);
    if p < q {
      ReleaseOrder(nodes, order, p, q);
    } else if q < p {
      ReleaseOrder(nodes, order, q, p);
    }
  }

  lemma InputOrderIsKahn(nodes: seq<Node>)
    requires DistinctIds(nodes)
    requires forall a, b :: !Edge(GraphOf(nodes), a, b)
    ensures KahnOrder(nodes, Ids(nodes))
  {
    var g, ids := GraphOf(nodes), Ids(nodes);
    GraphAt(nodes);
    forall i | 0 <= i < |ids|
      ensures ids[i] in g && LastDependency(ids, g[ids[i]]) == -1 && Position(ids, ids[i]) == i
    {
      assert ids[i] in Elements(ids);
      NoDependency(g, ids, ids[i]);
      PositionAt(ids, i);
    }
    forall i, j | 0 <= i < j < |ids| ensures ReleasedBefore(g, ids, ids, ids[i], ids[j]) {}
  }

  lemma NoDependency(g: Graph, ids: seq<Id>, x: Id)
    requires x in g && Elements(ids) == g.Keys
    requires forall b :: !Edge(g, x, b)
    ensures LastDependency(ids, g[x]) == -1
  {
    var p := LastDependency(ids, g[x]);
    if p >= 0 {
      assert ids[p] in Elements(ids);
      assert Edge(g, x, ids[p]);
    }
  }
}
