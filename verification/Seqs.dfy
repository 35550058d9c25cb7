/** Facts about sequences without repetition and about pigeonholes. */
module Seqs {
  ghost predicate Distinct<T(!new)>(s: seq<T>) {
    forall i, j :: 0 <= i < j < |s| ==> s[i] != s[j]
  }

  ghost function Elements<T>(s: seq<T>): set<T> {
    set x | x in s
  }

  lemma ElementsAppend<T>(s: seq<T>, x: T)
    ensures Elements(s + [x]) == Elements(s) + {x}
  {
  }

  lemma NotInPrefix<T(!new)>(s: seq<T>, n: nat)
    requires Distinct(s) && n < |s|
    ensures s[n] !in s[..n]
  {
  }

  /** A sequence drawn from a finite set is no longer than the set unless it repeats itself. */
  lemma {:induction false} DistinctFits<T(!new)>(s: seq<T>, u: set<T>)
    requires Distinct(s) && Elements(s) <= u
    ensures |s| <= |u|
    ensures |s| == |u| ==> Elements(s) == u
  {
    if s == [] {
    } else {
      var last := s[|s| - 1];
      var init := s[..|s| - 1];
      assert s == init + [last];
      assert last in u;
      assert last !in Elements(init);
      DistinctFits(init, u - {last});
      ElementsAppend(init, last);
    }
  }

  lemma {:induction false} DistinctCard<T(!new)>(s: seq<T>)
    requires Distinct(s)
    ensures |Elements(s)| == |s|
  {
    if s == [] {
    } else {
      var init, last := s[..|s| - 1], s[|s| - 1];
      assert s == init + [last];
      DistinctCard(init);
      ElementsAppend(init, last);
      assert last !in Elements(init);
    }
  }

  /** Pigeonhole: the two positions of a repeated element. */
  lemma Pigeonhole<T(!new)>(s: seq<T>, u: set<T>) returns (i: nat, j: nat)
    requires Elements(s) <= u && |s| > |u|
    ensures i < j < |s| && s[i] == s[j]
  {
    if Distinct(s) {
      DistinctFits(s, u);
      assert false;
    }
    i, j :| 0 <= i < j < |s| && s[i] == s[j];
  }

  /** The numbers below n that satisfy keep, in ascending order. */
  ghost function Kept(n: nat, keep: nat -> bool): seq<nat> {
    if n == 0 then [] else Kept(n - 1, keep) + if keep(n - 1) then [n - 1] else []
  }

  ghost predicate Ascending(idx: seq<nat>, n: nat) {
    && (forall k :: 0 <= k < |idx| ==> idx[k] < n)
    && (forall k, m :: 0 <= k < m < |idx| ==> idx[k] < idx[m])
  }

  ghost predicate Holds(idx: seq<nat>, i: nat) {
    exists k :: 0 <= k < |idx| && idx[k] == i
  }

  /** idx lists, in ascending order and without omission, the numbers below n that satisfy keep. */
  ghost predicate Picks(idx: seq<nat>, n: nat, keep: nat -> bool) {
    Ascending(idx, n) && forall i: nat :: i < n ==> (Holds(idx, i) <==> keep(i))
  }

  lemma {:induction false} KeptAscends(n: nat, keep: nat -> bool)
    ensures Ascending(Kept(n, keep), n)
  {
    if n == 0 {
    } else {
      KeptAscends(n - 1, keep);
    }
  }

  lemma {:induction false} KeptHolds(n: nat, keep: nat -> bool, i: nat)
    requires i < n
    ensures Holds(Kept(n, keep), i) <==> keep(i)
  {
    var before := Kept(n - 1, keep);
    KeptAscends(n - 1, keep);
    if i < n - 1 {
      KeptHolds(n - 1, keep, i);
      if k :| 0 <= k < |before| && before[k] == i {
        assert Kept(n, keep)[k] == i;
      }
    } else if keep(i) {
      assert Kept(n, keep)[|before|] == i;
    }
  }

  lemma KeptPicks(n: nat, keep: nat -> bool)
    ensures Picks(Kept(n, keep), n, keep)
  {
    KeptAscends(n, keep);
    forall i: nat | i < n
      ensures Holds(Kept(n, keep), i) <==> keep(i)
    {
      KeptHolds(n, keep, i);
    }
  }
}
