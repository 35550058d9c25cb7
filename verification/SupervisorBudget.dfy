/**
 The restart budget: the supervisor keeps only the recent restart times of a chain of
 automatic restarts, yet decides as if it had kept them all.
 */
module SupervisorBudget {
  import opened Wrappers
  import opened Services
  import opened Supervisor

  /** The times of all automatic restarts that led to attempt n, oldest first. */
  ghost function History(attempts: seq<Attempt>, n: nat): seq<int>
    requires n < |attempts|
    decreases n
  {
    var a := attempts[n];
    if a.parent.Some? && a.parent.value < n then History(attempts, a.parent.value) + [a.grantedAt] else []
  }

  ghost predicate AllUpTo(times: seq<int>, t: int) {
    forall i :: 0 <= i < |times| ==> times[i] <= t
  }

  ghost predicate BudgetAt(s: State, n: nat)
    requires n < |s.attempts|
  {
    var a := s.attempts[n];
    && a.restartTimes == Recent(History(s.attempts, n), a.decidedAt, a.svc.restartWindow)
    && AllUpTo(History(s.attempts, n), a.decidedAt)
    && (a.parent.Some? ==> a.parent.value < n && |a.restartTimes| <= a.svc.maxRestarts && a.decidedAt <= s.clock)
    && (a.phase.Reaped? ==> a.phase.at <= s.clock)
  }

  ghost predicate Budgeted(s: State) {
    forall n :: 0 <= n < |s.attempts| ==> BudgetAt(s, n)
  }

  // ------------------------------------------------------------------------ pruning

  /** Under a clock that never runs backwards, pruning again later forgets nothing that counts. */
  lemma {:induction false} RecentTwice(h: seq<int>, now: int, later: int, window: int)
    requires now <= later
    ensures Recent(Recent(h, now, window), later, window) == Recent(h, later, window)
  {
    if h == [] {
    } else {
      var init, last := h[..|h| - 1], h[|h| - 1];
      RecentTwice(init, now, later, window);
      var kept := Recent(init, now, window);
      if last > now - Window(window) {
        assert (kept + [last])[..|kept|] == kept;
      } else {
        assert kept + [] == kept;
      }
    }
  }

  lemma RecentAppend(h: seq<int>, x: int, now: int, window: int)
    ensures Recent(h + [x], now, window) == Recent(h, now, window) + if x > now - Window(window) then [x] else []
  {
  }

  lemma {:induction false} RecentShrinks(h: seq<int>, now: int, later: int, window: int)
    requires now <= later
    ensures |Recent(h, later, window)| <= |Recent(h, now, window)|
  {
    if h == [] {
    } else {
      RecentShrinks(h[..|h| - 1], now, later, window);
    }
  }

  lemma CountOneMore(h: seq<int>, after: int, upTo: int)
    requires h != []
    ensures var last := |h| - 1;
      |set i | 0 <= i < |h| && after < h[i] <= upTo|
        == |set i | 0 <= i < last && after < h[..last][i] <= upTo| + if after < h[last] <= upTo then 1 else 0
  {
    var last := |h| - 1;
    var (before, all) := (set i | 0 <= i < last && after < h[..last][i] <= upTo,
      set i | 0 <= i < |h| && after < h[i] <= upTo);
    if after < h[last] <= upTo {
      assert all == before + {last};
    } else {
      assert all == before;
    }
  }

  /** Pruning counts the entries in the window, each for itself. */
  lemma {:induction false} RecentCounts(h: seq<int>, now: int, window: int)
    requires AllUpTo(h, now)
    ensures var w := if window > 0 then window else 60_000_000_000;
      |Recent(h, now, window)| == |set i | 0 <= i < |h| && now - w < h[i] <= now|
  {
    var w := if window > 0 then window else 60_000_000_000;
    if h == [] {
      assert (set i | 0 <= i < |h| && now - w < h[i] <= now) == {};
    } else {
      RecentCounts(h[..|h| - 1], now, window);
      CountOneMore(h, now - w, now);
    }
  }

  // ------------------------------------------------------------- every step keeps it

  lemma {:induction false} HistoryUnchanged(a: seq<Attempt>, b: seq<Attempt>, n: nat)
    requires n < |a| <= |b|
    requires forall i :: 0 <= i < |a| ==> a[i].parent == b[i].parent && a[i].grantedAt == b[i].grantedAt
    ensures History(a, n) == History(b, n)
    decreases n
  {
    if a[n].parent.Some? && a[n].parent.value < n {
      HistoryUnchanged(a, b, a[n].parent.value);
    }
  }

  /** A step changes no attempt's place in its chain, its times or its budget. */
  lemma StepKeepsBudgetFields(s: State, step: Step, i: nat)
    requires Enabled(s, step) && i < |s.attempts|
    ensures var t := Apply(s, step);
      && |s.attempts| <= |t.attempts| && s.clock <= t.clock
      && (var a, b := s.attempts[i], t.attempts[i];
          && a.parent == b.parent && a.grantedAt == b.grantedAt && a.decidedAt == b.decidedAt
          && a.restartTimes == b.restartTimes
          && a.svc.restartWindow == b.svc.restartWindow && a.svc.maxRestarts == b.svc.maxRestarts
          && (b.phase.Reaped? ==> b.phase == a.phase || b.phase.at == t.clock))
  {
  }

  /** The pruned list and the full history lead to the same decision. */
  lemma SeesTheFullHistory(s: State, n: nat, at: int)
    requires n < |s.attempts| && BudgetAt(s, n) && s.attempts[n].phase.Reaped? && at >= s.clock
    ensures var a := s.attempts[n];
      Recent(a.restartTimes + [a.phase.at], at, a.svc.restartWindow)
        == Recent(History(s.attempts, n) + [a.phase.at], at, a.svc.restartWindow)
  {
    var a, h := s.attempts[n], History(s.attempts, n);
    RecentAppend(a.restartTimes, a.phase.at, at, a.svc.restartWindow);
    RecentAppend(h, a.phase.at, at, a.svc.restartWindow);
    if a.parent.Some? {
      RecentTwice(h, a.decidedAt, at, a.svc.restartWindow);
    }
  }

  lemma NewcomerIsBudgeted(s: State, step: Step)
    requires Budgeted(s) && Enabled(s, step) && |Apply(s, step).attempts| > |s.attempts|
    ensures |Apply(s, step).attempts| == |s.attempts| + 1 && BudgetAt(Apply(s, step), |s.attempts|)
  {
    if step.Settle? {
      assert BudgetAt(s, step.n);
      GrantIsBudgeted(s, step.n, step.at);
    }
  }

  lemma GrantIsBudgeted(s: State, n: nat, at: int)
    requires Enabled(s, Settle(n, at)) && BudgetAt(s, n) && Decide(s.attempts[n], at).Grant?
    ensures var t := Apply(s, Settle(n, at)); |t.attempts| == |s.attempts| + 1 && BudgetAt(t, |s.attempts|)
  {
    var t, k := Apply(s, Settle(n, at)), |s.attempts|;
    SeesTheFullHistory(s, n, at);
    HistoryUnchanged(s.attempts, t.attempts, n);
    assert History(t.attempts, k) == History(s.attempts, n) + [s.attempts[n].phase.at];
  }

  lemma StepKeepsBudget(s: State, step: Step)
    requires Budgeted(s) && Enabled(s, step)
    ensures Budgeted(Apply(s, step))
  {
    var t := Apply(s, step);
    forall n | 0 <= n < |t.attempts| ensures BudgetAt(t, n) {
      if n < |s.attempts| {
        assert BudgetAt(s, n);
        forall i | 0 <= i < |s.attempts|
          ensures |s.attempts| <= |t.attempts|
          ensures s.attempts[i].parent == t.attempts[i].parent && s.attempts[i].grantedAt == t.attempts[i].grantedAt
        {
          StepKeepsBudgetFields(s, step, i);
        }
        StepKeepsBudgetFields(s, step, n);
        HistoryUnchanged(s.attempts, t.attempts, n);
      } else {
        NewcomerIsBudgeted(s, step);
      }
    }
  }

  lemma {:induction false} RunKeepsBudget(s: State, steps: seq<Step>, t: State)
    requires Budgeted(s) && AnyRun(s, steps, t)
    ensures Budgeted(t)
    decreases |steps|
  {
    if steps == [] {
    } else {
      StepKeepsBudget(s, steps[0]);
      RunKeepsBudget(Apply(s, steps[0]), steps[1..], t);
    }
  }

  // --------------------------------------------------------------------- the promise

  /**
   At any instant from the decision on, the automatic restarts of the chain that lie in the
   window ending at that instant number at most MaxRestarts.
   */
  lemma BudgetIsKept(s: State, steps: seq<Step>, t: State, n: nat, now: int)
    requires s.attempts == [] && AnyRun(s, steps, t)
    requires n < |t.attempts| && t.attempts[n].parent.Some? && now >= t.attempts[n].decidedAt
    ensures var (h, svc) := (History(t.attempts, n), t.attempts[n].svc);
      && (forall i :: 0 <= i < |h| ==> h[i] <= now)
      && var w := if svc.restartWindow > 0 then svc.restartWindow else 60_000_000_000;
         |set i | 0 <= i < |h| && now - w < h[i] <= now| <= svc.maxRestarts
  {
    RunKeepsBudget(s, steps, t);
    assert BudgetAt(t, n);
    var (h, svc) := (History(t.attempts, n), t.attempts[n].svc);
    RecentShrinks(h, t.attempts[n].decidedAt, now, svc.restartWindow);
    RecentCounts(h, now, svc.restartWindow);
  }

  /**
   A process that ended on its own and whose policy asks for it is restarted exactly when the
   full history, this restart included, stays within the budget.
   */
  lemma RestartIffWithinBudget(s: State, steps: seq<Step>, t: State, n: nat, at: int)
    requires s.attempts == [] && AnyRun(s, steps, t)
    requires n < |t.attempts| && t.attempts[n].phase.Reaped? && at >= t.clock
    ensures var (a, h) := (t.attempts[n], History(t.attempts, n) + [t.attempts[n].phase.at]);
      var w := if a.svc.restartWindow > 0 then a.svc.restartWindow else 60_000_000_000;
      Decide(a, at).Grant? <==>
        && !a.phase.deliberate
        && (a.svc.restartPolicy == Always || (a.svc.restartPolicy == OnFailure && a.phase.code != 0))
        && |set i | 0 <= i < |h| && at - w < h[i] <= at| <= a.svc.maxRestarts
  {
    RunKeepsBudget(s, steps, t);
    GrantIff(t, n, at);
  }

  lemma GrantIff(s: State, n: nat, at: int)
    requires n < |s.attempts| && BudgetAt(s, n) && s.attempts[n].phase.Reaped? && at >= s.clock
    ensures var (a, h) := (s.attempts[n], History(s.attempts, n) + [s.attempts[n].phase.at]);
      var w := if a.svc.restartWindow > 0 then a.svc.restartWindow else 60_000_000_000;
      Decide(a, at).Grant? <==>
        && !a.phase.deliberate
        && (a.svc.restartPolicy == Always || (a.svc.restartPolicy == OnFailure && a.phase.code != 0))
        && |set i | 0 <= i < |h| && at - w < h[i] <= at| <= a.svc.maxRestarts
  {
    SeesTheFullHistory(s, n, at);
    var (a, h) := (s.attempts[n], History(s.attempts, n) + [s.attempts[n].phase.at]);
    assert AllUpTo(h, at);
    RecentCounts(h, at, a.svc.restartWindow);
  }
}
