/** What the supervisor records: starts, ends, decisions, each spelled out once more in plain terms. */
module SupervisorOutcomes {
  import opened Wrappers
  import opened Services
  import opened Supervisor

  /** The decision, case by case; the budget case counts the pruned list with this end in it. */
  lemma DecisionMeans(a: Attempt, now: int)
    requires a.phase.Reaped?
    ensures var wanted := a.svc.restartPolicy == Always || (a.svc.restartPolicy == OnFailure && a.phase.code != 0);
      && (a.phase.deliberate ==> Decide(a, now) == GiveUp(Stopped))
      && (!a.phase.deliberate && !wanted ==> Decide(a, now) == GiveUp(if a.phase.code == 0 then Stopped else Failed))
      && (!a.phase.deliberate && wanted ==> Decide(a, now) == GiveUp(Failed) || Decide(a, now).Grant?)
  {
  }

  /** A process that came up is in the live table, and its row says running with its pid and start. */
  lemma StartIsRecorded(s: State, n: nat, pid: int, at: int)
    requires Enabled(s, Spawn(n, pid, at))
    ensures var s1 := Apply(s, Spawn(n, pid, at));
      Enabled(s1, List(n)) && Enabled(Apply(s1, List(n)), SaveStarted(n))
    ensures var t := Apply(Apply(Apply(s, Spawn(n, pid, at)), List(n)), SaveStarted(n));
      && t.entry == Some(n) && t.clock == at && t.row.Some?
      && (var (row, svc) := (t.row.value, s.attempts[n].svc);
          && row.id == svc.id && row.command == svc.command && row.details == svc.details
          && row.status == Running && row.pid == pid
          && row.startedAt == Some(at - at % 1_000_000_000) && row.exitedAt == None && row.exitCode == None)
  {
  }

  /** An end that is not followed by a restart is saved with its code and time, and no pid. */
  lemma EndIsRecorded(s: State, n: nat, code: int, at: int, now: int)
    requires Enabled(s, Reap(n, code, at)) && now >= at
    ensures var r := Apply(s, Reap(n, code, at));
      && r.entry == None && r.clock == at && Enabled(r, Settle(n, now))
      && r.attempts[n].phase == Reaped(s.attempts[n].stopRequested, code, at)
      && (Decide(r.attempts[n], now).GiveUp? ==>
            var t := Apply(r, Settle(n, now));
            && t.entry == None && t.clock == now && t.row.Some? && t.attempts[n].phase == Saved
            && t.row.value.id == s.attempts[n].svc.id
            && t.row.value.status == Decide(r.attempts[n], now).status && t.row.value.pid == 0
            && t.row.value.exitCode == Some(code) && t.row.value.exitedAt == Some(at - at % 1_000_000_000))
  {
  }

  /** A granted restart is a new attempt at the same service, which remembers the end it follows. */
  lemma RestartIsRecorded(s: State, n: nat, now: int)
    requires Enabled(s, Settle(n, now)) && Decide(s.attempts[n], now).Grant?
    ensures var (t, k, a) := (Apply(s, Settle(n, now)), |s.attempts|, s.attempts[n]);
      && |t.attempts| == k + 1 && t.attempts[n].phase == Restarting(k) && t.row == s.row && t.entry == s.entry
      && (var child := t.attempts[k];
          && child.phase == Checked && !child.stopRequested && child.parent == Some(n)
          && child.grantedAt == a.phase.at && child.decidedAt == now
          && child.svc == a.svc.(pid := 0, exitCode := Some(a.phase.code), exitedAt := Some(a.phase.at)))
  {
  }

  /** A restart that got no process is saved as a failure of the same service. */
  lemma FailedRestartIsRecorded(s: State, n: nat)
    requires Enabled(s, RestartFails(n))
    ensures var t := Apply(s, RestartFails(n));
      && t.row.Some? && t.row.value.status == Failed && t.attempts[n].phase == Saved && t.entry == s.entry
      && t.row.value.id == s.attempts[s.attempts[n].phase.child].svc.id
  {
  }

  /** A fresh start and a restart after Stop begin anew, with an empty restart history. */
  lemma FreshStartIsFresh(s: State, svc: Service, n: nat)
    ensures Enabled(s, Begin(svc)) ==>
      Apply(s, Begin(svc)) == s.(attempts := s.attempts + [Attempt(svc, Checked, false, [], None, 0, 0, None)])
    ensures Enabled(s, Relaunch(n)) ==>
      Apply(s, Relaunch(n)).attempts ==
        s.attempts + [Attempt(s.attempts[n].svc, Checked, false, [], None, 0, 0, None)]
  {
  }
}
