/**
 When a fresh start is safe. The check that nothing is running and the entry in the live
 table are separate critical sections, and the waiter of an ended process acts after taking
 it out of the table; so a start that passes its check is harmless exactly when nothing of
 an earlier attempt is left to do.
 */
module SupervisorGap {
  import opened Wrappers
  import opened Services
  import opened Supervisor
  import opened SupervisorSafety

  /** Every way things can go on after this fresh start, without yet another one, stays good. */
  ghost predicate StartIsSafe(s: State, svc: Service)
    requires Enabled(s, Begin(svc))
  {
    forall steps, t :: Run(Apply(s, Begin(svc)), steps, t) ==> Good(t)
  }

  lemma RunOne(s: State, step: Step)
    requires Enabled(s, step) && Orderly(s, step)
    ensures Run(s, [step], Apply(s, step))
  {
  }

  lemma RunCons(s: State, step: Step, rest: seq<Step>, u: State)
    requires Enabled(s, step) && Orderly(s, step) && Run(Apply(s, step), rest, u)
    ensures Run(s, [step] + rest, u)
  {
    assert ([step] + rest)[1..] == rest;
  }

  lemma {:induction false} RunAppend(s: State, steps: seq<Step>, t: State, more: seq<Step>, u: State)
    requires Run(s, steps, t) && Run(t, more, u)
    ensures Run(s, steps + more, u)
    decreases |steps|
  {
    if steps == [] {
      assert steps + more == more;
    } else {
      RunAppend(Apply(s, steps[0]), steps[1..], t, more, u);
      RunCons(s, steps[0], steps[1..] + more, u);
      assert steps + more == [steps[0]] + (steps[1..] + more);
    }
  }

  lemma Extend(s: State, steps: seq<Step>, t: State, step: Step) returns (longer: seq<Step>)
    requires Run(s, steps, t) && Enabled(t, step) && !step.Begin? && !step.Relaunch?
    ensures Run(s, longer, Apply(t, step))
  {
    longer := steps + [step];
    RunOne(t, step);
    RunAppend(s, steps, t, [step], Apply(t, step));
  }

  lemma SafeWhenResting(s: State, svc: Service)
    requires Sound(s) && Enabled(s, Begin(svc)) && Resting(s)
    ensures StartIsSafe(s, svc)
  {
    StepKeepsSound(s, Begin(svc));
    forall steps, t | Run(Apply(s, Begin(svc)), steps, t) ensures Good(t) {
      RunKeepsSound(Apply(s, Begin(svc)), steps, t);
      SoundIsGood(t);
    }
  }

  /** Two attempts that both still can get a process end up with two processes. */
  lemma TwoProcesses(s: State, steps: seq<Step>, t: State, i: nat, j: nat) returns (longer: seq<Step>, u: State)
    requires Run(s, steps, t) && i < j < |t.attempts|
    requires t.attempts[i].phase in {Checked, Spawned} && t.attempts[j].phase == Checked
    ensures Run(s, longer, u) && !Good(u)
  {
    longer, u := steps, t;
    if u.attempts[i].phase == Checked {
      longer := Extend(s, longer, u, Spawn(i, 1, u.clock));
      u := Apply(u, Spawn(i, 1, u.clock));
    }
    longer := Extend(s, longer, u, Spawn(j, 1, u.clock));
    u := Apply(u, Spawn(j, 1, u.clock));
    assert HoldsProcess(u.attempts[i]) && HoldsProcess(u.attempts[j]);
  }

  /** What the last attempt still has to do when a start passes its check although the id is not at rest. */
  lemma NotResting(s: State, svc: Service)
    requires Sound(s) && Enabled(s, Begin(svc)) && !Resting(s)
    ensures s.attempts != []
    ensures var k := |s.attempts| - 1;
      || s.attempts[k].phase in {Checked, Spawned}
      || s.attempts[k].phase.Reaped?
      || (s.attempts[k].phase.Aborted? && k > 0 && s.attempts[k - 1].phase == Restarting(k))
  {
    var k := |s.attempts| - 1;
    assert LinkedAt(s, k);
    assert k > 0 ==> LinkedAt(s, k - 1);
  }

  /** From s a fresh start went all the way to a live process; nothing else happened. */
  ghost predicate InTheGap(s: State, t: State) {
    var n := |s.attempts|;
    && |t.attempts| == n + 1 && (forall i :: 0 <= i < n ==> t.attempts[i] == s.attempts[i])
    && t.attempts[n].phase == Live && t.entry == Some(n) && t.clock == s.clock
  }

  /** The new process gets listed and saved before the old waiter writes its outcome over it. */
  lemma StartInTheGap(s: State, svc: Service) returns (steps: seq<Step>, t: State)
    requires Enabled(s, Begin(svc))
    ensures Run(Apply(s, Begin(svc)), steps, t) && InTheGap(s, t)
  {
    var n := |s.attempts|;
    var start := Apply(s, Begin(svc));
    assert Run(start, [], start);
    steps := Extend(start, [], start, Spawn(n, 1, s.clock));
    t := Apply(start, Spawn(n, 1, s.clock));
    steps := Extend(start, steps, t, List(n));
    t := Apply(t, List(n));
    steps := Extend(start, steps, t, SaveStarted(n));
    t := Apply(t, SaveStarted(n));
  }

  /** The saved row says stopped or failed although the process is live and nothing is left to do. */
  lemma OverwrittenIsBad(u: State)
    requires Quiet(u) && u.entry.Some? && u.row.Some? && u.row.value.status != Running
    ensures !Good(u)
  {
  }

  /** Attempt m was saved late; before it all is as it was, after it nothing is left to do. */
  ghost predicate SavedLate(s: State, u: State, m: nat) {
    && m < |s.attempts| && |u.attempts| == |s.attempts| + 1
    && (forall i :: 0 <= i < m ==> u.attempts[i] == s.attempts[i])
    && u.attempts[m].phase == Saved
    && (forall i :: m < i < |u.attempts| ==> u.attempts[i].phase == Live || u.attempts[i].phase == Aborted)
    && u.entry.Some? && u.row.Some? && u.row.value.status != Running
  }

  lemma FinishedBeforeLate(s: State, u: State, m: nat, i: nat)
    requires SavedLate(s, u, m) && i < m && LinkedAt(s, i)
    requires Finished(s, i) || s.attempts[i].phase == Restarting(i + 1)
    requires m >= |s.attempts| - 2 && (i + 1 < m ==> Finished(s, i))
    ensures Finished(u, i)
  {
  }

  lemma LateIsBad(s: State, u: State, m: nat)
    requires Sound(s) && SavedLate(s, u, m) && m >= |s.attempts| - 2
    ensures !Good(u)
  {
    forall i | 0 <= i < |u.attempts| ensures u.attempts[i].phase.Live? || Finished(u, i) {
      if i < m {
        assert LinkedAt(s, i);
        assert Finished(s, i) || (i == |s.attempts| - 2 && s.attempts[i].phase == Restarting(i + 1));
        FinishedBeforeLate(s, u, m, i);
      }
    }
    OverwrittenIsBad(u);
  }

  lemma SettlesLate(s: State, t: State)
    requires InTheGap(s, t) && s.attempts != [] && Last(s).phase.Reaped? && Decide(Last(s), s.clock).GiveUp?
    ensures var late := Settle(|s.attempts| - 1, s.clock);
      Enabled(t, late) && SavedLate(s, Apply(t, late), |s.attempts| - 1)
  {
  }

  lemma FailsLate(s: State, t: State)
    requires InTheGap(s, t) && |s.attempts| >= 2
    requires Last(s).phase == Aborted && s.attempts[|s.attempts| - 2].phase == Restarting(|s.attempts| - 1)
    ensures var late := RestartFails(|s.attempts| - 2);
      Enabled(t, late) && SavedLate(s, Apply(t, late), |s.attempts| - 2)
  {
  }

  /** The old attempt can still get a process, and so can the new one. */
  lemma UnsafeWhileStarting(s: State, svc: Service) returns (steps: seq<Step>, u: State)
    requires Enabled(s, Begin(svc)) && s.attempts != [] && Last(s).phase in {Checked, Spawned}
    ensures Run(Apply(s, Begin(svc)), steps, u) && !Good(u)
  {
    var start, k := Apply(s, Begin(svc)), |s.attempts| - 1;
    assert Run(start, [], start);
    steps, u := TwoProcesses(start, [], start, k, k + 1);
  }

  /** The old waiter restarts its process after the new start was checked. */
  lemma UnsafeWhileGranting(s: State, svc: Service) returns (steps: seq<Step>, u: State)
    requires Enabled(s, Begin(svc)) && s.attempts != []
    requires Last(s).phase.Reaped? && Decide(Last(s), s.clock).Grant?
    ensures Run(Apply(s, Begin(svc)), steps, u) && !Good(u)
  {
    var start, k := Apply(s, Begin(svc)), |s.attempts| - 1;
    assert Run(start, [], start);
    steps := Extend(start, [], start, Settle(k, s.clock));
    steps, u := TwoProcesses(start, steps, Apply(start, Settle(k, s.clock)), k + 1, k + 2);
  }

  /** The old waiter saves its outcome over the new process. */
  lemma UnsafeWhileGivingUp(s: State, svc: Service) returns (steps: seq<Step>, u: State)
    requires Sound(s) && Enabled(s, Begin(svc)) && s.attempts != []
    requires Last(s).phase.Reaped? && Decide(Last(s), s.clock).GiveUp?
    ensures Run(Apply(s, Begin(svc)), steps, u) && !Good(u)
  {
    var k := |s.attempts| - 1;
    steps, u := StartInTheGap(s, svc);
    SettlesLate(s, u);
    steps := Extend(Apply(s, Begin(svc)), steps, u, Settle(k, s.clock));
    u := Apply(u, Settle(k, s.clock));
    LateIsBad(s, u, k);
  }

  /** The old waiter saves its failed restart over the new process. */
  lemma UnsafeWhileFailing(s: State, svc: Service) returns (steps: seq<Step>, u: State)
    requires Sound(s) && Enabled(s, Begin(svc)) && |s.attempts| >= 2
    requires Last(s).phase == Aborted && s.attempts[|s.attempts| - 2].phase == Restarting(|s.attempts| - 1)
    ensures Run(Apply(s, Begin(svc)), steps, u) && !Good(u)
  {
    var k := |s.attempts| - 1;
    steps, u := StartInTheGap(s, svc);
    FailsLate(s, u);
    steps := Extend(Apply(s, Begin(svc)), steps, u, RestartFails(k - 1));
    u := Apply(u, RestartFails(k - 1));
    LateIsBad(s, u, k - 1);
  }

  lemma UnsafeUnlessResting(s: State, svc: Service) returns (steps: seq<Step>, u: State)
    requires Sound(s) && Enabled(s, Begin(svc)) && !Resting(s)
    ensures Run(Apply(s, Begin(svc)), steps, u) && !Good(u)
  {
    NotResting(s, svc);
    if Last(s).phase in {Checked, Spawned} {
      steps, u := UnsafeWhileStarting(s, svc);
    } else if Last(s).phase.Aborted? {
      steps, u := UnsafeWhileFailing(s, svc);
    } else if Decide(Last(s), s.clock).GiveUp? {
      steps, u := UnsafeWhileGivingUp(s, svc);
    } else {
      steps, u := UnsafeWhileGranting(s, svc);
    }
  }

  /** A start that passed its check is safe exactly when nothing of an earlier attempt is left to do. */
  lemma StartIsSafeIffResting(s: State, svc: Service)
    requires Sound(s) && Enabled(s, Begin(svc))
    ensures StartIsSafe(s, svc) <==> Resting(s)
  {
    if Resting(s) {
      SafeWhenResting(s, svc);
    } else {
      var steps, u := UnsafeUnlessResting(s, svc);
    }
  }

  /** A concrete run into the gap: start, end with code 0, and a second start before the outcome is saved. */
  lemma GapExample(svc: Service)
    requires svc.restartPolicy == Never
    ensures var first := State(None, None, [], 0);
      exists steps, s :: Run(first, steps, s) && Sound(s) && Enabled(s, Begin(svc)) && !StartIsSafe(s, svc)
  {
    var first := State(None, None, [], 0);
    RunOne(first, Begin(svc));
    var steps, live := StartInTheGap(first, svc);
    RunAppend(first, [Begin(svc)], Apply(first, Begin(svc)), steps, live);
    steps := Extend(first, [Begin(svc)] + steps, live, Reap(0, 0, 0));
    var s := Apply(live, Reap(0, 0, 0));
    RunKeepsSound(first, steps, s);
    StartIsSafeIffResting(s, svc);
  }
}
