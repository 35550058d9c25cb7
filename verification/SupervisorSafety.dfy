/** What every run of the supervisor keeps, for one service id. */
module SupervisorSafety {
  import opened Wrappers
  import opened Services
  import opened Supervisor

  // -------------------------------------------------------------------- the invariant

  /** Nothing is left to do for attempt i, except perhaps releasing those who wait in Stop. */
  predicate Finished(s: State, i: nat)
    requires i < |s.attempts|
  {
    match s.attempts[i].phase
    case Aborted => true
    case Saved => true
    case Closed => true
    case Restarting(c) => c < |s.attempts| && HasStarted(s.attempts[c].phase)
    case _ => false
  }

  /** Only the last attempt may be under way; before it, at most its parent waits for it. */
  ghost predicate OneUnderWay(s: State) {
    forall i :: 0 <= i < |s.attempts| - 1 ==>
      Finished(s, i) || (i == |s.attempts| - 2 && s.attempts[i].phase == Restarting(i + 1))
  }

  /** A process that was asked to stop has no child. */
  predicate ParentOf(p: Attempt, a: Attempt) {
    && (p.phase.Restarting? || p.phase.Saved? || p.phase.Closed?)
    && !p.stopRequested
    && a.svc.restartPolicy == p.svc.restartPolicy && a.svc.maxRestarts == p.svc.maxRestarts
    && a.svc.restartWindow == p.svc.restartWindow
    && (a.phase.Checked? || a.phase.Spawned? || a.phase.Listed? ==> p.phase.Restarting?)
    && (a.phase.Checked? || a.phase.Aborted? ==> a.svc.pid == 0 && a.svc.exitCode == p.exit)
  }

  predicate LinkedAt(s: State, i: nat)
    requires i < |s.attempts|
  {
    var a := s.attempts[i];
    && (a.phase.Restarting? ==> a.phase.child == i + 1 < |s.attempts| && s.attempts[i + 1].parent == Some(i))
    && (a.parent.Some? ==> i > 0 && a.parent.value == i - 1 && ParentOf(s.attempts[i - 1], a))
  }

  ghost predicate Linked(s: State) {
    forall i :: 0 <= i < |s.attempts| ==> LinkedAt(s, i)
  }

  predicate Shaped(a: Attempt, clock: int) {
    && (a.phase.Spawned? || a.phase.Listed? || a.phase.Live? ==>
          a.svc.status == Running && a.svc.pid > 0 && a.svc.exitCode == None)
    && (a.exit.Some? <==> a.phase.Reaped? || a.phase.Restarting? || a.phase.Saved? || a.phase.Closed?)
    && (a.phase.Reaped? ==>
          a.phase.deliberate == a.stopRequested && a.exit == Some(a.phase.code) && a.phase.at <= clock)
    && (a.stopRequested ==> a.phase.Listed? || a.phase.Live? || a.phase.Reaped? || a.phase.Saved? || a.phase.Closed?)
  }

  ghost predicate AllShaped(s: State) {
    forall i :: 0 <= i < |s.attempts| ==> Shaped(s.attempts[i], s.clock)
  }

  function Last(s: State): Attempt
    requires s.attempts != []
  {
    s.attempts[|s.attempts| - 1]
  }

  /** The live table holds exactly the process that was listed and not yet reaped. */
  predicate EntryKept(s: State) {
    s.entry ==
      if s.attempts != [] && (Last(s).phase.Listed? || Last(s).phase.Live?) then Some(|s.attempts| - 1) else None
  }

  /** The exit code of the latest attempt that has ended. */
  function LastExit(attempts: seq<Attempt>): Option<int> {
    if attempts == [] then None
    else
      var last := attempts[|attempts| - 1];
      if last.exit.Some? then last.exit else LastExit(attempts[..|attempts| - 1])
  }

  predicate SettledRow(row: Option<Record>, code: Option<int>) {
    row.Some? && row.value.status in {Stopped, Failed} && row.value.pid == 0 && row.value.exitCode == code
  }

  /** No attempt is under way and every outcome is saved: the state in which a fresh start is in order. */
  predicate Resting(s: State) {
    s.attempts == []
    || Last(s).phase.Saved? || Last(s).phase.Closed?
    || (Last(s).phase.Aborted?
        && (|s.attempts| >= 2 && Last(s).parent.Some? ==>
              s.attempts[|s.attempts| - 2].phase.Saved? || s.attempts[|s.attempts| - 2].phase.Closed?))
  }

  predicate FreshUnderWay(s: State) {
    s.attempts != [] && Last(s).parent == None
      && (Last(s).phase.Checked? || Last(s).phase.Spawned? || Last(s).phase.Listed?)
  }

  predicate RowKept(s: State) {
    && ((Resting(s) || FreshUnderWay(s)) && LastExit(s.attempts).Some? ==> SettledRow(s.row, LastExit(s.attempts)))
    && (s.attempts != [] && Last(s).phase.Live? ==> s.row == Some(Row(Last(s).svc)))
    && (s.attempts != [] && (Last(s).phase.Saved? || Last(s).phase.Closed?) && Last(s).stopRequested ==>
          s.row.Some? && s.row.value.status == Stopped)
  }

  ghost predicate Sound(s: State) {
    OneUnderWay(s) && Linked(s) && AllShaped(s) && EntryKept(s) && RowKept(s)
  }

  predicate Initial(s: State) {
    s.attempts == [] && s.entry == None
  }

  /** One starter at a time: a fresh start begins only when nothing of an earlier one is left to do. */
  predicate Orderly(s: State, step: Step) {
    step.Begin? || step.Relaunch? ==> Resting(s)
  }

  // ---------------------------------------------------------------- every step keeps it

  /** The attempt a step works on. */
  function Subject(s: State, step: Step): nat
    requires Enabled(s, step) && !step.Begin? && !step.Relaunch?
  {
    if step.Stop? then s.entry.value else step.n
  }

  /** Every step but the late release of a finished attempt works at the end of the list. */
  lemma WorksAtTheEnd(s: State, step: Step)
    requires Sound(s) && Enabled(s, step) && !step.Begin? && !step.Relaunch?
    ensures step.RestartFails? ==> Subject(s, step) == |s.attempts| - 2
    ensures !step.RestartFails? && !step.Close? ==> Subject(s, step) == |s.attempts| - 1
  {
    var n := Subject(s, step);
    assert LinkedAt(s, n);
    assert n < |s.attempts| - 1 ==>
      Finished(s, n) || (n == |s.attempts| - 2 && s.attempts[n].phase == Restarting(n + 1));
  }

  /** A step leaves every other attempt alone. */
  lemma Frame(s: State, step: Step, i: nat)
    requires Enabled(s, step) && i < |s.attempts|
    requires !step.Begin? && !step.Relaunch? ==> i != Subject(s, step)
    ensures |Apply(s, step).attempts| >= |s.attempts| && Apply(s, step).attempts[i] == s.attempts[i]
    ensures Apply(s, step).clock >= s.clock
  {
  }

  lemma KeepsShaped(s: State, step: Step)
    requires Sound(s) && Enabled(s, step)
    ensures AllShaped(Apply(s, step))
  {
    var t := Apply(s, step);
    forall i | 0 <= i < |t.attempts| ensures Shaped(t.attempts[i], t.clock) {
      if i < |s.attempts| {
        assert Shaped(s.attempts[i], s.clock);
        if step.Begin? || step.Relaunch? || i != Subject(s, step) {
          Frame(s, step, i);
        } else {
          SubjectShaped(s, step);
        }
      } else {
        NewcomerShaped(s, step);
      }
    }
  }

  lemma SubjectShaped(s: State, step: Step)
    requires Enabled(s, step) && !step.Begin? && !step.Relaunch?
    requires EntryKept(s) && Shaped(s.attempts[Subject(s, step)], s.clock)
    ensures var t := Apply(s, step); Shaped(t.attempts[Subject(s, step)], t.clock)
  {
  }

  lemma NewcomerShaped(s: State, step: Step)
    requires Enabled(s, step) && |Apply(s, step).attempts| > |s.attempts|
    ensures var t := Apply(s, step); |t.attempts| == |s.attempts| + 1 && Shaped(t.attempts[|s.attempts|], t.clock)
  {
  }

  lemma KeepsLinked(s: State, step: Step)
    requires Sound(s) && Enabled(s, step) && Orderly(s, step)
    ensures Linked(Apply(s, step))
  {
    var t := Apply(s, step);
    if !step.Begin? && !step.Relaunch? { WorksAtTheEnd(s, step); }
    forall i | 0 <= i < |t.attempts| ensures LinkedAt(t, i) {
      if i < |s.attempts| { assert LinkedAt(s, i) && Shaped(s.attempts[i], s.clock); }
      if 0 < i <= |s.attempts| { assert LinkedAt(s, i - 1) && Shaped(s.attempts[i - 1], s.clock); }
      if i + 1 < |s.attempts| { assert LinkedAt(s, i + 1) && Shaped(s.attempts[i + 1], s.clock); }
      if step.Begin? || step.Relaunch? {
      } else if step.Settle? || step.Close? || step.RestartFails? {
        LinkedAfterWaiter(s, step, i);
      } else {
        LinkedAfterStarter(s, step, i);
      }
    }
  }

  /** What is known about attempt i and its neighbours. */
  ghost predicate Around(s: State, i: nat) {
    && (i < |s.attempts| ==> LinkedAt(s, i) && Shaped(s.attempts[i], s.clock))
    && (0 < i <= |s.attempts| ==> LinkedAt(s, i - 1) && Shaped(s.attempts[i - 1], s.clock))
    && (i + 1 < |s.attempts| ==> LinkedAt(s, i + 1) && Shaped(s.attempts[i + 1], s.clock))
  }

  lemma LinkedAfterWaiter(s: State, step: Step, i: nat)
    requires Enabled(s, step) && (step.Settle? || step.Close? || step.RestartFails?)
    requires Around(s, i) && i < |Apply(s, step).attempts|
    requires step.Settle? ==> step.n == |s.attempts| - 1
    ensures LinkedAt(Apply(s, step), i)
  {
    if step.Settle? {
      LinkedAfterSettle(s, step, i);
    }
  }

  lemma LinkedAfterSettle(s: State, step: Step, i: nat)
    requires Enabled(s, step) && step.Settle? && step.n == |s.attempts| - 1
    requires Around(s, i) && i < |Apply(s, step).attempts|
    ensures LinkedAt(Apply(s, step), i)
  {
  }

  lemma LinkedAfterStarter(s: State, step: Step, i: nat)
    requires Enabled(s, step) && !step.Begin? && !step.Relaunch? && !step.Settle? && !step.Close? && !step.RestartFails?
    requires EntryKept(s) && Around(s, i) && i < |Apply(s, step).attempts|
    requires Subject(s, step) == |s.attempts| - 1
    ensures LinkedAt(Apply(s, step), i)
  {
  }

  lemma KeepsOneUnderWay(s: State, step: Step)
    requires Sound(s) && Enabled(s, step) && Orderly(s, step)
    ensures OneUnderWay(Apply(s, step))
  {
    var t := Apply(s, step);
    if !step.Begin? && !step.Relaunch? { WorksAtTheEnd(s, step); }
    forall i | 0 <= i < |t.attempts| - 1
      ensures Finished(t, i) || (i == |t.attempts| - 2 && t.attempts[i].phase == Restarting(i + 1))
    {
      assert LinkedAt(s, i);
      if i < |s.attempts| - 1 {
        assert LinkedAt(s, i + 1);
        FinishedStays(s, step, i);
      }
    }
  }

  lemma FinishedStays(s: State, step: Step, i: nat)
    requires Sound(s) && Enabled(s, step) && Orderly(s, step) && i < |s.attempts| - 1
    requires LinkedAt(s, i) && LinkedAt(s, i + 1)
    ensures var t := Apply(s, step);
      Finished(t, i) || (i == |t.attempts| - 2 && t.attempts[i].phase == Restarting(i + 1))
  {
    assert Finished(s, i) || (i == |s.attempts| - 2 && s.attempts[i].phase == Restarting(i + 1));
    if !step.Begin? && !step.Relaunch? {
      WorksAtTheEnd(s, step);
      FinishedStaysNear(s, step, i);
    } else {
      Frame(s, step, i);
      Frame(s, step, i + 1);
    }
  }

  lemma FinishedStaysNear(s: State, step: Step, i: nat)
    requires Enabled(s, step) && !step.Begin? && !step.Relaunch? && i < |s.attempts| - 1
    requires LinkedAt(s, i) && LinkedAt(s, i + 1)
    requires Finished(s, i) || (i == |s.attempts| - 2 && s.attempts[i].phase == Restarting(i + 1))
    requires step.RestartFails? ==> Subject(s, step) == |s.attempts| - 2
    requires !step.RestartFails? && !step.Close? ==> Subject(s, step) == |s.attempts| - 1
    ensures var t := Apply(s, step);
      Finished(t, i) || (i == |t.attempts| - 2 && t.attempts[i].phase == Restarting(i + 1))
  {
    if i != Subject(s, step) { Frame(s, step, i); }
    if i + 1 != Subject(s, step) { Frame(s, step, i + 1); }
  }

  lemma KeepsEntry(s: State, step: Step)
    requires Sound(s) && Enabled(s, step) && Orderly(s, step)
    ensures EntryKept(Apply(s, step))
  {
    if !step.Begin? && !step.Relaunch? {
      WorksAtTheEnd(s, step);
      assert LinkedAt(s, Subject(s, step));
      KeepsEntryNear(s, step);
    }
  }

  lemma KeepsEntryNear(s: State, step: Step)
    requires EntryKept(s) && Enabled(s, step) && !step.Begin? && !step.Relaunch?
    requires LinkedAt(s, Subject(s, step))
    requires step.RestartFails? ==> Subject(s, step) == |s.attempts| - 2
    requires !step.RestartFails? && !step.Close? ==> Subject(s, step) == |s.attempts| - 1
    ensures EntryKept(Apply(s, step))
  {
  }

  lemma {:induction false} LastExitUnchanged(a: seq<Attempt>, b: seq<Attempt>)
    requires |a| == |b| && forall i :: 0 <= i < |a| ==> a[i].exit == b[i].exit
    ensures LastExit(a) == LastExit(b)
  {
    if a == [] {
    } else {
      LastExitUnchanged(a[..|a| - 1], b[..|b| - 1]);
    }
  }

  lemma KeepsRow(s: State, step: Step)
    requires Sound(s) && Enabled(s, step) && Orderly(s, step)
    ensures RowKept(Apply(s, step))
  {
    if step.Begin? || step.Relaunch? {
      assert Apply(s, step).attempts[..|s.attempts|] == s.attempts;
    } else {
      WorksAtTheEnd(s, step);
      if step.RestartFails? {
        KeepsRowRestartFails(s, step.n);
      } else if step.Close? {
        KeepsRowClose(s, step.n);
      } else {
        KeepsRowAtTheEnd(s, step);
      }
    }
  }

  lemma KeepsRowRestartFails(s: State, n: nat)
    requires Sound(s) && Enabled(s, RestartFails(n)) && n == |s.attempts| - 2
    ensures RowKept(Apply(s, RestartFails(n)))
  {
    var t := Apply(s, RestartFails(n));
    assert LinkedAt(s, n) && LinkedAt(s, n + 1) && Shaped(s.attempts[n], s.clock) && Shaped(s.attempts[n + 1], s.clock);
    assert t.attempts[..n + 1][n] == t.attempts[n] && t.attempts[n].exit == s.attempts[n].exit;
    assert LastExit(t.attempts) == LastExit(t.attempts[..n + 1]) == s.attempts[n].exit;
  }

  lemma KeepsRowClose(s: State, n: nat)
    requires Sound(s) && Enabled(s, Close(n))
    ensures RowKept(Apply(s, Close(n)))
  {
    var t := Apply(s, Close(n));
    assert LinkedAt(s, n) && LinkedAt(s, |s.attempts| - 1);
    LastExitUnchanged(s.attempts, t.attempts);
    RestingUnlessOver(s, n);
    KeepsRowSamePlace(s, t);
  }

  /** Releasing those who wait leaves an id at rest if it was, and under way if it was. */
  lemma RestingUnlessOver(s: State, n: nat)
    requires Enabled(s, Close(n)) && LinkedAt(s, n) && LinkedAt(s, |s.attempts| - 1)
    ensures var t := Apply(s, Close(n));
      && (Resting(t) || FreshUnderWay(t) ==> Resting(s) || FreshUnderWay(s))
      && (Last(t) == Last(s) || (Last(s).phase.Saved? && Last(t) == Last(s).(phase := Closed)))
  {
  }

  lemma KeepsRowSamePlace(s: State, t: State)
    requires RowKept(s) && t.row == s.row && LastExit(t.attempts) == LastExit(s.attempts)
    requires s.attempts != [] && t.attempts != []
    requires Resting(t) || FreshUnderWay(t) ==> Resting(s) || FreshUnderWay(s)
    requires Last(t) == Last(s) || (Last(s).phase.Saved? && Last(t) == Last(s).(phase := Closed))
    ensures RowKept(t)
  {
  }

  lemma KeepsRowAtTheEnd(s: State, step: Step)
    requires Sound(s) && Enabled(s, step) && !step.Begin? && !step.Relaunch? && !step.Close?
    requires Subject(s, step) == |s.attempts| - 1
    ensures RowKept(Apply(s, step))
  {
    var n, t := Subject(s, step), Apply(s, step);
    assert LinkedAt(s, n) && Shaped(s.attempts[n], s.clock);
    assert n > 0 ==> LinkedAt(s, n - 1);
    if step.Settle? || step.Reap? || step.SaveStarted? {
      KeepsRowWritten(s, step);
    } else {
      LastExitUnchanged(s.attempts, t.attempts);
      KeepsRowUnwritten(s, step);
    }
  }

  lemma KeepsRowWritten(s: State, step: Step)
    requires Enabled(s, step) && RowKept(s)
    requires step.Settle? || step.Reap? || step.SaveStarted?
    requires var n := Subject(s, step);
      n == |s.attempts| - 1 && LinkedAt(s, n) && Shaped(s.attempts[n], s.clock) && (n > 0 ==> LinkedAt(s, n - 1))
    ensures RowKept(Apply(s, step))
  {
    if step.Settle? {
      KeepsRowSettled(s, step);
    }
  }

  lemma KeepsRowSettled(s: State, step: Step)
    requires Enabled(s, step) && step.Settle? && step.n == |s.attempts| - 1
    requires Shaped(s.attempts[step.n], s.clock)
    ensures RowKept(Apply(s, step))
  {
  }

  lemma KeepsRowUnwritten(s: State, step: Step)
    requires Enabled(s, step) && RowKept(s) && EntryKept(s)
    requires step.SpawnFails? || step.Spawn? || step.List? || step.Stop?
    requires var n := Subject(s, step);
      n == |s.attempts| - 1 && LinkedAt(s, n) && (n > 0 ==> LinkedAt(s, n - 1))
    requires LastExit(Apply(s, step).attempts) == LastExit(s.attempts)
    ensures RowKept(Apply(s, step))
  {
  }

  lemma StepKeepsSound(s: State, step: Step)
    requires Sound(s) && Enabled(s, step) && Orderly(s, step)
    ensures Sound(Apply(s, step))
  {
    KeepsShaped(s, step);
    KeepsLinked(s, step);
    KeepsOneUnderWay(s, step);
    KeepsEntry(s, step);
    KeepsRow(s, step);
  }

  // ---------------------------------------------------------------------- whole runs

  /** steps lead from s to t, and no fresh start overlaps an earlier one. */
  ghost predicate Run(s: State, steps: seq<Step>, t: State)
    decreases |steps|
  {
    if steps == [] then s == t
    else Enabled(s, steps[0]) && Orderly(s, steps[0]) && Run(Apply(s, steps[0]), steps[1..], t)
  }

  lemma {:induction false} RunKeepsSound(s: State, steps: seq<Step>, t: State)
    requires Sound(s) && Run(s, steps, t)
    ensures Sound(t)
    decreases |steps|
  {
    if steps == [] {
    } else {
      StepKeepsSound(s, steps[0]);
      RunKeepsSound(Apply(s, steps[0]), steps[1..], t);
    }
  }

  lemma StoppedRow(t: State)
    requires RowKept(t) && EntryKept(t) && AllShaped(t) && t.attempts != []
    requires Last(t).stopRequested && (Last(t).phase.Saved? || Last(t).phase.Closed?)
    ensures t.entry == None && t.row.Some? && t.row.value.status == Stopped && t.row.value.pid == 0
  {
  }

  /** A request to stop is never forgotten, and no attempt is dropped. */
  lemma StepRemembersStop(s: State, step: Step, n: nat)
    requires Enabled(s, step) && n < |s.attempts| && s.attempts[n].stopRequested
    ensures n < |Apply(s, step).attempts| && Apply(s, step).attempts[n].stopRequested
  {
  }

  lemma {:induction false} RunRemembersStop(s: State, steps: seq<Step>, t: State, n: nat)
    requires Run(s, steps, t) && n < |s.attempts| && s.attempts[n].stopRequested
    ensures n < |t.attempts| && t.attempts[n].stopRequested
    decreases |steps|
  {
    if steps == [] {
    } else {
      StepRemembersStop(s, steps[0], n);
      RunRemembersStop(Apply(s, steps[0]), steps[1..], t, n);
    }
  }

  /**
   Once the waiter of the process that Stop found is done, and unless somebody has started the
   service anew, the live table has no entry and the row says stopped.
   */
  lemma StopLeavesItStopped(start: State, before: seq<Step>, s: State, n: nat, steps: seq<Step>, t: State)
    requires Initial(start) && Run(start, before, s)
    requires s.entry == Some(n) && Enabled(s, Stop) && Run(Apply(s, Stop), steps, t)
    requires |t.attempts| == n + 1 && (t.attempts[n].phase.Saved? || t.attempts[n].phase.Closed?)
    ensures t.entry == None && t.row.Some? && t.row.value.status == Stopped && t.row.value.pid == 0
  {
    RunKeepsSound(start, before, s);
    StopMarks(s, n);
    StoppedAtTheEnd(Apply(s, Stop), n, steps, t);
  }

  lemma StopMarks(s: State, n: nat)
    requires Sound(s) && s.entry == Some(n) && Enabled(s, Stop)
    ensures Sound(Apply(s, Stop)) && n < |Apply(s, Stop).attempts| && Apply(s, Stop).attempts[n].stopRequested
  {
    StepKeepsSound(s, Stop);
  }

  lemma StoppedAtTheEnd(s: State, n: nat, steps: seq<Step>, t: State)
    requires Sound(s) && n < |s.attempts| && s.attempts[n].stopRequested && Run(s, steps, t)
    requires |t.attempts| == n + 1 && (t.attempts[n].phase.Saved? || t.attempts[n].phase.Closed?)
    ensures t.entry == None && t.row.Some? && t.row.value.status == Stopped && t.row.value.pid == 0
  {
    RunKeepsSound(s, steps, t);
    RunRemembersStop(s, steps, t, n);
    StoppedRow(t);
  }

  predicate HoldsProcess(a: Attempt) {
    a.phase.Spawned? || a.phase.Listed? || a.phase.Live?
  }

  ghost predicate OneProcess(s: State) {
    forall i, j :: 0 <= i < j < |s.attempts| ==> !(HoldsProcess(s.attempts[i]) && HoldsProcess(s.attempts[j]))
  }

  /** No step of any attempt is half done. */
  ghost predicate Quiet(s: State) {
    forall i :: 0 <= i < |s.attempts| ==> s.attempts[i].phase.Live? || Finished(s, i)
  }

  /** The saved row tells the truth about the live table. */
  predicate Truthful(s: State) {
    && (s.entry.Some? ==>
          && s.entry.value < |s.attempts| && s.attempts[s.entry.value].phase.Live?
          && s.row.Some? && s.row.value.status == Running && s.row.value.exitCode == None
          && s.row.value.pid == s.attempts[s.entry.value].svc.pid > 0)
    && (s.entry == None && LastExit(s.attempts).Some? ==>
          s.row.Some? && s.row.value.status in {Stopped, Failed} && s.row.value.pid == 0
          && s.row.value.exitCode == LastExit(s.attempts))
  }

  ghost predicate Good(s: State) {
    OneProcess(s) && (Quiet(s) ==> Truthful(s))
  }

  lemma SoundIsGood(s: State)
    requires Sound(s)
    ensures Good(s)
  {
    forall i, j | 0 <= i < j < |s.attempts| ensures !(HoldsProcess(s.attempts[i]) && HoldsProcess(s.attempts[j])) {
      assert Finished(s, i) || (i == |s.attempts| - 2 && s.attempts[i].phase == Restarting(i + 1));
    }
    if Quiet(s) && s.attempts != [] {
      var last := |s.attempts| - 1;
      assert s.attempts[last].phase.Live? || Finished(s, last);
      assert LinkedAt(s, last) && Shaped(Last(s), s.clock);
      if last > 0 {
        assert s.attempts[last - 1].phase.Live? || Finished(s, last - 1);
        assert LinkedAt(s, last - 1) && Shaped(s.attempts[last - 1], s.clock);
      }
    }
  }

  /** In every state of every orderly run there is at most one process, and quiet rows are truthful. */
  lemma RunsAreGood(s: State, steps: seq<Step>, t: State)
    requires Initial(s) && Run(s, steps, t)
    ensures Good(t)
  {
    assert Sound(s);
    RunKeepsSound(s, steps, t);
    SoundIsGood(t);
  }
}
