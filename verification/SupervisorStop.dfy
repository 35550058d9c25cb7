/** A request to stop wins over every automatic restart, however starts and ends interleave. */
module SupervisorStop {
  import opened Wrappers
  import opened Services
  import opened Supervisor

  /** What a request to stop means for one attempt: it had a process, and its end was asked for. */
  predicate StopSeen(a: Attempt) {
    && (a.stopRequested ==> a.phase.Listed? || a.phase.Live? || a.phase.Reaped? || a.phase.Saved? || a.phase.Closed?)
    && (a.phase.Reaped? ==> a.phase.deliberate == a.stopRequested)
  }

  ghost predicate StopKept(s: State, i: nat)
    requires i < |s.attempts|
  {
    && StopSeen(s.attempts[i])
    && var parent := s.attempts[i].parent;
       parent.Some? ==> parent.value < |s.attempts| && IsParent(s.attempts[parent.value])
  }

  /** A parent has ended for good and was not asked to stop. */
  predicate IsParent(p: Attempt) {
    (p.phase.Restarting? || p.phase.Saved? || p.phase.Closed?) && !p.stopRequested
  }

  /** The live table names a process that was listed and not yet reaped. */
  predicate EntryIsLive(s: State) {
    s.entry.Some? ==>
      s.entry.value < |s.attempts| && (s.attempts[s.entry.value].phase.Listed? || s.attempts[s.entry.value].phase.Live?)
  }

  ghost predicate StopSafe(s: State) {
    EntryIsLive(s) && forall i :: 0 <= i < |s.attempts| ==> StopKept(s, i)
  }

  /** Attempts are never dropped, and a request to stop is never forgotten. */
  ghost predicate Remembers(s: State, t: State) {
    |s.attempts| <= |t.attempts|
    && forall i :: 0 <= i < |s.attempts| && s.attempts[i].stopRequested ==> t.attempts[i].stopRequested
  }

  lemma AttemptKeepsStop(s: State, step: Step, i: nat)
    requires EntryIsLive(s) && Enabled(s, step) && i < |s.attempts| && StopSeen(s.attempts[i])
    ensures var t := Apply(s, step);
      && |s.attempts| <= |t.attempts| && StopSeen(t.attempts[i])
      && t.attempts[i].parent == s.attempts[i].parent
      && (IsParent(s.attempts[i]) ==> IsParent(t.attempts[i]))
      && (s.attempts[i].stopRequested ==> t.attempts[i].stopRequested)
  {
  }

  lemma NewKeepsStop(s: State, step: Step)
    requires Enabled(s, step) && |Apply(s, step).attempts| > |s.attempts|
    requires step.Settle? ==> StopKept(s, step.n)
    ensures var t := Apply(s, step); |t.attempts| == |s.attempts| + 1 && StopKept(t, |s.attempts|)
  {
  }

  lemma StepKeepsEntryLive(s: State, step: Step)
    requires EntryIsLive(s) && Enabled(s, step)
    ensures EntryIsLive(Apply(s, step))
  {
  }

  lemma StepKeepsStopSafe(s: State, step: Step)
    requires StopSafe(s) && Enabled(s, step)
    ensures StopSafe(Apply(s, step)) && Remembers(s, Apply(s, step))
  {
    var t := Apply(s, step);
    StepKeepsEntryLive(s, step);
    if |t.attempts| > |s.attempts| {
      NewKeepsStop(s, step);
    }
    forall i | 0 <= i < |s.attempts|
      ensures |s.attempts| <= |t.attempts| && StopKept(t, i)
      ensures s.attempts[i].stopRequested ==> t.attempts[i].stopRequested
    {
      assert StopKept(s, i);
      AttemptKeepsStop(s, step, i);
      if s.attempts[i].parent.Some? {
        assert StopKept(s, s.attempts[i].parent.value);
        AttemptKeepsStop(s, step, s.attempts[i].parent.value);
      }
    }
  }

  lemma {:induction false} RunKeepsStopSafe(s: State, steps: seq<Step>, t: State)
    requires StopSafe(s) && AnyRun(s, steps, t)
    ensures StopSafe(t) && Remembers(s, t)
    decreases |steps|
  {
    if steps == [] {
    } else {
      StepKeepsStopSafe(s, steps[0]);
      RunKeepsStopSafe(Apply(s, steps[0]), steps[1..], t);
    }
  }

  /** A process marked as asked to stop is never restarted, nor was it. */
  lemma MarkedIsNeverRestarted(s: State, n: nat)
    requires StopSafe(s) && n < |s.attempts| && s.attempts[n].stopRequested
    ensures !s.attempts[n].phase.Restarting?
    ensures forall m :: 0 <= m < |s.attempts| ==> s.attempts[m].parent != Some(n)
  {
    assert StopKept(s, n);
    forall m | 0 <= m < |s.attempts|
      ensures s.attempts[m].parent != Some(n)
    {
      assert StopKept(s, m);
    }
  }

  /**
   Stop wins over every restart: whatever happens after Stop found process n in the live table,
   fresh starts that slip in between its end and its outcome included, that process is never
   restarted automatically.
   */
  lemma StopIsFinal(start: State, before: seq<Step>, s: State, n: nat, steps: seq<Step>, t: State)
    requires start.attempts == [] && start.entry == None && AnyRun(start, before, s)
    requires s.entry == Some(n) && Enabled(s, Stop) && AnyRun(Apply(s, Stop), steps, t)
    ensures n < |t.attempts| && !t.attempts[n].phase.Restarting?
    ensures forall m :: 0 <= m < |t.attempts| ==> t.attempts[m].parent != Some(n)
  {
    RunKeepsStopSafe(start, before, s);
    StepKeepsStopSafe(s, Stop);
    assert Apply(s, Stop).attempts[n].stopRequested;
    RunKeepsStopSafe(Apply(s, Stop), steps, t);
    MarkedIsNeverRestarted(t, n);
  }

  /** Stop can always be asked of a process in the live table. */
  lemma StopIsPossible(start: State, before: seq<Step>, s: State)
    requires start.attempts == [] && start.entry == None && AnyRun(start, before, s) && s.entry.Some?
    ensures Enabled(s, Stop)
  {
    RunKeepsStopSafe(start, before, s);
  }
}
