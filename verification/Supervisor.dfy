/**
 The process supervisor (internal/domain/service/manager.go), seen for one service id: each
 step is one critical section, one write to the services table, or one event outside the
 manager (a process appears, a process ends). Steps of different attempts interleave freely.
 */
module Supervisor {
  import opened Wrappers
  import opened Services

  /** How far one attempt at running the service has come. */
  datatype Phase =
    | Checked                                         // decided to start, no process yet
    | Aborted                                         // the process could not be started
    | Spawned                                         // a process exists, not yet in the live table
    | Listed                                          // in the live table, not yet saved
    | Live                                            // saved as running, its end is awaited
    | Reaped(deliberate: bool, code: int, at: int)    // its end was seen, out of the live table
    | Restarting(child: nat)                          // granted an automatic restart
    | Saved                                           // its outcome is saved
    | Closed                                          // those waiting in Stop are released

  datatype Attempt = Attempt(
    svc: Service, phase: Phase, stopRequested: bool, restartTimes: seq<int>,
    parent: Option<nat>, grantedAt: int, decidedAt: int, exit: Option<int>)

  datatype State = State(entry: Option<nat>, row: Option<Record>, attempts: seq<Attempt>, clock: int)

  datatype Step =
    | Begin(svc: Service)                        // Start (or Restart of a service that is not running) passed its check
    | Relaunch(n: nat)                           // Restart goes on after its Stop returned
    | SpawnFails(n: nat)
    | Spawn(n: nat, pid: int, at: int)
    | List(n: nat)
    | SaveStarted(n: nat)
    | Stop
    | Reap(n: nat, code: int, at: int)
    | Settle(n: nat, at: int)
    | RestartFails(n: nat)
    | Close(n: nat)

  // ------------------------------------------------------------------ restart budget

  function Window(window: int): (w: int)
    ensures w > 0
  {
    if window <= 0 then DEFAULT_RESTART_WINDOW else window
  }

  /** The times later than now - window, in order. */
  function Recent(times: seq<int>, now: int, window: int): seq<int> {
    if times == [] then []
    else
      var last := times[|times| - 1];
      Recent(times[..|times| - 1], now, window) + if last > now - Window(window) then [last] else []
  }

  /** Recent keeps exactly the times in the window that ends now; the window is a minute unless it is positive. */
  lemma {:induction false} RecentIsTheWindow(h: seq<int>, now: int, window: int)
    ensures var w := if window > 0 then window else 60_000_000_000;
      forall t :: multiset(Recent(h, now, window))[t] == if t > now - w then multiset(h)[t] else 0
  {
    if h == [] {
    } else {
      RecentIsTheWindow(h[..|h| - 1], now, window);
      assert h == h[..|h| - 1] + [h[|h| - 1]];
    }
  }

  method PruneRestartWindow(times: seq<int>, window: int, now: int) returns (out: seq<int>)
    ensures out == Recent(times, now, window)
    ensures var w := if window > 0 then window else 60_000_000_000;
      forall t :: multiset(out)[t] == if t > now - w then multiset(times)[t] else 0
  {
    var w := window;
    if w <= 0 {
      w := DEFAULT_RESTART_WINDOW;
    }
    var cutoff := now - w;
    out := [];
    for i := 0 to |times|
      invariant out == Recent(times[..i], now, window)
    {
      assert times[..i + 1][..i] == times[..i];
      if times[i] > cutoff {
        out := out + [times[i]];
      }
    }
    assert times[..|times|] == times;
    RecentIsTheWindow(times, now, window);
  }

  datatype Decision = GiveUp(status: Status) | Grant(restartTimes: seq<int>)

  function Crashed(code: int): bool {
    code != 0
  }

  predicate ShouldRestart(svc: Service, code: int) {
    svc.restartPolicy == Always || (svc.restartPolicy == OnFailure && Crashed(code))
  }

  /** What the waiter does once the end of its process was seen; now is when it decides. */
  function Decide(a: Attempt, now: int): Decision
    requires a.phase.Reaped?
  {
    if a.phase.deliberate then GiveUp(Stopped)
    else if !ShouldRestart(a.svc, a.phase.code) then GiveUp(if Crashed(a.phase.code) then Failed else Stopped)
    else
      var times := Recent(a.restartTimes + [a.phase.at], now, a.svc.restartWindow);
      if |times| > a.svc.maxRestarts then GiveUp(Failed) else Grant(times)
  }

  // ------------------------------------------------------------------------- steps

  function Ended(a: Attempt): Service
    requires a.phase.Reaped?
  {
    a.svc.(exitedAt := Some(a.phase.at), exitCode := Some(a.phase.code), pid := 0)
  }

  function Row(svc: Service): Record {
    Stored(ToRecord(svc))
  }

  function Fresh(svc: Service): Attempt {
    Attempt(svc, Checked, false, [], None, 0, 0, None)
  }

  predicate InPhase(s: State, n: nat, p: Phase) {
    n < |s.attempts| && s.attempts[n].phase == p
  }

  predicate Enabled(s: State, step: Step) {
    match step
    case Begin(svc) => s.entry == None
    case Relaunch(n) => InPhase(s, n, Closed) && s.attempts[n].stopRequested
    case SpawnFails(n) => InPhase(s, n, Checked)
    case Spawn(n, pid, at) => InPhase(s, n, Checked) && pid > 0 && at >= s.clock
    case List(n) => InPhase(s, n, Spawned)
    case SaveStarted(n) => InPhase(s, n, Listed)
    case Stop => s.entry.Some? && s.entry.value < |s.attempts|
    case Reap(n, code, at) => InPhase(s, n, Live) && at >= s.clock
    case Settle(n, at) => n < |s.attempts| && s.attempts[n].phase.Reaped? && at >= s.clock
    case RestartFails(n) =>
      n < |s.attempts| && s.attempts[n].phase.Restarting? && InPhase(s, s.attempts[n].phase.child, Aborted)
    case Close(n) =>
      n < |s.attempts|
      && (s.attempts[n].phase == Saved
          || (s.attempts[n].phase.Restarting? && s.attempts[n].phase.child < |s.attempts|
              && HasStarted(s.attempts[s.attempts[n].phase.child].phase)))
  }

  /** startProcess has returned: the process was listed and saved. */
  predicate HasStarted(p: Phase) {
    p.Live? || p.Reaped? || p.Restarting? || p.Saved? || p.Closed?
  }

  function With(s: State, n: nat, a: Attempt): State
    requires n < |s.attempts|
  {
    s.(attempts := s.attempts[n := a])
  }

  function Apply(s: State, step: Step): State
    requires Enabled(s, step)
  {
    match step
    case Begin(svc) => s.(attempts := s.attempts + [Fresh(svc)])
    case Relaunch(n) => s.(attempts := s.attempts + [Fresh(s.attempts[n].svc)])
    case SpawnFails(n) => With(s, n, s.attempts[n].(phase := Aborted))
    case Spawn(n, pid, at) =>
      var a := s.attempts[n];
      var svc := a.svc.(pid := pid, status := Running, startedAt := Some(at), exitedAt := None, exitCode := None);
      With(s, n, a.(svc := svc, phase := Spawned)).(clock := at)
    case List(n) => With(s, n, s.attempts[n].(phase := Listed)).(entry := Some(n))
    case SaveStarted(n) => With(s, n, s.attempts[n].(phase := Live)).(row := Some(Row(s.attempts[n].svc)))
    case Stop =>
      var n := s.entry.value;
      With(s, n, s.attempts[n].(stopRequested := true))
    case Reap(n, code, at) =>
      var a := s.attempts[n];
      With(s, n, a.(phase := Reaped(a.stopRequested, code, at), exit := Some(code))).(entry := None, clock := at)
    case Settle(n, at) =>
      var a := s.attempts[n];
      (match Decide(a, at)
       case GiveUp(status) =>
         With(s, n, a.(phase := Saved)).(row := Some(Row(Ended(a).(status := status))), clock := at)
       case Grant(times) =>
         var child := Attempt(Ended(a), Checked, false, times, Some(n), a.phase.at, at, None);
         State(s.entry, s.row, s.attempts[n := a.(phase := Restarting(|s.attempts|))] + [child], at))
    case RestartFails(n) =>
      var a := s.attempts[n];
      var child := s.attempts[a.phase.child];
      With(s, n, a.(phase := Saved)).(row := Some(Row(child.svc.(status := Failed))))
    case Close(n) => With(s, n, s.attempts[n].(phase := Closed))
  }

  /** steps lead from s to t, with no restriction on how starts overlap. */
  ghost predicate AnyRun(s: State, steps: seq<Step>, t: State)
    decreases |steps|
  {
    if steps == [] then s == t
    else Enabled(s, steps[0]) && AnyRun(Apply(s, steps[0]), steps[1..], t)
  }
}
