/**
 The Manager object (internal/domain/service/manager.go). Each method is one critical section,
 one write to the services table, or one event outside the manager; it takes the step the
 machine of its own id takes and leaves every other id alone.
 */
module Managers {
  import opened Wrappers
  import opened Services
  import opened Supervisor

  /** The waiter's branches once the end of its process was seen. */
  method JudgeExit(a: Attempt, now: int) returns (d: Decision)
    requires a.phase.Reaped?
    ensures d == Decide(a, now)
  {
    if a.phase.deliberate {
      return GiveUp(Stopped);
    }
    var crashed := a.phase.code != 0;
    var shouldRestart := a.svc.restartPolicy == Always || (a.svc.restartPolicy == OnFailure && crashed);
    if !shouldRestart {
      return GiveUp(if crashed then Failed else Stopped);
    }
    var times := PruneRestartWindow(a.restartTimes + [a.phase.at], a.svc.restartWindow, now);
    if |times| > a.svc.maxRestarts {
      return GiveUp(Failed);
    }
    return Grant(times);
  }

  class Manager {
    var procs: map<Id, nat>                   // the live table
    var rows: map<Id, Record>                 // the services table
    var attempts: map<Id, seq<Attempt>>       // every attempt to run a service, and how far it is
    var ticks: map<Id, int>                   // the latest clock reading made on behalf of an id

    constructor ()
      ensures forall id :: View(id) == State(None, None, [], 0)
    {
      procs, rows, attempts, ticks := map[], map[], map[], map[];
    }

    ghost function View(id: Id): State
      reads this
    {
      State(if id in procs then Some(procs[id]) else None,
            if id in rows then Some(rows[id]) else None,
            Attempts(id),
            Tick(id))
    }

    function Attempts(id: Id): seq<Attempt>
      reads this
    {
      if id in attempts then attempts[id] else []
    }

    function Tick(id: Id): int
      reads this
    {
      if id in ticks then ticks[id] else 0
    }

    /** The step was taken for id and for no one else. */
    twostate predicate Took(id: Id, step: Step)
      reads this
    {
      && Enabled(old(View(id)), step)
      && View(id) == Apply(old(View(id)), step)
      && forall other :: other != id ==> View(other) == old(View(other))
    }

    twostate predicate Untouched()
      reads this
    {
      forall id :: View(id) == old(View(id))
    }

    /** Start, up to and including its check. */
    method BeginStart(req: StartRequest) returns (ok: bool)
      modifies this
      ensures ok <==> old(View(req.id)).entry == None && req.command != ""
      ensures ok ==> Took(req.id, Begin(ToService(req)))
      ensures !ok ==> Untouched()
    {
      if req.id in procs || req.command == "" {
        return false;
      }
      attempts := attempts[req.id := Attempts(req.id) + [Fresh(ToService(req))]];
      return true;
    }

    /** Restart of a service that is not running, from its saved row. */
    method BeginRestart(id: Id) returns (ok: bool)
      requires id !in procs
      modifies this
      ensures ok <==> old(View(id)).row.Some?
      ensures ok ==> Took(id, Begin(FromRecord(old(View(id)).row.value)))
      ensures !ok ==> Untouched()
    {
      if id !in rows {
        return false;
      }
      attempts := attempts[id := Attempts(id) + [Fresh(FromRecord(rows[id]))]];
      return true;
    }

    method Put(id: Id, n: nat, a: Attempt)
      requires n < |Attempts(id)|
      modifies this`attempts
      ensures Attempts(id) == old(Attempts(id))[n := a]
      ensures forall other :: other != id ==> Attempts(other) == old(Attempts(other))
    {
      attempts := attempts[id := Attempts(id)[n := a]];
    }

    /** The process was started, or could not be. */
    method SpawnProcess(id: Id, n: nat, pid: int, at: int)
      requires Enabled(View(id), Spawn(n, pid, at))
      modifies this
      ensures Took(id, Spawn(n, pid, at))
    {
      var a := Attempts(id)[n];
      var svc := a.svc.(pid := pid, status := Running, startedAt := Some(at), exitedAt := None, exitCode := None);
      Put(id, n, a.(svc := svc, phase := Spawned));
      ticks := ticks[id := at];
    }

    method SpawnFailed(id: Id, n: nat)
      requires Enabled(View(id), SpawnFails(n))
      modifies this
      ensures Took(id, SpawnFails(n))
    {
      Put(id, n, Attempts(id)[n].(phase := Aborted));
    }

    method Insert(id: Id, n: nat)
      requires Enabled(View(id), List(n))
      modifies this
      ensures Took(id, List(n))
    {
      Put(id, n, Attempts(id)[n].(phase := Listed));
      procs := procs[id := n];
    }

    method PersistStarted(id: Id, n: nat)
      requires Enabled(View(id), SaveStarted(n))
      modifies this
      ensures Took(id, SaveStarted(n))
    {
      rows := rows[id := Row(Attempts(id)[n].svc)];
      Put(id, n, Attempts(id)[n].(phase := Live));
    }

    /** Stop, up to the point where it signals the process and waits. */
    method RequestStop(id: Id) returns (found: bool)
      requires id in procs ==> procs[id] < |Attempts(id)|
      modifies this
      ensures found <==> old(View(id)).entry.Some?
      ensures found ==> Took(id, Stop) && Attempts(id)[procs[id]].stopRequested
      ensures !found ==> Untouched()
    {
      if id !in procs {
        return false;
      }
      Put(id, procs[id], Attempts(id)[procs[id]].(stopRequested := true));
      return true;
    }

    /** The waiter sees the end of its process and takes the id out of the live table. */
    method ReapProcess(id: Id, n: nat, code: int, at: int)
      requires Enabled(View(id), Reap(n, code, at))
      modifies this
      ensures Took(id, Reap(n, code, at))
    {
      var a := Attempts(id)[n];
      var deliberate := a.stopRequested;
      Put(id, n, a.(phase := Reaped(deliberate, code, at), exit := Some(code)));
      procs := procs - {id};
      ticks := ticks[id := at];
    }

    /** The waiter saves the outcome, or grants an automatic restart. */
    method SettleExit(id: Id, n: nat, now: int)
      requires Enabled(View(id), Settle(n, now))
      modifies this
      ensures Took(id, Settle(n, now))
    {
      var a := Attempts(id)[n];
      var svc := a.svc.(exitedAt := Some(a.phase.at), exitCode := Some(a.phase.code), pid := 0);
      ticks := ticks[id := now];
      var decision := JudgeExit(a, now);
      match decision {
        case GiveUp(status) => SaveOutcome(id, n, svc.(status := status));
        case Grant(times) =>
          var child := Attempt(svc, Checked, false, times, Some(n), a.phase.at, now, None);
          var all := Attempts(id);
          attempts := attempts[id := all[n := a.(phase := Restarting(|all|))] + [child]];
      }
    }

    method SaveOutcome(id: Id, n: nat, svc: Service)
      requires n < |Attempts(id)|
      modifies this`rows, this`attempts
      ensures rows == old(rows)[id := Row(svc)]
      ensures Attempts(id) == old(Attempts(id))[n := old(Attempts(id))[n].(phase := Saved)]
      ensures forall other :: other != id ==> Attempts(other) == old(Attempts(other))
    {
      rows := rows[id := Row(svc)];
      Put(id, n, Attempts(id)[n].(phase := Saved));
    }

    /** The automatic restart could not get a process: the waiter saves the failure. */
    method RestartFailed(id: Id, n: nat)
      requires Enabled(View(id), RestartFails(n))
      modifies this
      ensures Took(id, RestartFails(n))
    {
      var child := Attempts(id)[n].phase.child;
      SaveOutcome(id, n, Attempts(id)[child].svc.(status := Failed));
    }

    /** The waiter returns and releases those who wait in Stop. */
    method CloseDone(id: Id, n: nat)
      requires Enabled(View(id), Close(n))
      modifies this
      ensures Took(id, Close(n))
    {
      Put(id, n, Attempts(id)[n].(phase := Closed));
    }

    /** Restart goes on once its Stop has returned. */
    method RestartAfterStop(id: Id, n: nat)
      requires Enabled(View(id), Relaunch(n))
      modifies this
      ensures Took(id, Relaunch(n))
    {
      attempts := attempts[id := Attempts(id) + [Fresh(Attempts(id)[n].svc)]];
    }
  }
}
