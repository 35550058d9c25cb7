/**
 The request/response protocol with an extension subprocess (internal/pluginhost/host.go).
 One mutex covers a whole call, so a call is one step here; what the subprocess and the
 reader goroutine did meanwhile comes in as the step's environment, chosen by an adversary.
 */
module PluginHost {
  import opened Wrappers

  /** Request ids are fresh UUIDs; results are carried through. */
  type Id(==, !new, 0)
  type Payload(!new, 0)

  datatype Response = Response(id: Id, error: bool, result: Payload)

  /** A line of output, by how it decodes as a handshake (to its protocol version) and as a response. */
  datatype Line = Line(handshake: Option<int>, response: Option<Response>)

  const SUPPORTED_VERSION := 1

  datatype Stage = Loading | Ready | Refused

  datatype Host = Host(
    stage: Stage,
    closed: bool,
    output: seq<Line>,        // every line the subprocess has written so far
    consumed: nat,            // how many of them were scanned
    written: seq<Id>,         // the requests written to it, in order
    orphans: nat)             // reader goroutines nobody waits for any more

  /** What became of the reader when the wait timed out or was cancelled. */
  datatype Left = StillReading | TookLine | TookEnd

  datatype Env = WriteError | NoAnswer(left: Left) | Answer | EndOfOutput

  datatype Reply = Unavailable | BadParams | Failed | RemoteError | Success(response: Response)

  datatype Event =
    | Emit(line: Line)                              // the subprocess writes a line, asked or not
    | Load(env: Env)                                // the handshake
    | Call(id: Id, marshals: bool, env: Env)
    | Close
    | OrphanScans                                   // a reader that outlived its wait takes a line

  /** The environment fits what was written: a line can only be scanned when there is one. */
  predicate Possible(h: Host, env: Env) {
    env.Answer? || env == NoAnswer(TookLine) ==> h.consumed < |h.output|
  }

  predicate Enabled(h: Host, e: Event) {
    match e
    case Emit(_) => true
    case Load(env) => h.stage == Loading && !env.WriteError? && Possible(h, env)
    case Call(id, _, env) => h.stage == Ready && (h.closed || Possible(h, env))
    case Close => h.stage != Loading
    case OrphanScans => h.orphans > 0 && h.consumed < |h.output|
  }

  /** What a read does to the scanner. */
  function AfterRead(h: Host, env: Env): Host {
    match env
    case Answer => h.(consumed := h.consumed + 1)
    case NoAnswer(TookLine) => h.(consumed := h.consumed + 1)
    case NoAnswer(StillReading) => h.(orphans := h.orphans + 1)
    case _ => h
  }

  function AfterLoad(h: Host, env: Env): Host
    requires Enabled(h, Load(env))
  {
    var after := AfterRead(h, env);
    if env.Answer? && h.output[h.consumed].handshake == Some(SUPPORTED_VERSION)
    then after.(stage := Ready)
    else after.(stage := Refused, closed := true)
  }

  function AfterCall(h: Host, id: Id, marshals: bool, env: Env): (Host, Reply)
    requires Enabled(h, Call(id, marshals, env))
  {
    if h.closed then (h, Unavailable)
    else if !marshals then (h, BadParams)
    else if env.WriteError? then (h.(closed := true), Failed)
    else
      var after := AfterRead(h.(written := h.written + [id]), env);
      if !env.Answer? then (after.(closed := true), Failed)
      else
        match h.output[h.consumed].response
        case None => (after.(closed := true), Failed)
        case Some(r) =>
          if r.id != id then (after.(closed := true), Failed)
          else if r.error then (after, RemoteError)
          else (after, Success(r))
  }

  function Next(h: Host, e: Event): Host
    requires Enabled(h, e)
  {
    match e
    case Emit(line) => h.(output := h.output + [line])
    case Load(env) => AfterLoad(h, env)
    case Call(id, marshals, env) => AfterCall(h, id, marshals, env).0
    case Close => h.(closed := true)
    case OrphanScans => h.(consumed := h.consumed + 1, orphans := h.orphans - 1)
  }

  function Start(): Host {
    Host(Loading, false, [], 0, [], 0)
  }

  /** The provider object, its pipes and its scanner. */
  class ExternalProvider {
    var closed: bool
    var stdout: seq<Line>         // what the subprocess has written so far
    var scanned: nat              // the scanner's position in it
    var stdin: seq<Id>            // the requests written to the subprocess
    ghost var stage: Stage
    ghost var orphans: nat

    ghost function View(): Host
      reads this
    {
      Host(stage, closed, stdout, scanned, stdin, orphans)
    }

    constructor ()
      ensures View() == Start()
    {
      closed, stdout, scanned, stdin := false, [], 0, [];
      stage, orphans := Loading, 0;
    }

    method LoadExtension(env: Env) returns (ok: bool)
      requires Enabled(View(), Load(env))
      modifies this
      ensures View() == Next(old(View()), Load(env))
      ensures ok <==> stage == Ready
    {
      var line := ReadLine(env);
      if line.None? || line.value.handshake != Some(SUPPORTED_VERSION) {
        CloseLocked();
        stage := Refused;
        return false;
      }
      stage := Ready;
      return true;
    }

    method ReadLine(env: Env) returns (line: Option<Line>)
      requires Possible(View(), env) && !env.WriteError?
      modifies this`scanned, this`orphans
      ensures View() == AfterRead(old(View()), env)
      ensures line == if env.Answer? then Some(stdout[old(scanned)]) else None
    {
      line := None;
      match env {
        case Answer =>
          line := Some(stdout[scanned]);
          scanned := scanned + 1;
        case NoAnswer(TookLine) => scanned := scanned + 1;
        case NoAnswer(StillReading) => orphans := orphans + 1;
        case _ =>
      }
    }

    method CallMethod(id: Id, marshals: bool, env: Env) returns (reply: Reply)
      requires Enabled(View(), Call(id, marshals, env))
      modifies this
      ensures (View(), reply) == AfterCall(old(View()), id, marshals, env)
    {
      if closed {
        return Unavailable;
      }
      if !marshals {
        return BadParams;
      }
      if env.WriteError? {
        CloseLocked();
        return Failed;
      }
      stdin := stdin + [id];
      var line := ReadLine(env);
      if line.None? || line.value.response.None? || line.value.response.value.id != id {
        CloseLocked();
        return Failed;
      }
      var response := line.value.response.value;
      return if response.error then RemoteError else Success(response);
    }

    method CloseLocked()
      modifies this`closed
      ensures View() == old(View()).(closed := true)
    {
      if closed {
        return;
      }
      closed := true;
    }
  }

  // ------------------------------------------------------------------------ lockstep

  /** Line i + 1, the first after the handshake and i answers, carries the id of request i. */
  ghost predicate Answered(h: Host, i: nat) {
    && i < |h.written| && i + 1 < |h.output|
    && h.output[i + 1].response.Some? && h.output[i + 1].response.value.id == h.written[i]
  }

  /** One line per request and one for the handshake was scanned, and no reader is outstanding. */
  ghost predicate Lockstep(h: Host) {
    && h.consumed == |h.written| + 1 && h.consumed <= |h.output|
    && h.orphans == 0
    && forall i :: 0 <= i < |h.written| ==> Answered(h, i)
  }

  ghost predicate Sound(h: Host) {
    && (h.stage == Loading ==> !h.closed && h.consumed == 0 && h.written == [] && h.orphans == 0)
    && (h.stage == Refused ==> h.closed)
    && (h.stage == Ready && !h.closed ==> Lockstep(h))
    && h.consumed <= |h.output|
  }

  /** A call keeps lockstep unless it closes the provider. */
  lemma CallKeepsLockstep(h: Host, id: Id, marshals: bool, env: Env)
    requires Enabled(h, Call(id, marshals, env)) && !h.closed && Lockstep(h)
    ensures var after := AfterCall(h, id, marshals, env).0;
      && after.output == h.output && after.stage == h.stage && after.consumed <= |after.output|
      && (!after.closed ==> Lockstep(after))
  {
    var after := AfterCall(h, id, marshals, env).0;
    if !after.closed && marshals {
      assert after.written == h.written + [id];
      forall i | 0 <= i < |after.written|
        ensures Answered(after, i)
      {
        if i < |h.written| {
          assert Answered(h, i);
        }
      }
    }
  }

  lemma StepKeepsSound(h: Host, e: Event)
    requires Sound(h) && Enabled(h, e)
    ensures Sound(Next(h, e))
    ensures h.closed ==> Next(h, e).closed
  {
    match e
    case Call(id, marshals, env) =>
      if !h.closed {
        CallKeepsLockstep(h, id, marshals, env);
      }
    case Emit(line) =>
      var after := Next(h, e);
      forall i | 0 <= i < |h.written| && Answered(h, i)
        ensures Answered(after, i)
      {
      }
    case _ =>
      var after := Next(h, e);
      assert !after.closed && after.stage == Ready && h.stage == Ready ==> after == h || h.orphans > 0;
  }

  ghost predicate Run(h: Host, events: seq<Event>, t: Host)
    decreases |events|
  {
    if events == [] then h == t
    else Enabled(h, events[0]) && Run(Next(h, events[0]), events[1..], t)
  }

  lemma {:induction false} RunKeepsSound(h: Host, events: seq<Event>, t: Host)
    requires Sound(h) && Run(h, events, t)
    ensures Sound(t) && (h.closed ==> t.closed)
    decreases |events|
  {
    if events == [] {
    } else {
      StepKeepsSound(h, events[0]);
      RunKeepsSound(Next(h, events[0]), events[1..], t);
    }
  }

  /** In every run against any subprocess: while the provider is open, host and subprocess are in lockstep. */
  lemma OpenMeansLockstep(events: seq<Event>, t: Host)
    requires Run(Start(), events, t) && t.stage == Ready && !t.closed
    ensures Lockstep(t)
  {
    RunKeepsSound(Start(), events, t);
  }

  /** A closed provider never gives a result again. */
  lemma ClosedIsPermanent(before: seq<Event>, h: Host, after: seq<Event>, t: Host, id: Id, marshals: bool, env: Env)
    requires Run(Start(), before, h) && h.closed && Run(h, after, t) && Enabled(t, Call(id, marshals, env))
    ensures AfterCall(t, id, marshals, env) == (t, Unavailable)
  {
    RunKeepsSound(Start(), before, h);
    RunKeepsSound(h, after, t);
  }

  /** A successful call returns the line right after those of all earlier requests, and it carries its own id. */
  lemma SuccessIsTheNextLine(events: seq<Event>, h: Host, id: Id, marshals: bool, env: Env)
    requires Run(Start(), events, h) && Enabled(h, Call(id, marshals, env))
    ensures var (after, reply) := AfterCall(h, id, marshals, env);
      reply.Success? ==>
        && |h.written| + 1 < |h.output|
        && reply.response.id == id && !reply.response.error
        && h.output[|h.written| + 1].response == Some(reply.response)
        && after.written == h.written + [id] && !after.closed
  {
    RunKeepsSound(Start(), events, h);
  }

  /** With distinct ids, no response line can answer a call other than the one it was read for. */
  lemma AnswersAreNotShared(events: seq<Event>, h: Host, id: Id, env: Env, i: nat)
    requires Run(Start(), events, h) && Enabled(h, Call(id, true, env)) && id !in h.written
    requires 0 < i < h.consumed && !h.closed
    ensures i < |h.output| && h.output[i].response.Some? && h.output[i].response.value.id != id
  {
    RunKeepsSound(Start(), events, h);
    assert Answered(h, i - 1);
    assert h.written[i - 1] in h.written;
  }

  /** One line too many, written before the request it could answer, ends the conversation at the next call. */
  lemma UnaskedLineCloses(events: seq<Event>, h: Host, id: Id, env: Env)
    requires Run(Start(), events, h) && Enabled(h, Call(id, true, env)) && !h.closed
    requires h.consumed < |h.output|
    requires h.output[h.consumed].response.Some? ==> h.output[h.consumed].response.value.id != id
    ensures AfterCall(h, id, true, env).0.closed && AfterCall(h, id, true, env).1 == Failed
  {
  }

  /** The extension is ready exactly when its first line is a handshake of version 1; otherwise it is closed. */
  lemma ReadyIffVersionOne(events: seq<Event>, h: Host, env: Env)
    requires Run(Start(), events, h) && Enabled(h, Load(env))
    ensures var after := Next(h, Load(env));
      && (after.stage == Ready <==> env.Answer? && h.output[0].handshake == Some(1))
      && (after.closed <==> after.stage != Ready)
  {
    RunKeepsSound(Start(), events, h);
  }

  /** The next unread line is an answer to request id. */
  ghost predicate AnswerComes(h: Host, id: Id, env: Env) {
    && env == Answer && |h.written| + 1 < |h.output|
    && h.output[|h.written| + 1].response.Some? && h.output[|h.written| + 1].response.value.id == id
  }

  /** An open provider hands on the answer that comes, good or bad, and stays open; anything else closes it. */
  lemma CallOutcome(events: seq<Event>, h: Host, id: Id, env: Env)
    requires Run(Start(), events, h) && Enabled(h, Call(id, true, env)) && !h.closed
    ensures var (after, reply) := AfterCall(h, id, true, env);
      if AnswerComes(h, id, env) then
        var r := h.output[|h.written| + 1].response.value;
        && reply == (if r.error then RemoteError else Success(r))
        && after == h.(written := h.written + [id], consumed := h.consumed + 1)
      else reply == Failed && after.closed
  {
    RunKeepsSound(Start(), events, h);
  }

  /** A call whose parameters cannot be encoded changes nothing. */
  lemma BadParamsChangeNothing(events: seq<Event>, h: Host, id: Id, env: Env)
    requires Run(Start(), events, h) && Enabled(h, Call(id, false, env))
    ensures AfterCall(h, id, false, env) == (h, if h.closed then Unavailable else BadParams)
  {
  }
}
