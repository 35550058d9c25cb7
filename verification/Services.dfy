/**
 The Service entity, its defaults and its saved form (internal/domain/service/service.go,
 and the column defaults of internal/storage/service_lifecycle_repo.go).
 */
module Services {
  import opened Wrappers
  import Topo

  type Id = Topo.Id

  /** Name, arguments, directory, environment, project, log file: carried through unchanged. */
  type Details(!new, 0)

  datatype Status = NoStatus | Stopped | Running | Failed

  datatype Policy = NoPolicy | Always | OnFailure | Never

  /** Durations and instants are nanoseconds. */
  const SECOND: int := 1_000_000_000
  const DEFAULT_GRACEFUL_TIMEOUT: int := 5 * SECOND
  const DEFAULT_MAX_RESTARTS: int := 5
  const DEFAULT_RESTART_WINDOW: int := 60 * SECOND

  datatype Service = Service(
    id: Id, kind: string, command: string, details: Details,
    autostart: bool, dependsOn: seq<Id>,
    restartPolicy: Policy, gracefulTimeout: int, maxRestarts: int, restartWindow: int,
    pid: int, status: Status, startedAt: Option<int>, exitedAt: Option<int>, exitCode: Option<int>)

  datatype Record = Record(
    id: Id, kind: string, command: string, details: Details,
    autostart: bool, dependsOn: seq<Id>,
    restartPolicy: Policy, gracefulTimeoutSeconds: int, maxRestarts: int, restartWindowSeconds: int,
    pid: int, status: Status, startedAt: Option<int>, exitedAt: Option<int>, exitCode: Option<int>)

  datatype StartRequest = StartRequest(
    id: Id, kind: string, command: string, details: Details,
    autostart: bool, dependsOn: seq<Id>,
    restartPolicy: Policy, gracefulTimeout: int, maxRestarts: int, restartWindow: int)

  function DefaultPolicy(p: Policy): Policy {
    if p == NoPolicy then Never else p
  }

  function DefaultInt(v: int, fallback: int): int {
    if v <= 0 then fallback else v
  }

  function DefaultKind(kind: string): string {
    if kind == "" then "native" else kind
  }

  /** A start request always yields a usable restart budget. */
  function ToService(r: StartRequest): (s: Service)
    ensures s.maxRestarts >= 1 && s.restartWindow > 0 && s.gracefulTimeout > 0
    ensures s.restartPolicy != NoPolicy && s.kind != ""
  {
    Service(r.id, DefaultKind(r.kind), r.command, r.details, r.autostart, r.dependsOn,
            DefaultPolicy(r.restartPolicy), DefaultInt(r.gracefulTimeout, DEFAULT_GRACEFUL_TIMEOUT),
            DefaultInt(r.maxRestarts, DEFAULT_MAX_RESTARTS), DefaultInt(r.restartWindow, DEFAULT_RESTART_WINDOW),
            0, Stopped, None, None, None)
  }

  /** Go's integer division truncates toward zero. */
  function WholeSeconds(duration: int): int {
    if duration >= 0 then duration / SECOND else -(-duration / SECOND)
  }

  /** A 64-bit signed integer wraps around. */
  function Wrap64(v: int): (w: int)
    ensures -0x8000_0000_0000_0000 <= w < 0x8000_0000_0000_0000
    ensures -0x8000_0000_0000_0000 <= v < 0x8000_0000_0000_0000 ==> w == v
  {
    (v + 0x8000_0000_0000_0000) % 0x1_0000_0000_0000_0000 - 0x8000_0000_0000_0000
  }

  function ToRecord(s: Service): Record {
    Record(s.id, s.kind, s.command, s.details, s.autostart, s.dependsOn,
           s.restartPolicy, WholeSeconds(s.gracefulTimeout), s.maxRestarts, WholeSeconds(s.restartWindow),
           s.pid, s.status, s.startedAt, s.exitedAt, s.exitCode)
  }

  /** A saved instant is written with whole seconds. */
  function WholeInstant(t: Option<int>): Option<int> {
    match t
    case None => None
    case Some(v) => Some(v - v % SECOND)
  }

  /** What the services table gives back for a row written to it. */
  function Stored(r: Record): Record {
    r.(kind := DefaultKind(r.kind),
       restartPolicy := if r.restartPolicy == NoPolicy then OnFailure else r.restartPolicy,
       startedAt := WholeInstant(r.startedAt),
       exitedAt := WholeInstant(r.exitedAt))
  }

  /** Whatever the row holds, the service read from it has a usable restart budget. */
  function FromRecord(r: Record): (s: Service)
    ensures s.maxRestarts >= 1 && s.restartWindow > 0 && s.gracefulTimeout > 0
    ensures s.restartPolicy != NoPolicy && s.status != NoStatus
  {
    Service(r.id, r.kind, r.command, r.details, r.autostart, r.dependsOn,
            DefaultPolicy(r.restartPolicy),
            DefaultInt(Wrap64(r.gracefulTimeoutSeconds * SECOND), DEFAULT_GRACEFUL_TIMEOUT),
            DefaultInt(r.maxRestarts, DEFAULT_MAX_RESTARTS),
            DefaultInt(Wrap64(r.restartWindowSeconds * SECOND), DEFAULT_RESTART_WINDOW),
            r.pid, if r.status == NoStatus then Stopped else r.status, r.startedAt, r.exitedAt, r.exitCode)
  }

  function SaveLoad(s: Service): Service {
    FromRecord(Stored(ToRecord(s)))
  }

  predicate IsDuration(v: int) {
    -0x8000_0000_0000_0000 <= v < 0x8000_0000_0000_0000
  }

  predicate IsWhole(t: Option<int>) {
    t.Some? ==> t.value % SECOND == 0
  }

  /** Saving and loading twice gives what doing it once gives. */
  lemma SaveLoadIsIdempotent(s: Service)
    requires IsDuration(s.gracefulTimeout) && IsDuration(s.restartWindow)
    ensures SaveLoad(SaveLoad(s)) == SaveLoad(s)
  {
  }

  function Reloaded(v: int, fallback: int): int {
    DefaultInt(Wrap64(WholeSeconds(v) * SECOND), fallback)
  }

  lemma DurationSurvives(v: int, fallback: int)
    requires IsDuration(v) && fallback > 0 && fallback % SECOND == 0 && IsDuration(fallback)
    ensures IsDuration(Reloaded(v, fallback))
    ensures Reloaded(Reloaded(v, fallback), fallback) == Reloaded(v, fallback)
    ensures Reloaded(v, fallback) == v <==> v > 0 && v % SECOND == 0
  {
  }

  lemma InstantSurvives(t: Option<int>)
    ensures WholeInstant(WholeInstant(t)) == WholeInstant(t)
    ensures WholeInstant(t) == t <==> IsWhole(t)
    ensures WholeInstant(t) == if t.Some? then Some(t.value - t.value % 1_000_000_000) else None
  {
  }

  /** Exactly which services come back from the table as they were saved. */
  lemma SaveLoadIsIdentityIff(s: Service)
    requires IsDuration(s.gracefulTimeout) && IsDuration(s.restartWindow)
    ensures SaveLoad(s) == s <==>
      && s.kind != "" && s.restartPolicy != NoPolicy && s.status != NoStatus && s.maxRestarts > 0
      && s.gracefulTimeout > 0 && s.gracefulTimeout % SECOND == 0
      && s.restartWindow > 0 && s.restartWindow % SECOND == 0
      && IsWhole(s.startedAt) && IsWhole(s.exitedAt)
  {
  }

  // ------------------------------------------------------------------------- field by field

  /** The parts of a service that no default touches. */
  ghost predicate Carries(s: Service, id: Id, command: string, details: Details, autostart: bool, dependsOn: seq<Id>) {
    s.id == id && s.command == command && s.details == details && s.autostart == autostart && s.dependsOn == dependsOn
  }

  /** A start request keeps what it says; what it leaves open is 5 seconds, 5 restarts in a minute, and "never". */
  lemma StartRequestMeans(r: StartRequest)
    ensures var s := ToService(r);
      && Carries(s, r.id, r.command, r.details, r.autostart, r.dependsOn)
      && s.kind == (if r.kind == "" then "native" else r.kind)
      && s.restartPolicy == (if r.restartPolicy.NoPolicy? then Never else r.restartPolicy)
      && s.gracefulTimeout == (if r.gracefulTimeout > 0 then r.gracefulTimeout else 5_000_000_000)
      && s.maxRestarts == (if r.maxRestarts > 0 then r.maxRestarts else 5)
      && s.restartWindow == (if r.restartWindow > 0 then r.restartWindow else 60_000_000_000)
      && s.pid == 0 && s.status == Stopped && s.startedAt == s.exitedAt == s.exitCode == None
  {
  }

  /** The seconds that still fit 64 bits as nanoseconds. */
  predicate FitsAsNanoseconds(seconds: int) {
    -9_223_372_036 <= seconds <= 9_223_372_036
  }

  /** A row without a policy is read as "never", one without a status as stopped. */
  lemma RowMeans(r: Record)
    requires FitsAsNanoseconds(r.gracefulTimeoutSeconds) && FitsAsNanoseconds(r.restartWindowSeconds)
    ensures var s := FromRecord(r);
      && Carries(s, r.id, r.command, r.details, r.autostart, r.dependsOn) && s.kind == r.kind
      && s.restartPolicy == (if r.restartPolicy.NoPolicy? then Never else r.restartPolicy)
      && s.gracefulTimeout
        == (if r.gracefulTimeoutSeconds > 0 then r.gracefulTimeoutSeconds * 1_000_000_000 else 5_000_000_000)
      && s.maxRestarts == (if r.maxRestarts > 0 then r.maxRestarts else 5)
      && s.restartWindow
        == (if r.restartWindowSeconds > 0 then r.restartWindowSeconds * 1_000_000_000 else 60_000_000_000)
      && s.pid == r.pid && s.status == (if r.status.NoStatus? then Stopped else r.status)
      && s.startedAt == r.startedAt && s.exitedAt == r.exitedAt && s.exitCode == r.exitCode
  {
  }

  /** A positive duration loses its fraction of a second; what then is not positive gives way to the default. */
  lemma SavedDuration(v: int, fallback: int)
    requires IsDuration(v)
    ensures Reloaded(v, fallback) == if v >= 1_000_000_000 then v - v % 1_000_000_000 else fallback
  {
  }

  /** What saving a service and loading it makes of every field. */
  lemma SaveLoadMeans(s: Service)
    requires IsDuration(s.gracefulTimeout) && IsDuration(s.restartWindow)
    ensures var t := SaveLoad(s);
      && Carries(t, s.id, s.command, s.details, s.autostart, s.dependsOn)
      && t.kind == (if s.kind == "" then "native" else s.kind)
      && t.restartPolicy == (if s.restartPolicy.NoPolicy? then OnFailure else s.restartPolicy)
      && t.gracefulTimeout
        == (if s.gracefulTimeout >= 1_000_000_000 then s.gracefulTimeout - s.gracefulTimeout % 1_000_000_000
            else 5_000_000_000)
      && t.maxRestarts == (if s.maxRestarts > 0 then s.maxRestarts else 5)
      && t.restartWindow
        == (if s.restartWindow >= 1_000_000_000 then s.restartWindow - s.restartWindow % 1_000_000_000
            else 60_000_000_000)
      && t.pid == s.pid && t.status == (if s.status.NoStatus? then Stopped else s.status)
      && WholeInstant(s.startedAt) == t.startedAt && WholeInstant(s.exitedAt) == t.exitedAt && t.exitCode == s.exitCode
  {
    SavedDuration(s.gracefulTimeout, 5_000_000_000);
    SavedDuration(s.restartWindow, 60_000_000_000);
  }
}
