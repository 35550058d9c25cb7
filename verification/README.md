# VoltPanel core: a verified model

A Dafny model of the parts of VoltPanel, a local control plane written in Go, that carry
protocols, parsers and crash-sensitive state, with proofs of what they promise. Each module
follows one component:

- `Topo`, `Services`, `Supervisor`, `SupervisorSafety`, `SupervisorStop`, `SupervisorBudget`,
  `SupervisorGap`, `SupervisorOutcomes`, `Managers`, `Autostart`: the service supervisor. `Supervisor` is the step machine of one
  service id (one step per critical section, table write or outside event); `Managers` is the
  object whose methods take these steps; the properties are proved over all runs.
- `Text`, `Order`, `Hosts`, `HostsEdit`, `HostsSafety`, `HostsMeaning`: parser, printer and editor of the hosts file.
- `Stream`: the Docker stream demultiplexer. `PluginHost`: the extension protocol.
- `Sandbox`, `SandboxPaths`: path resolution over a file tree with symbolic links.
- `LocalCA`, `LocalCAOutcomes`, `Migrate`, `MigrateFiles`: the certificate authority and the migration
  runner, stopped anywhere.
- `NodeRuntime`, `NodeVersions`, `Runtimes`, `Detection`: version detection and the version table.
- `Quote`, `DeployLine`: shell quoting and the deploy command lines. `Hub`: the WebSocket hub. `Seqs`, `Wrappers`: shared helpers.

Code that changes state step by step is modelled by methods and classes, proved against
specification functions; the properties are lemmas about those functions and about runs.
Ids, clock readings, fresh keys, exit codes, the answers of the file system and of other
processes, and the points at which an operation is cut short are parameters, so every
statement holds for all of them.

Where a promise does not hold of the code, the exact condition is proved:

- A start that passes its check is safe if and only if nothing of an earlier attempt is left
  to do (`SupervisorGap.StartIsSafeIffResting`, example `GapExample`).
- A second Add of a host name is a no-op if and only if the name has no inner white space
  (`HostsSafety.AddIsIdempotentIff`, example `VerticalTabExample`).
- Detection keeps one default version if and only if it does not lose the old default while
  naming a new one (`Runtimes.OneDefaultAfterDetectionIff`, `Detection.OneDefaultUnlessLost`,
  example `LostDefaultExample`).
- A migration start-up applies every file if and only if no two share a version
  (`Migrate.EveryFileAppliedIff`, example `DuplicateVersionExample`).
- A stopped renewal keeps key and certificate together if and only if it was not stopped
  between writing the two (`LocalCA.RenewStaysPairedIff`, example `StoppedRenewalExample`).
- Writing to a path the sandbox accepted stays inside its root if and only if the last component
  is not a dangling link right after the deepest existing ancestor, or that link itself leads
  inside (`Sandbox.WriteStaysInsideIff`); nothing exists after that ancestor if and only if no
  dangling link comes next (`Sandbox.NothingBeyondIff`, example `DanglingLinkExample`).

Two places where code and comments differ, and the model follows the code: a service saved
without a restart policy gets the policy "on-failure" from the table (internal/storage/service_lifecycle_repo.go:71-114)
while a service read without one gets "no" (internal/domain/service/service.go:163-168); and
the comment on Renew announces the not-found error for revoked certificates, while the code
returns another error (internal/providers/ssl/localca/localca.go:291-305).

## Model

| member | source | states |
|---|---|---|
| Topo.Sort | internal/domain/service/topo.go:31-84 | For distinct ids the sort fails exactly when the graph of present dependencies has a cycle; the ids it then names are exactly those from which a cycle can be reached, each once, in input order; an order it returns is the one first-in-first-out order (`KahnOrder`) |
| Topo.CountDependencies | internal/domain/service/topo.go:37-50 | The in-degree of a service counts every mention of a present dependency, duplicates and itself included, and each dependency's wait list names those who wait for it, once per mention, in input order |
| Topo.Seed | internal/domain/service/topo.go:52-59 | The queue starts with the services that wait for nothing, in input order |
| Topo.Release | internal/domain/service/topo.go:66-71 | One turn lowers the degrees along the wait list and enqueues exactly those that reach zero, in that order |
| Topo.Drain | internal/domain/service/topo.go:61-72 | When the queue is empty the loop invariant holds with nothing waiting: everything ordered stands after its dependencies and in queue order |
| Topo.DrainStep | internal/domain/service/topo.go:61-72 | One turn of the loop keeps the invariant: counts agree with what has been ordered, dependencies stand first, and the queue is first in, first out |
| Topo.StuckServices | internal/domain/service/topo.go:74-82 | The ids reported on failure are exactly those that can reach a cycle, each once, in input order |
| Topo.LoopingMeans | internal/domain/service/topo.go:74-82 | What the failure report collects: the ids that can reach a cycle, without repetition, in ascending input position |
| Topo.LeftoverReachesCycle | internal/domain/service/topo.go:74-82 | Pigeonhole: in a set where every member depends on another member, each member reaches a cycle |
| Topo.OrderedReachesNoCycle | internal/domain/service/topo.go:61-72 | Nothing that was put in order can reach a cycle |
| Topo.LeftoverIsLooping | internal/domain/service/topo.go:61-82 | After the loop, positive in-degree, not ordered, and able to reach a cycle are the same thing |
| Topo.AllOrderedIffAcyclic | internal/domain/service/topo.go:74-82 | All services were ordered exactly when there is no cycle |
| Topo.SortedIntoLayers | internal/domain/service/topo.go:52-72 | The order is sorted into layers: if a chain of n dependencies hangs below a service, one of at least n hangs below every later one |
| Topo.OrderIsPermutation | internal/domain/service/topo.go:61-83 | The order holds every input id exactly once |
| Topo.OrderIsUnique | internal/domain/service/topo.go:52-72 | The contract determines the order: any two orders that satisfy it are equal |
| Topo.IndependentKeepInputOrder | internal/domain/service/topo.go:52-72 | Without dependencies the order is the input order |
| Topo.SameDependenciesKeepInputOrder | internal/domain/service/topo.go:52-72 | Two services with the same dependencies come in input order |
| Services.ToService | internal/domain/service/service.go:107-118 | A start request always yields at least one restart, a positive window and a positive graceful timeout, and a named policy |
| Services.FromRecord | internal/domain/service/service.go:138-154 | So does any saved row, whatever it holds |
| Services.StartRequestMeans | internal/domain/service/service.go:107-118 | A start request keeps every given value; what is left open becomes kind native, policy never, 5 seconds, 5 restarts, 60 seconds |
| Services.RowMeans | internal/domain/service/service.go:138-154 | A row is read field by field: seconds as nanoseconds, positive values kept, no policy read as never, no status as stopped |
| Services.SaveLoadMeans | internal/storage/service_lifecycle_repo.go:71-114 | What saving and loading makes of every field: whole seconds kept, a duration under a second replaced by its default, no policy turned into on-failure, no kind into native |
| Services.SaveLoadIsIdempotent | internal/domain/service/service.go:120-154 | Saving and loading twice equals doing it once, in spite of whole-second truncation and defaulting |
| Services.SaveLoadIsIdentityIff | internal/storage/service_lifecycle_repo.go:71-114 | Exactly which services come back unchanged: no defaulted field and only whole seconds |
| Services.DurationSurvives | internal/domain/service/service.go:120-154 | A duration survives exactly when it is positive and whole; what comes back then survives |
| Services.InstantSurvives | internal/storage/service_lifecycle_repo.go:153-192 | A saved instant comes back without its fraction of a second, and then stays |
| Supervisor.PruneRestartWindow | internal/domain/service/manager.go:201-213 | The loop keeps exactly the times after now minus the given window, each as often as it occurs, or after now minus a minute if the window is not positive |
| Supervisor.RecentIsTheWindow | internal/domain/service/manager.go:201-213 | Pruning keeps each time later than now minus the window as often as it occurs, and no other; the window is the service's own if that is positive, and a minute if not |
| SupervisorBudget.RecentTwice | internal/domain/service/manager.go:201-213 | Under a nondecreasing clock, pruning a pruned list later equals pruning the full history later |
| SupervisorBudget.SeesTheFullHistory | internal/domain/service/manager.go:185-191 | The decision on the pruned list is the decision on the full restart history |
| SupervisorBudget.BudgetIsKept | internal/domain/service/manager.go:185-198 | In any run, even with overlapping starts, at every moment from a granted restart on, the granted restarts of its chain inside the service's own window (a minute, if that is not positive) number at most maxRestarts, counted one by one |
| SupervisorBudget.RestartIffWithinBudget | internal/domain/service/manager.go:171-198 | An ended process is restarted if and only if it was not stopped, its policy asks for it, and the entries of the full history inside its own window, this end included, number at most maxRestarts |
| SupervisorSafety.StepKeepsSound | internal/domain/service/manager.go:75-121 | Every step of every attempt keeps the invariant that ties the live table, the saved row and the attempts together |
| SupervisorSafety.RunKeepsSound | internal/domain/service/manager.go:137-199 | So does every run in which a fresh start begins only when nothing of an earlier one is left to do |
| SupervisorStop.StepKeepsStopSafe | internal/domain/service/manager.go:137-198 | Every step, however starts overlap, keeps what Stop relies on: the live table names a process not yet reaped, a process asked to stop is never one about to start or restart, and no parent was asked to stop |
| SupervisorStop.StopIsFinal | internal/domain/service/manager.go:147-198 | In every run, fresh starts that slip in between reap and outcome included: once the step Stop was taken with process n in the live table, n is never about to be restarted and nothing is ever started as its restart, in any continuation |
| SupervisorSafety.StopLeavesItStopped | internal/domain/service/manager.go:221-265 | After the step Stop with process n in the live table: when its waiter is done, and unless somebody started anew, the live table has no entry and the saved status is stopped with no pid |
| SupervisorSafety.SoundIsGood | internal/domain/service/manager.go:336-340 | From the invariant: at most one process, and with no step half done the saved status is running exactly when the live table holds the id, pid and exit code agreeing |
| SupervisorSafety.RunsAreGood | internal/domain/service/manager.go:59-199 | The same in every state of every such run |
| SupervisorGap.StartIsSafeIffResting | internal/domain/service/manager.go:59-121 | The check and the insert are separate critical sections: a start that passed its check can lead to no bad state if and only if nothing of an earlier attempt was left to do |
| SupervisorGap.UnsafeUnlessResting | internal/domain/service/manager.go:137-199 | Otherwise there is a run to a state with two processes, or to a saved row that says ended over a live process; the run is constructed |
| SupervisorGap.GapExample | internal/domain/service/manager.go:150-181 | A concrete run into the gap between reap and outcome |
| SupervisorOutcomes.DecisionMeans | internal/domain/service/manager.go:166-191 | A deliberate end is stopped; an end the policy does not restart is stopped or failed by its exit code; any other is restarted or failed |
| SupervisorOutcomes.StartIsRecorded | internal/domain/service/manager.go:101-114 | A process that came up is in the live table and its row says running, with its pid and start and no old end |
| SupervisorOutcomes.EndIsRecorded | internal/domain/service/manager.go:147-191 | An end takes the id out of the live table; without a restart the row gets the decided status, the exit code, the time of the end and no pid |
| SupervisorOutcomes.RestartIsRecorded | internal/domain/service/manager.go:153-198 | A granted restart is a new attempt at the same service with the end it follows, and touches neither row nor live table |
| SupervisorOutcomes.FailedRestartIsRecorded | internal/domain/service/manager.go:194-198 | A restart that got no process is saved as failed |
| SupervisorOutcomes.FreshStartIsFresh | internal/domain/service/manager.go:66-70 | A manual start and the start after Stop begin with an empty restart history and unmarked |
| Managers.JudgeExit | internal/domain/service/manager.go:166-193 | The waiter's branches by request, policy, exit code and pruned budget give the decision that the budget theorems are about |
| Managers.Manager.constructor | internal/domain/service/manager.go:52-54 | A new manager has no process, no row and no attempt for any id |
| Managers.Manager.BeginStart | internal/domain/service/manager.go:59-70 | Start is refused if the id is in the live table or the command is empty; else a fresh attempt with the defaulted service begins; no other id changes |
| Managers.Manager.SpawnProcess | internal/domain/service/manager.go:75-108 | A process appears: pid, running, start time set, old end cleared |
| Managers.Manager.SpawnFailed | internal/domain/service/manager.go:75-108 | A failed spawn changes no table |
| Managers.Manager.Insert | internal/domain/service/manager.go:110-112 | The attempt enters the live table under its id |
| Managers.Manager.PersistStarted | internal/domain/service/manager.go:114-120 | The running service is saved |
| Managers.Manager.RequestStop | internal/domain/service/manager.go:221-238 | Stop marks the process in the live table as asked to stop, if there is one, and otherwise changes nothing |
| Managers.Manager.ReapProcess | internal/domain/service/manager.go:137-151 | The end is recorded, the request to stop is read, and the id leaves the live table |
| Managers.Manager.SettleExit | internal/domain/service/manager.go:153-198 | The waiter saves the outcome or grants the restart that was decided, with the end recorded and the pid cleared |
| Managers.Manager.RestartFailed | internal/domain/service/manager.go:192-198 | When the restart gets no process, the row becomes failed |
| Managers.Manager.CloseDone | internal/domain/service/manager.go:137-140 | The waiter's return releases those waiting in Stop |
| Managers.Manager.BeginRestart | internal/domain/service/manager.go:270-290 | Restart of a service that is not running begins from its saved row, or fails if there is none |
| Managers.Manager.RestartAfterStop | internal/domain/service/manager.go:270-290 | Restart goes on after its Stop with the service of the stopped attempt |
| Autostart.StartAutostart | internal/domain/service/manager.go:349-397 | Stated over the rows: nothing is started exactly when the rows marked for autostart depend on each other in a cycle, and then those that lead into one are named, in row order; otherwise every log entry is about a marked row, seen running or attempted as the service that row describes, at most once, after all its marked dependencies, failures notwithstanding; every marked row is handled unless cancelled |
| Autostart.SelectWanted | internal/domain/service/manager.go:355-361 | The services are those of the marked rows, all of them, in row order: service k comes from row idx[k], idx ascending |
| Autostart.WantedSelects | internal/domain/service/manager.go:355-361 | The selection is the ascending list of all positions of marked rows |
| Autostart.IndexById | internal/domain/service/manager.go:371-374 | Each wanted service is found under its id |
| Autostart.StartInOrder | internal/domain/service/manager.go:376-395 | The log follows the order: a service that runs is skipped, any other is attempted, a failure does not end the loop |
| Autostart.PrefixKeepsOrder | internal/domain/service/manager.go:376-395 | However early the loop is cancelled, dependencies still came first and nothing came twice |
| Stream.DemuxStream | internal/providers/docker/stream.go:22-55 | A body that does not start with a frame header, or is shorter than one, comes back unchanged; any other decodes to its payloads; a failing reader is an error; the loop ends |
| Stream.NextFrame | internal/providers/docker/stream.go:37-54 | One turn takes one header and its payload, or what is left of them, and what it returns plus the decoding of the rest is the decoding before |
| Stream.Reader.Take | internal/providers/docker/stream.go:25-53 | Reads as many bytes as asked for unless the body ends, and moves on by just that many |
| Stream.DecodeEncode | internal/providers/docker/stream.go:22-55 | Decoding the encoding of any list of frames with payloads under 2^32 bytes (first stream type at most 2) gives the concatenated payloads |
| Stream.DecodeTruncated | internal/providers/docker/stream.go:37-54 | A body cut off inside a frame gives all earlier payloads and what arrived of the last |
| Stream.PrefixDecodesToPrefix | internal/providers/docker/stream.go:37-54 | Decoding any prefix of a framed body gives a prefix of decoding the body |
| Stream.EveryBodyIsFrames | internal/providers/docker/stream.go:37-54 | Any framed body is whole frames and at most one cut-off frame, and decodes accordingly |
| Stream.FramesThen | internal/providers/docker/stream.go:37-54 | Whole frames first, then whatever follows |
| Stream.BigEndianOfU32 | internal/providers/docker/stream.go:45-47 | Writing the decoded length big-endian gives back its four bytes |
| Stream.U32OfBytes | internal/providers/docker/stream.go:45-47 | The length is the four bytes weighted 2^24, 2^16, 2^8 and 1 |
| Stream.FramedMeans | internal/providers/docker/stream.go:57-62 | A body is taken for framed exactly when it has eight bytes and begins with 0, 1 or 2 and three zeros |
| Stream.FramedIff | internal/providers/docker/stream.go:57-62 | An encoded list of frames is recognised exactly when its first frame has stream type at most 2 and zeros after it |
| Hosts.ParseAll | internal/providers/domainprovider/hosts/hosts.go:112-122 | The loop computes the parse of the whole content, line by line |
| Hosts.Render | internal/providers/domainprovider/hosts/hosts.go:147-161 | The loop computes the printed file |
| Hosts.ParsedIsWellFormed | internal/providers/domainprovider/hosts/hosts.go:124-145 | Whatever a raw line holds, its parsed data has no white space, hash or line end where printing could break it |
| Hosts.ParseRender | internal/providers/domainprovider/hosts/hosts.go:102-108 | Printing a data line and parsing it gives the same data line |
| Hosts.ParsedRendered | internal/providers/domainprovider/hosts/hosts.go:112-161 | Parsing a printed list of lines gives the list back, with raw texts as printed and at most one blank line more |
| Hosts.RenderParseKeepsLines | internal/providers/domainprovider/hosts/hosts.go:112-161 | For every content: the same data lines in the same places, other lines keep their text, at most one blank line is added at the end |
| Hosts.RenderParseIsIdempotent | internal/providers/domainprovider/hosts/hosts.go:147-161 | For every content: printing the parse of a printed parse changes nothing |
| HostsEdit.Provider.CheckHost | internal/providers/domainprovider/hosts/hosts.go:93-100 | A data line names a host iff one of its names equals it up to case folding |
| HostsEdit.Provider.Read | internal/providers/domainprovider/hosts/hosts.go:168-177 | A missing file reads as no content |
| HostsEdit.Provider.Add | internal/providers/domainprovider/hosts/hosts.go:202-232 | The first line naming the host decides: foreign refuses without writing, a managed line at home is left alone, a managed line elsewhere is re-pointed in place, none appends a managed line |
| HostsEdit.Provider.Remove | internal/providers/domainprovider/hosts/hosts.go:238-264 | Removes exactly the managed lines naming the host and no other, or reports not found and writes nothing |
| HostsEdit.Provider.List | internal/providers/domainprovider/hosts/hosts.go:269-286 | The names on managed lines, all of them, sorted |
| HostsEdit.Provider.Conflicts | internal/providers/domainprovider/hosts/hosts.go:296-321 | One conflict for each line naming the host that is foreign or managed but pointed elsewhere |
| HostsSafety.AddPointsHome | internal/providers/domainprovider/hosts/hosts.go:202-232 | For every content and name without inner white space: after a successful Add the first line naming it is a managed 127.0.0.1 line, and no foreign data changed |
| HostsSafety.KeepIffPointsHome | internal/providers/domainprovider/hosts/hosts.go:213-225 | Add writes nothing exactly when the first line naming the host is managed and points home |
| HostsSafety.AddIsIdempotentIff | internal/providers/domainprovider/hosts/hosts.go:186-232 | A second Add writes nothing if and only if the normalised name has no inner white space; the name check rejects only space, tab and hash |
| HostsSafety.VerticalTabExample | internal/providers/domainprovider/hosts/hosts.go:186-195 | A name with a vertical tab passes the check; added to an empty file, it is appended again by a second Add |
| HostsSafety.NoConflictsMeans | internal/providers/domainprovider/hosts/hosts.go:296-321 | No conflict means that every line naming the host is managed and points home, and conversely |
| HostsSafety.NoConflictsAddSucceeds | internal/providers/domainprovider/hosts/hosts.go:202-232 | Without conflicts Add succeeds, and either writes nothing or only appends |
| HostsSafety.RefusedIffForeignFirst | internal/providers/domainprovider/hosts/hosts.go:202-232 | Add refuses exactly when the first line naming the host is foreign |
| HostsSafety.RemoveKeepsForeign | internal/providers/domainprovider/hosts/hosts.go:238-264 | Remove never changes the data of a foreign line |
| HostsSafety.AddThenRemove | internal/providers/domainprovider/hosts/hosts.go:202-264 | Add then Remove of a name nobody mentions restores the sequence of data lines |
| HostsSafety.ReparsedData | internal/providers/domainprovider/hosts/hosts.go:168-184 | What is written is what is read back, data line by data line |
| HostsMeaning.LineWithComment | internal/providers/domainprovider/hosts/hosts.go:124-145 | For every text around the first hash: the fields before it are address and names, the trimmed text after it is the comment, and the line is Volt's own exactly when that comment is volt-managed; with fewer than two fields it is no data line |
| HostsMeaning.LineWithoutComment | internal/providers/domainprovider/hosts/hosts.go:124-145 | A line without a hash is data from its fields alone, without comment and not Volt's own |
| HostsMeaning.ManagedIffMarked | internal/providers/domainprovider/hosts/hosts.go:139-144 | For every raw line that parses: it is Volt's own if and only if the trimmed text after its first hash is volt-managed |
| HostsMeaning.DataLineText | internal/providers/domainprovider/hosts/hosts.go:102-108 | The printed text of a data line: a tab after the address, one blank between names, a tab, hash and blank before the comment |
| HostsMeaning.FileText | internal/providers/domainprovider/hosts/hosts.go:156-160 | A printed file that is not empty ends with a newline, one after the last line that has text |
| HostsMeaning.NewLineText | internal/providers/domainprovider/hosts/hosts.go:102-166 | The line written for a new name, character by character |
| HostsMeaning.NormalizeMeans | internal/providers/domainprovider/hosts/hosts.go:186-195 | White space around a name is dropped; the name is refused exactly when nothing is left or a space, tab or hash is inside |
| HostsMeaning.NamesMeans | internal/providers/domainprovider/hosts/hosts.go:93-100 | A line names a host exactly when one of its names has the same folded text |
| HostsMeaning.AddOfNewName | internal/providers/domainprovider/hosts/hosts.go:230-231 | A name no line has gets a new line at the end, the others unchanged |
| HostsMeaning.AddOfListedName | internal/providers/domainprovider/hosts/hosts.go:215-228 | The first line with the name decides by its comment and address: refused, kept, or only its address changed |
| HostsMeaning.RemoveLeavesTheOthers | internal/providers/domainprovider/hosts/hosts.go:251-263 | What Remove leaves is the ascending selection of exactly the lines that are not marked lines of this one name |
| HostsMeaning.ManagedHostsMeans | internal/providers/domainprovider/hosts/hosts.go:277-283 | A name is listed exactly when it stands on a line whose comment is volt-managed |
| HostsMeaning.ManagedHostsCount | internal/providers/domainprovider/hosts/hosts.go:277-283 | And as often as it stands there |
| HostsMeaning.ConflictsMean | internal/providers/domainprovider/hosts/hosts.go:308-319 | One conflict for each line with the name that is not a marked line at 127.0.0.1, in file order, with that line's address and of the kind its mark says |
| Text.TrimIs | internal/providers/domainprovider/hosts/hosts.go:124-134 | Trimming takes off exactly the white space at both ends |
| Text.FieldsMeans | internal/providers/domainprovider/hosts/hosts.go:135 | The fields of a text are its words, whatever white space stands around them |
| Order.SortSorts | internal/providers/domainprovider/hosts/hosts.go:269-286 | The order sort.Strings promises: ascending bytes, same elements |
| Order.SortedIsUnique | internal/providers/domainprovider/hosts/hosts.go:269-286 | A sorted list is determined by its elements, so any sort gives this one |
| Order.LeqMeans | internal/providers/domainprovider/hosts/hosts.go:284 | The order is the lexicographic one: a prefix, or a smaller character at the first difference |
| Sandbox.IsWithinIffPrefix | internal/security/sandbox.go:66-75 | Going by filepath.Rel, a target is within the root exactly when the root is a component-wise prefix of it |
| Sandbox.ResolveExistingAncestor | internal/security/sandbox.go:79-98 | The upward walk ends and finds the evaluated deepest ancestor that can be evaluated, with the rest of the path appended |
| Sandbox.Resolve | internal/security/sandbox.go:39-64 | A user path is accepted exactly when what was located lies within the root, and then as joined |
| Sandbox.EvalArrives | internal/security/sandbox.go:79-98 | Following links ends at something that is there and is not a link |
| Sandbox.EvalAppend | internal/security/sandbox.go:79-98 | Evaluating a longer path is evaluating on from where the shorter one led |
| Sandbox.RealPathEvaluatesToItself | internal/security/sandbox.go:79-98 | A path without links evaluates to itself |
| Sandbox.MissingWithFewerLinks | internal/security/sandbox.go:79-98 | What is missing after many links is missing after fewer |
| Sandbox.NextIsAbsentOrDangling | internal/security/sandbox.go:79-98 | The component at which evaluation fails is absent or a dangling link |
| Sandbox.AcceptedStaysInside | internal/security/sandbox.go:39-64 | For every tree, dangling links or not: an accepted path has its deepest existing ancestor, followed through all links, inside the root; the next component is absent or a dangling link and none after it exists |
| Sandbox.NothingBeyond | internal/security/sandbox.go:39-64 | Without dangling links, no later component exists at all |
| Sandbox.AcceptedIffAncestorInside | internal/security/sandbox.go:39-64 | The decision rests on that ancestor alone: accepted if and only if it is inside the root |
| Sandbox.NothingBeyondIff | internal/security/sandbox.go:39-64 | For every accepted path: nothing exists after the deepest existing ancestor if and only if the next component is not a dangling link |
| Sandbox.AcceptedLandsAt | internal/storage/store.go:247-253 | Where writing to an accepted path comes to stand: at the place it leads to if it exists, at the last component if only that is absent, where the link leads if that is a dangling link, nowhere if more is missing |
| Sandbox.WriteStaysInsideIff | internal/storage/store.go:247-253 | Writing to an accepted path stays inside the root if and only if its last component is not a dangling link right after the deepest existing ancestor, or that link itself leads inside |
| Sandbox.DanglingLinkExample | internal/security/sandbox.go:36-64 | With root /a and a dangling link /a/b to /x, the user path b is accepted as /a/b and writing to it creates /x, which is outside |
| SandboxPaths.CleanCancels | internal/security/sandbox.go:43-48 | Cleaning drops a dot and lets two dots take away the name before them |
| SandboxPaths.CleanIsTheWalk | internal/security/sandbox.go:43-48 | Where no link is met, the cleaned path is where walking the path component by component arrives |
| SandboxPaths.JoinedNames | internal/security/sandbox.go:43-48 | An absolute path stands for itself whatever the root, a relative one continues the root, an empty one is the root |
| SandboxPaths.AbsoluteAcceptedIff | internal/security/sandbox.go:39-64 | An absolute path to a directory is accepted exactly when the directory stands in the root |
| SandboxPaths.ClimbingOutIsRejected | internal/security/sandbox.go:39-64 | Two dots from the root and on to a directory outside it are refused |
| SandboxPaths.LocatedMeans | internal/security/sandbox.go:79-98 | What is located is where the deepest part that leads anywhere leads, with the rest of the path behind it; an error other than not-found rejects |
| SandboxPaths.MissingRootIsAccepted | internal/security/sandbox.go:18-64 | A root that does not exist yet in a directory that does can be asked for |
| SandboxPaths.LinkLeads | internal/security/sandbox.go:83 | A link to an absolute path leads there, one to a relative path leads on from where the link stands |
| PluginHost.ExternalProvider.LoadExtension | internal/pluginhost/host.go:137-199 | Loading succeeds exactly when the first line is a handshake of the supported version; any other end closes the provider |
| PluginHost.ExternalProvider.ReadLine | internal/pluginhost/host.go:214-259 | One line, or none on time-out, cancellation or end of output; a reader left behind may take a line later |
| PluginHost.ExternalProvider.CallMethod | internal/pluginhost/host.go:275-324 | The order of checks and which of them close the provider: write failure, no line, malformed line and wrong id do, bad parameters and remote errors do not |
| PluginHost.ExternalProvider.CloseLocked | internal/pluginhost/host.go:329-342 | Closing twice is closing once |
| PluginHost.StepKeepsSound | internal/pluginhost/host.go:214-324 | Every step against any subprocess keeps the invariant |
| PluginHost.RunKeepsSound | internal/pluginhost/host.go:137-351 | So does every run, and a closed provider stays closed |
| PluginHost.OpenMeansLockstep | internal/pluginhost/host.go:182-324 | In every run, while open: lines scanned equal requests written plus one, no reader is outstanding, and line i+1 carries the id of request i |
| PluginHost.SuccessIsTheNextLine | internal/pluginhost/host.go:303-324 | A successful call returns the line right after all earlier answers, without error, carrying its own id |
| PluginHost.AnswersAreNotShared | internal/pluginhost/host.go:287-324 | With a new id, no line scanned earlier could have answered this call |
| PluginHost.ClosedIsPermanent | internal/pluginhost/host.go:279-281 | After any history a closed provider answers every later call with unavailable and changes nothing |
| PluginHost.UnaskedLineCloses | internal/pluginhost/host.go:303-319 | One line too many is read as the next answer and ends the conversation |
| PluginHost.ReadyIffVersionOne | internal/pluginhost/host.go:182-199 | In every run the extension is loaded exactly when its first line is a handshake of version 1, and closed otherwise |
| PluginHost.CallOutcome | internal/pluginhost/host.go:275-324 | In every run an open provider hands on the matching next line, success or remote error, and stays open, with one request written and one line scanned; any other next event fails the call and closes it |
| PluginHost.BadParamsChangeNothing | internal/pluginhost/host.go:275-290 | Parameters that cannot be encoded change nothing |
| LocalCA.Provider.EnsureAuthority | internal/providers/ssl/localca/localca.go:114-163 | Stopped before any write, the disk is the plan's prefix: nothing if the CA loads, else key and then certificate |
| LocalCA.Provider.EnsureLocked | internal/providers/ssl/localca/localca.go:120-163 | The writes made are a prefix of that plan, and on success the CA loads |
| LocalCA.Provider.SignLeaf | internal/providers/ssl/localca/localca.go:222-256 | Key first, then the certificate signed by the CA |
| LocalCA.Provider.IssueCertificate | internal/providers/ssl/localca/localca.go:196-220 | Stopped before any write, the disk is the prefix of: CA if needed, leaf key, leaf certificate, record |
| LocalCA.Provider.RenewCertificate | internal/providers/ssl/localca/localca.go:294-319 | Unknown and revoked ids are refused without a write; else a prefix of key, certificate, record |
| LocalCA.Provider.RevokeCertificate | internal/providers/ssl/localca/localca.go:324-340 | Unknown is refused, revoked is done; else a prefix of removing the key and marking the record |
| LocalCA.PlanIsSafe | internal/providers/ssl/localca/localca.go:120-340 | Every operation orders its writes so that each is safe in the state the earlier ones leave |
| LocalCA.RunKeepsSound | internal/providers/ssl/localca/localca.go:120-340 | Every history of finished and stopped operations keeps the invariant and what was settled |
| LocalCA.RevokedForever | internal/providers/ssl/localca/localca.go:324-340 | After any history a revoked certificate has no key file, and no later history changes that |
| LocalCA.OneCaForever | internal/providers/ssl/localca/localca.go:120-163 | Once a CA loads it is never replaced, its key and certificate match, and every leaf certificate was signed by it |
| LocalCA.RenewableUnlessRevoked | internal/providers/ssl/localca/localca.go:294-319 | After any history renewal goes ahead exactly for known certificates that are not revoked: the CA it needs is there |
| LocalCA.IssuedIffFinished | internal/providers/ssl/localca/localca.go:196-220 | A certificate is known exactly when its issuing was not stopped |
| LocalCA.RevokeCanBeRepeated | internal/providers/ssl/localca/localca.go:324-340 | Revoking again after a stop at any point ends where one uninterrupted call ends |
| LocalCA.RenewStaysPairedIff | internal/providers/ssl/localca/localca.go:294-319 | A stopped renewal leaves key and certificate matching if and only if it was not stopped between writing the two |
| LocalCA.StoppedRenewalExample | internal/providers/ssl/localca/localca.go:294-319 | A renewal stopped after its first write leaves the new key beside the old certificate |
| LocalCA.FinishedRenewRepairs | internal/providers/ssl/localca/localca.go:294-319 | A finished renewal makes them match, whatever was there before |
| LocalCAOutcomes.FinishedEnsureCA | internal/providers/ssl/localca/localca.go:114-163 | Finished, it leaves a matching CA, the old one if that loads, and no leaf changed |
| LocalCAOutcomes.FinishedIssue | internal/providers/ssl/localca/localca.go:196-220 | Finished, it leaves a valid record and a certificate for the host name and the new key, signed by the CA, and no other certificate changed |
| LocalCAOutcomes.FinishedRenew | internal/providers/ssl/localca/localca.go:294-319 | Finished, it leaves a valid record and a new key with its certificate for the recorded host name, signed by the same CA |
| LocalCAOutcomes.FinishedRevoke | internal/providers/ssl/localca/localca.go:324-340 | Finished, it leaves the record revoked and no key; the certificate, the CA and all others stay |
| LocalCAOutcomes.RefusedWritesNothing | internal/providers/ssl/localca/localca.go:196-340 | An empty host name, and an unknown or revoked id, cause no write |
| Migrate.Store.Migrate | internal/storage/sqlite.go:36-84 | Stopped after any number of files, the database is that of the specified start-up over the non-directory names in name order |
| Migrate.VersionOfDigits | internal/storage/sqlite.go:86-93 | The version of a name that starts with digits and an underscore is the number they write, if it fits 64 bits |
| MigrateFiles.AtoiMeans | internal/storage/sqlite.go:86-93 | A text is read as v exactly when it writes v in digits with at most one sign before them and v fits 64 bits |
| MigrateFiles.VersionIsBeforeUnderscore | internal/storage/sqlite.go:86-93 | The version of a name is that of the text before its first underscore, or of the whole name without one |
| MigrateFiles.FileNamesMean | internal/storage/sqlite.go:44-49 | The names are those of exactly the entries that are no directories, in order |
| Migrate.PaddedNamesKeepVersionOrder | internal/storage/sqlite.go:52-53 | Files are applied in name order, which is version order for numbers padded to one width |
| Migrate.StartupExtendsPrefix | internal/storage/sqlite.go:53-82 | From the first k files applied, one start-up gets as far as its stop and the first bad file allow, and never back |
| Migrate.AlwaysAPrefix | internal/storage/sqlite.go:36-84 | With distinct versions, after any number of start-ups cut short anywhere the database is the first so many files, once each, in name order, as far as the furthest of them could get |
| Migrate.SuccessIsComplete | internal/storage/sqlite.go:36-84 | A start-up that succeeds after any history leaves what one uninterrupted start-up leaves, and a further one changes nothing |
| Migrate.EveryFileAppliedIff | internal/storage/sqlite.go:58-64 | A first successful start-up applied every file if and only if no two files share a version; otherwise one is passed over in silence |
| Migrate.DuplicateVersionExample | internal/storage/sqlite.go:58-64 | Of two files with version 1 the second is never run, and the start-up succeeds |
| NodeRuntime.ManagedVersions | internal/providers/runtime/node/installer.go:74-96 | The complete installed versions of the managed directory; none if it is absent, an error if it cannot be read |
| NodeRuntime.DetectInstalled | internal/providers/runtime/node/node.go:68-90 | The active version and every managed version other than it, strictly ascending, so none twice |
| NodeRuntime.DefaultIsTheActiveOne | internal/providers/runtime/node/installer.go:56-63 | A detected version is marked default exactly when it is the active one |
| NodeRuntime.AtMostOneDefault | internal/providers/runtime/node/node.go:76-88 | At most one entry of the result is a default |
| NodeVersions.HasVersionMeans | internal/providers/runtime/node/node.go:113 | A name matches exactly when digits, dot, digits, dot, digit stand somewhere in it |
| NodeVersions.DefaultIsActive | internal/providers/runtime/node/installer.go:56-72 | The version default.txt names, white space around it or not, is active when its binary is there |
| NodeVersions.PathIsActive | internal/providers/runtime/node/node.go:119-133 | Otherwise the node on PATH is, with its own version and path, if there is one |
| NodeVersions.DetectedMeans | internal/providers/runtime/node/node.go:68-90 | Exactly what is detected: the active version, and each complete directory with a version name other than it, with its path and not as default |
| Runtimes.Repository.GetRuntimeByKind | internal/domain/runtime/runtime.go:82-92 | A row of the kind, or none if there is none |
| Runtimes.Repository.EnsureRuntime | internal/domain/runtime/runtime.go:69-80 | Inserts a runtime row only for a kind without one; called by one caller at a time, kinds stay unique |
| Runtimes.Repository.ReplaceDetected | internal/domain/runtime/runtime.go:100-144 | The loop reconciles the table with the detected list, in one transaction; (runtime, version) stays unique although the schema does not ask for it |
| Runtimes.Repository.SetDefaultVersion | internal/domain/runtime/runtime.go:214-244 | Fails without a change for an unknown version; else sets that default |
| Runtimes.InstalledIffDetected | internal/domain/runtime/runtime.go:112-138 | Afterwards the installed versions of the runtime are exactly the detected ones |
| Runtimes.NothingIsLost | internal/domain/runtime/runtime.go:94-99 | No row is lost or renamed, and other runtimes are not touched |
| Runtimes.DetectedRow | internal/domain/runtime/runtime.go:116-137 | A detected version has one installed row that holds the path and default mark of its last detection |
| Runtimes.UndetectedRow | internal/domain/runtime/runtime.go:112-114 | A version not detected keeps its row, path and default mark, and is missing |
| Runtimes.DetectingAgainChangesNothing | internal/domain/runtime/runtime.go:100-144 | The same detection again changes nothing, ids included |
| Runtimes.OutcomeIsDetermined | internal/domain/runtime/runtime.go:100-144 | Two outcomes of one detection differ only in the ids of new rows |
| Runtimes.ExactlyOneDefault | internal/domain/runtime/runtime.go:236-242 | Afterwards exactly one version of the runtime is the default, the one asked for, and nothing else changed |
| Runtimes.OneDefaultAfterDetectionIff | internal/domain/runtime/runtime.go:112-138 | A detection keeps at most one default if and only if it does not lose the old default while naming a new one: a missing row stays a default |
| Runtimes.LostDefaultExample | internal/domain/runtime/runtime.go:112-138 | The default is gone, another version is detected as the default, and both rows end up as defaults |
| Detection.TableMatchesTheMachine | internal/domain/runtime/runtime.go:94-144 | Detection followed by the update makes the installed versions those on the machine |
| Detection.RowsAreAsDetected | internal/domain/runtime/runtime.go:94-144 | Every version on the machine ends up as an installed row with its path, default exactly if it is the active one |
| Detection.OneDefaultUnlessLost | internal/domain/runtime/runtime.go:94-144 | And keeps at most one default, unless there is an active version and the old default is gone from the machine |
| Quote.QuotedIsOneWord | internal/domain/deployment/engine.go:280-282 | Wherever it stands, a quoted string adds exactly that string to the word being read |
| Quote.QuoteSplits | internal/domain/deployment/engine.go:280-282 | The quoted text itself: what stands before a quote in single quotes, then a backslash and the quote, then the rest quoted |
| Quote.QuotedListRoundTrip | internal/domain/deployment/engine.go:280-282 | Quoting any list of strings and joining with blanks is read as that list, empty strings and strings of quotes included |
| Quote.ArgumentsStayArguments | internal/domain/deployment/engine.go:87-90 | Any command template in the fragment, filled with quoted arguments, is read as the template says, the arguments unopened |
| Quote.ArgumentsNeverChangeTheCommands | internal/domain/deployment/engine.go:87-112 | Two fillings of one template in the fragment give the same operators and words in the same places |
| DeployLine.CheckoutMeansTheSame | internal/domain/deployment/engine.go:87-90 | Whatever path, branch and address hold, the checkout line is read as the same forty tokens, with each of the nine quoted values inside the one word it stands in |
| DeployLine.CheckoutIsRead | internal/domain/deployment/engine.go:87-90 | The format string of that line stays in the fragment and has that meaning |
| DeployLine.LineFills | internal/domain/deployment/engine.go:87-90 | A format string filled with quoted values is the text the two readings are about |
| Quote.RollbackIsTwoCommands | internal/domain/deployment/engine.go:200 | The rollback line is one cd and one git checkout, whatever the path and the reference hold |
| Hub.Broadcaster.EmitMessage | internal/ws/ws.go:128-133 | A message is taken or refused at once; refused only when 1024 are waiting |
| Hub.Broadcaster.Receive | internal/ws/ws.go:35-36 | The loop takes the oldest waiting message |
| Hub.Broadcaster.WriteEach | internal/ws/ws.go:38-40 | The loop over the members, in any order, writes the message once to each of them and to nobody else |
| Hub.Broadcaster.WriteToAll | internal/ws/ws.go:35-43 | A turn of the loop delivers the message in hand to the members of that moment |
| Hub.Broadcaster.Register | internal/ws/ws.go:71-73 | A client joins at the present point of the broadcast |
| Hub.Broadcaster.Unregister | internal/ws/ws.go:74-91 | A client leaves, and leaving twice is leaving once |
| Hub.StepKeepsSound | internal/ws/ws.go:32-133 | Every step keeps the invariant of channel, loop and members |
| Hub.MembersMissNothing | internal/ws/ws.go:35-79 | In every run a member was sent the contiguous piece of the accepted messages from its joining to the last one delivered, in order, once each |
| Hub.JoiningMakesAMember | internal/ws/ws.go:71-73 | A client that joins is a member from the present point on, with nothing sent yet; joining again changes nothing, nor does it touch others |
| Hub.LeavingEndsTheStay | internal/ws/ws.go:74-91 | A client that leaves is no member and its stay is over; leaving again changes nothing, nor does it touch others |
| Hub.SentEverythingSinceJoining | internal/ws/ws.go:35-91 | In every run: from its joining until it leaves a client is sent all messages delivered since, in order, once each |
| Hub.EndedStaysAreContiguous | internal/ws/ws.go:74-91 | The same for every stay that is over |
| Hub.LaterMemberSeesTheTail | internal/ws/ws.go:35-43 | Of two members, the later one was sent the tail of what the earlier one was sent |
| Hub.RefusedOnlyWhenFull | internal/ws/ws.go:128-133 | In every run an emitted message is appended to the accepted ones, or refused with exactly 1024 waiting and nothing else changed |
| Hub.Conservation | internal/ws/ws.go:128-133 | The emitted messages are the accepted and the refused ones, each as often |

## Left out

- HTTP handlers, routing, the UI, the CLI, start-up code, metrics and the Docker, GitHub and SSH clients: transport and I/O.
- The contents of SQL, JSON, x509 and cryptography: tables are maps or sequences of rows, a certificate names the key that signed it, lines are given by how they decode.
- Real processes, signals, pipes and log files: a process is something that appears and ends with a code; the graceful and forced kill in Stop is its end.
- SupervisorSafety.RunKeepsSound: assumes that a fresh start begins only when nothing of an earlier one is left to do, and with it what a quiet row says and the row left by Stop; `SupervisorGap.StartIsSafeIffResting` says exactly when that is needed. That a stopped process is never restarted, and the restart budget, are proved for every interleaving.
- Failed writes to the services table, and rows left running by an earlier life of the daemon: the manager handles neither.
- The pause and the log line after each autostart attempt, and services started by others in the meantime: whether a service runs when its turn comes is a parameter.
- Overflow of clock arithmetic in 64 bits; durations themselves are wrapped where they are saved.
- Byte-exact spacing of foreign hosts lines, which the code normalises: claims are about their data.
- HostsSafety.AddPointsHome: for names without inner white space only; `HostsSafety.AddIsIdempotentIff` covers every name and shows that condition to be exact for the second Add.
- Case folding of host names and invalid UTF-8: folding is a parameter, text is a sequence of code points.
- Slashes at the end of link targets, permissions and changes of the tree during resolution: the sandbox is judged on one tree. Creating a file follows as many links as evaluating a path does; an operating system that gives up earlier creates nothing.
- Atomicity inside a single file write of the certificate authority: each write or removal is one step, and a file that is there parses. Fresh ids do not collide with known ones.
- Runtimes.Repository.EnsureRuntime: the lookup and the insert are separate statements outside a transaction and the kind column is not unique, so two overlapping first detections of one kind can insert it twice; unique kinds are claimed for one caller at a time.
- Migration scripts that touch the version table themselves: what a script does to the rest of the database is a parameter.
- Installing and removing Node.js versions and their staging directory: detection sees one snapshot.
- Deploy and Rollback beyond the command lines they build, double quotes, expansions and redirections in shell input: the reader of shell words stops at them. NUL characters are not set apart.
- Authentication of WebSocket clients and failed writes to a connection: a write counts as sent.
- brew jobs, the extension registry, proxy routes and the simple repositories: easy members or many side conditions.
