# AgentShell: a verified model

AgentShell starts and stops groups of processes ("stacks") whose members depend on each
other, and stacks that depend on other stacks. This project models its core in Dafny and
proves what that core keeps. `dafny verify dfyconfig.toml` checks all of it.

The program's loops are methods with loops here, its records with changing fields are
classes, and each such method is proved against a function or predicate about which the
properties are then proved. What the program asks the outside world is a parameter: how a
start or a wait turns out, whether a process group lives, whether a port answers, whether a
stop succeeds. The statements hold for all answers. Go visits map entries in no fixed order,
so loops over maps take them in an arbitrary one.

| file | subject |
|---|---|
| Digraph.dfy, Text.dfy, Positions.dfy, Results.dfy | finite graphs, strings, lists taken from others, optional values |
| Prerequisites.dfy | prerequisites between stacks: normalization, cycle search, the stored graph |
| PrerequisiteStart.dfy | which prerequisite stacks a start brings up, and in which order |
| StackMembers.dfy | selecting members for a start, ordering them for a stop, what a save admits |
| Scheduler.dfy, SchedulerSafety.dfy, SchedulerOrder.dfy, SchedulerCompletion.dfy, SchedulerTiming.dfy | the wave scheduler for the members of a stack |
| RunTables.dfy, RunLifecycle.dfy, RunHistory.dfy, RunPolicies.dfy, RunPromotion.dfy | runs under any interleaving of launches, stops, kills, exits and polls |
| PortEvidence.dfy, Listeners.dfy | evidence about external ports and what is concluded from it |
| LogTail.dfy | the last lines of a log, read backwards in chunks |
| ParentForest.dfy | parent pointers of HTTP folders and catalog collections |
| CatalogRows.dfy, CatalogFingerprint.dfy, CatalogSettling.dfy, Catalog.dfy, CatalogOrder.dfy, CatalogForest.dfy, CatalogContents.dfy, CatalogReapply.dfy, CatalogStore.dfy | applying a catalog bundle in one transaction |
| Secrets.dfy, Placeholders.dfy, Environments.dfy | redaction, interpolation, the environment library |

## What the proofs show about the program

- Marks of failure spread forward in the list only, within one pass of the scheduler. The
  list [A, B, C] with A after B after C and C failing therefore ends in the error "cyclic or
  incomplete", although its graph is acyclic (`SchedulerCompletion.ListedBackwards`). Every
  start under `continue` completes when each dependency that has dependencies of its own
  stands before its dependents (`ContinueCompletes`), which a maintainer can check on the
  stored list; where members have one dependency at most, that condition is exact for parallel
  starts (`ExactForSingleDependencies`). For all lists and outcomes a timetable tells exactly
  whether a parallel start completes (`SchedulerTiming.TimedDecides`).
- Saving a stack searches for cycles from that stack only. This is enough as long as the
  stored graph is acyclic (`SavedGraph`) and not otherwise (`LocalSearchAloneIsBlind`). The walk
  over prerequisites has no guard of its own against cycles and relies on the same fact.
- A run that is stopped between its first row and its registration comes back to life
  (`RevivedBeforeRegistration`). After registration it cannot by any step of the runtime
  (`NeverActiveAgain`), but promoting a run writes its whole row back under no lock: a run that
  exits between the two halves of its promotion becomes active again (`PromotionRevives`), and
  it stays over for good exactly as long as no copy read in its lifetime is written
  (`RevivalNeedsLiveCopy`). A promotion may also give a launcher that forbids it a second active
  run (`PromotionCrowds`); a launcher to which no run is promoted is safe from that
  (`NeverTwoActiveUnlessPromoted`).
- Redaction hides a secret in every text, whatever the other secrets are, if and only if the
  secret neither begins nor ends with an asterisk and does not hold three in a row
  (`ShowsExactlyIfUnsafe`).
- A catalog bundle applied again is reused as a whole if and only if items that went to one row
  brought one content (`ReapplyReusesExactly`). Whether they go to rows of their own can be read
  off the bundle and the tables (`SeparableSettles`). Distinct keys and fingerprints alone are not
  enough: two such items may want one stored row, one by its fingerprint and one by its key, and
  then the second silently replaces the first (`ClobberedThenSettles`).
- The two lookups before a catalog write already exclude everything the unique indexes would
  refuse (`PutKeepsUnique`), so those indexes never turn an apply into a storage error.

## Model

| member | source | states |
|---|---|---|
| Prerequisites.NormalizeStackPrerequisites | internal/domain/domain.go:314-328 | one edge for every input edge with a non-blank trimmed id, in input order, by an increasing map of positions onto exactly those; each has the trimmed id, and 90000 ms where the input has no timeout, else the input's |
| Prerequisites.NormalizedIsClean | internal/domain/domain.go:314-328 | every edge that normalization leaves has a trimmed, non-blank id and a timeout |
| Prerequisites.NormalizedKeepsClean | internal/domain/domain.go:314-328 | normalizing a clean list changes nothing, so normalization is idempotent |
| Prerequisites.CycleSearch.Visit | internal/domain/domain.go:343-362 | one call of the search: either everything it visits is ordered before the nodes that need it and the open calls are restored, or the id returned is reachable and lies on a cycle |
| Prerequisites.StackPrerequisiteCycle | internal/domain/domain.go:333-363 | "" exactly when no cycle is reachable from the start in the graph with the start's edges replaced; otherwise a reachable id on a cycle |
| Prerequisites.CheckEdges | internal/httpapi/server.go:2032-2048 | accepts a normalized list exactly when no edge is a self edge, a repetition, out of the timeout bounds or to an unknown stack, and otherwise names a fault that is there |
| Prerequisites.GraphWithout | internal/httpapi/server.go:2049-2063 | the prerequisite graph of all stored stacks but one |
| Prerequisites.ValidateStackPrerequisites | internal/httpapi/server.go:2031-2068 | accepts exactly the well-formed lists that close no cycle through the saved stack, and returns one edge for every input edge with an id; a reported fault, a cycle among them, is there |
| Prerequisites.ValidateAppliedPrerequisiteGraph | internal/store/catalog.go:259-288 | reports no cycle exactly when the whole stored graph is acyclic, and else an id on a cycle |
| Prerequisites.StackTable.Save | internal/httpapi/server.go:2031-2068 | a create or update keeps the whole stored graph acyclic, is accepted exactly when the list is acceptable, changes only its row, and stores there one edge for every input edge with an id, in order |
| Prerequisites.StackTable.Delete | internal/store/store.go:843-856 | a delete is refused while checks are attached, else removes the row, and keeps the graph acyclic with edges to it left dangling |
| Prerequisites.StackTable.Apply | internal/store/catalog.go:241-256 | the rows of a bundle are kept exactly when the graph with all of them is acyclic and the run is not dry; otherwise nothing changes |
| Prerequisites.LastRowWins | internal/store/catalog.go:156-245 | of the rows of a bundle the last with an id is the one that the check sees and that is kept |
| Prerequisites.SavedGraph | internal/httpapi/server.go:2031-2068 | although the search starts at the saved stack only, the whole graph stays acyclic: a new cycle would pass through it |
| Prerequisites.LocalSearchAloneIsBlind | internal/httpapi/server.go:2031-2068 | a stored graph that already has a cycle, in which saving another stack is accepted: the premise of `SavedGraph` is needed |
| PrerequisiteStart.StackUpEnough | internal/runtime/prerequisites.go:92-105 | counts the members that are up, answers ready exactly when all are, and fails exactly on an unknown command |
| PrerequisiteStart.UpMembersCounts | internal/runtime/prerequisites.go:92-105 | the count is the number of list positions whose member is up |
| PrerequisiteStart.Walk.From | internal/runtime/prerequisites.go:60-85 | the walk below a stack ends because an acyclic graph ranks its stacks; it lists what is unready below, or fails only on a reachable stack or command that is not stored |
| PrerequisiteStart.Walk.Follow | internal/runtime/prerequisites.go:63-83 | one edge: first all below the prerequisite, then the prerequisite itself |
| PrerequisiteStart.Walk.Consider | internal/runtime/prerequisites.go:71-83 | a prerequisite is appended once, exactly if it is not up enough, with its own counts and the timeout of an edge to it |
| PrerequisiteStart.UnreadyPrerequisites | internal/runtime/prerequisites.go:50-90 | on an acyclic graph: succeeds exactly when every stack and command below is stored, and then lists, without repetition, exactly the reachable stacks that are not up enough, each after its own |
| PrerequisiteStart.BringUp | internal/runtime/prerequisites.go:39-46 | launches and awaits the needed stacks in order; succeeds exactly when all launches and waits do, and otherwise stops at the first one that fails and says which of the two it was |
| PrerequisiteStart.StartStack | internal/runtime/prerequisites.go:12-48 | each outcome if and only if its condition holds: started exactly when the stack and all below it are stored, nothing needs confirming or it is confirmed, every needed stack launches and becomes ready, and the own members start; nothing is launched without the confirmation |
| PrerequisiteStart.OwnComesLast | internal/runtime/prerequisites.go:39-47 | when the own members start, every unready stack below has become ready before |
| PrerequisiteStart.NeededComeFirst | internal/runtime/prerequisites.go:39-46 | when a needed stack is launched, every unready stack below it has become ready before |
| StackMembers.FilterSelectedDependencies | internal/runtime/manager.go:1103-1111 | exactly the selected dependencies, in their order, by an increasing map of positions |
| StackMembers.Selection.Include | internal/runtime/manager.go:1064-1080 | one call adds reachable members and leaves none of their dependencies out, on cyclic graphs too, or names a reachable id that is no member |
| StackMembers.SelectRequested | internal/runtime/manager.go:1061-1091 | errs exactly on an empty request, a repetition or a reachable non-member; otherwise selects exactly what the request reaches |
| StackMembers.StackMembersForStart | internal/runtime/manager.go:1043-1101 | one member for each stored position with a selected id, in stack order: the last stored member with the id, at its position, with the wait condition and timeout that it stores or the defaults, and with exactly its selected dependencies |
| StackMembers.ChosenStart | internal/runtime/manager.go:1043-1101 | the same of the choice from every part of the list |
| StackMembers.SelectionIsClosed | internal/runtime/manager.go:1043-1101 | a selection holds the request and every dependency of what it holds |
| StackMembers.SelectionIsLeast | internal/runtime/manager.go:1043-1101 | no set that holds the request and is closed under dependencies leaves out a selected member |
| StackMembers.ChosenKeepDependencies | internal/runtime/manager.go:1092-1111 | with a request the filter changes no dependency list |
| StackMembers.StartedAreStored | internal/runtime/manager.go:1092-1100 | with a request and no repeated ids, what is chosen is the defaulted list without the unselected members |
| StackMembers.DependencyWalk.Visit | internal/runtime/manager.go:1217-1239 | one call of the topological sort: appends in dependency order and restores the open calls, or blames a real cycle or a missing command |
| StackMembers.StackDependencyOrder | internal/runtime/manager.go:1210-1246 | succeeds exactly when the graph is acyclic and closed; then every id comes once, each dependency before its dependents |
| StackMembers.OrderIsPermutation | internal/runtime/manager.go:1210-1246 | when no id repeats, the order is a permutation of the members |
| StackMembers.StopStack | internal/runtime/manager.go:1190-1208 | visits the order from its end, up to the first stop that fails, and nothing if there is no order |
| StackMembers.DependentsStopFirst | internal/runtime/manager.go:1190-1208 | a stop visits every dependent of a member before the member |
| StackMembers.CheckFields | internal/httpapi/server.go:1956-1978 | accepts exactly members without repeated ids whose fields and commands fit, and otherwise names a fault that is there |
| StackMembers.CleanDependencies | internal/httpapi/server.go:1979-2000 | accepts exactly known, distinct dependencies other than the member itself, once trimmed, and otherwise names a fault that is there |
| StackMembers.FindDependencyCycle | internal/httpapi/server.go:2001-2024 | finds nothing exactly when the graph is acyclic, whatever order the map is visited in, and else a member on a cycle |
| StackMembers.ValidateMembers | internal/httpapi/server.go:1956-2024 | a save admits exactly the admissible members and returns them as they came but for white space around each dependency; whatever fault it reports is there |
| StackMembers.AdmittedHasOrder | internal/httpapi/server.go:1979-2024 | whatever a save admits is acyclic, closed and free of repetition, so that `StackDependencyOrder` succeeds on it |
| Scheduler.StackStart.CollectEligible | internal/runtime/manager.go:958-984 | one pass: blocked members fail and spread forward in the list within the pass, ready ones become eligible, the first alone when sequential |
| Scheduler.StackStart.Launch | internal/runtime/manager.go:997-1020 | starts the wave in order; a member fails exactly when its start fails otherwise than by already running, or its wait fails |
| Scheduler.StackStart.Record | internal/runtime/manager.go:1022-1032 | books the results in order and ends at the first failure unless the policy is `continue` |
| Scheduler.StackStart.StartMembers | internal/runtime/manager.go:952-1033 | the loop refines the recursive `Run`, with `pending` shrinking in every round; what its log obeys under either strategy is stated in SchedulerOrder and SchedulerSafety |
| SchedulerSafety.RunIsLawful | internal/runtime/manager.go:952-1033 | for every list without repetition and all outcomes, the log of a start obeys the rules of `Lawful` at every event |
| SchedulerSafety.StartedAtMostOnce | internal/runtime/manager.go:998-1007 | no member is started twice |
| SchedulerSafety.DependenciesSucceedFirst | internal/runtime/manager.go:963-983 | a started member's dependencies, at any depth, have succeeded before |
| SchedulerSafety.OneFate | internal/runtime/manager.go:1022-1032 | a member that succeeds was started and does not fail, and a started one is never counted as blocked |
| SchedulerSafety.NeverAboveAFailure | internal/runtime/manager.go:963-983 | no started member has a failed or blocked one anywhere below it, at any time |
| SchedulerSafety.NoStartAfterFailure | internal/runtime/manager.go:1028-1031 | under any policy but `continue` nothing is started after a failure |
| SchedulerSafety.ResultsAreTold | internal/runtime/manager.go:997-1032 | a member booked as succeeded had no start error but `already running`, and its wait, if it has a run, was met; a failed one lacked one of the two |
| SchedulerOrder.SequentialStartsOneAtATime | internal/runtime/manager.go:980-983 | in every sequential start, under either policy and for all outcomes, between two starts the first member has succeeded or failed |
| SchedulerOrder.SequentialStartsFirstInLine | internal/runtime/manager.go:958-984 | a sequential start starts a member only when each one listed before it is over, is blocked or waits for a dependency |
| SchedulerOrder.WavesInListOrder | internal/runtime/manager.go:997-1007 | whatever the strategy, members started one right after the other come in list order |
| SchedulerCompletion.DoneIsExact | internal/runtime/manager.go:957-1033 | a start that ends without error splits the members into succeeded and failed, the failed ones being exactly those at or above one whose own start or wait failed |
| SchedulerCompletion.FailureHasSource | internal/runtime/manager.go:973-977 | below every failed or blocked member stands one that was started and failed by itself |
| SchedulerCompletion.StuckMember | internal/runtime/manager.go:985-990 | when a start of an acyclic list ends as incomplete, some member stands before a failed dependency that has dependencies of its own |
| SchedulerCompletion.ContinueCompletes | internal/runtime/manager.go:957-1033 | under `continue`, if each dependency with dependencies of its own stands before its dependents, every start ends without error and fails exactly the doomed members |
| SchedulerCompletion.DependenciesFirstIsNested | internal/runtime/manager.go:957-1033 | a list with all dependencies before their dependents meets that condition |
| SchedulerCompletion.NoFailureCompletes | internal/runtime/manager.go:957-1033 | when no member fails by itself, every order of an acyclic list is worked off |
| SchedulerCompletion.StopPolicyIsExact | internal/runtime/manager.go:957-1033 | under any other policy a start of an acyclic list never gets stuck, and ends without error exactly when no member fails |
| SchedulerCompletion.InversionGetsStuck | internal/runtime/manager.go:985-990 | a member whose dependencies all stand behind it and have dependencies of their own leaves a parallel start incomplete when the members without dependencies fail |
| SchedulerCompletion.ExactForSingleDependencies | internal/runtime/manager.go:957-1033 | with at most one dependency per member, a parallel start under `continue` completes for all outcomes if and only if the list meets the condition |
| SchedulerCompletion.ListedBackwards | internal/runtime/manager.go:985-990 | A after B after C, listed as [A, B, C], with C failing: acyclic, yet reported as cyclic or incomplete |
| SchedulerTiming.TimedDecides | internal/runtime/manager.go:957-1033 | for every list without repetition and all outcomes, a parallel start under `continue` completes if and only if the timetable, computed without running the scheduler, blocks every member by the pass after the last start |
| SchedulerTiming.CompletesExactlyInTime | internal/runtime/manager.go:957-1033 | every acyclic list has such a timetable for all outcomes |
| SchedulerTiming.CompletesForAllOutcomes | internal/runtime/manager.go:957-1033 | an acyclic list, whatever dependencies its members have, completes for all outcomes if and only if all its timetables are kept in time |
| SchedulerTiming.ScanKeepsTime | internal/runtime/manager.go:958-984 | one pass blocks and starts exactly the members that the timetable puts into it |
| SchedulerCompletion.SelectionIsSchedulable | internal/runtime/manager.go:1043-1101 | whatever is selected from an acyclic stack is acyclic, closed and free of repetition, as the scheduler's statements require |
| RunTables.Manager.Stop | internal/runtime/manager.go:386-440 | the locked section: signals and marks as stopping exactly an active run whose group lives, books an active run without one as stopped with its flags dropped, and touches nothing else |
| RunTables.Manager.RecordForceKill | internal/runtime/manager.go:427-438 | records the forced kill and nothing else |
| RunTables.Manager.Exited | internal/runtime/manager.go:350-379 | the section after a process exit: with the stopping flag killed or stopped by the recorded force kill, without it completed if and only if the wait succeeded with code 0 and failed otherwise; the flags are dropped and no other run is touched |
| RunTables.Manager.Start | internal/runtime/manager.go:188-217 | a start that nothing interrupts: stored as running and registered, or stored as failed |
| RunTables.Manager.Reconcile | internal/runtime/manager.go:1426-1449 | a new Runtime books every recent run that it finds active as unknown or failed, and leaves the others alone |
| RunTables.Manager.UpdateRunObservation | internal/store/store.go:393-399 | a telemetry write sets readiness and telemetry and leaves the status and all else alone, however stale its copy |
| RunTables.Manager.UpdateRunPortVerifications | internal/store/store.go:401-406 | an evidence write sets the evidence, resets readiness and leaves the status and all else alone |
| RunTables.Manager.ActiveRunsForCommand | internal/store/store.go:336-351 | exactly the starting, running and stopping runs of a command |
| RunHistory.BootInv | internal/runtime/manager.go:1426-1449 | whatever rows a Runtime finds, once it has seen the active ones it starts in a state that fits the invariant, with no active run |
| RunHistory.AlwaysInv | internal/runtime/manager.go:386-440 | from every state that fits the invariant, any interleaving of command operations, stops, escalations, exits, polls and evidence writes keeps it |
| RunLifecycle.FlagMatchesKept | internal/runtime/manager.go:386-440 | every step keeps the stored status at stopping exactly while the stopping flag is set |
| RunLifecycle.KilledKept | internal/runtime/manager.go:361-371 | every step keeps that a killed run was asked to stop and its forced kill recorded |
| RunLifecycle.AtMostOneKept | internal/runtime/manager.go:512-560 | every step keeps that a launcher with policy forbid or replace has at most one active run, and none beside the one being launched; what each policy does to the runs it finds is stated in RunPolicies |
| RunLifecycle.NewActiveRuns | internal/runtime/manager.go:512-560 | only the lock holder's own launch adds an active run |
| RunHistory.NeverTwoActive | internal/runtime/checks.go:52-113 | on any stored table, a launcher with a fixed policy of forbid or replace never has two active runs, with starts, stack member starts, stops, restarts and command checks interleaved |
| RunLifecycle.RevivalOnlyByLaunch | internal/runtime/manager.go:201-213 | among those steps the only one that turns an inactive stored run active is the one that records its launch, before registration |
| RunHistory.NeverActiveAgain | internal/runtime/manager.go:334-440 | a registered run that is no longer active stays so in every continuation by those steps |
| RunHistory.RevivedBeforeRegistration | internal/runtime/manager.go:202-216 | an interleaving in which a run stopped between its first two rows becomes running: registration is needed |
| RunPolicies.ForbidStopsNothing | internal/runtime/manager.go:527-529 | in every history whose operations on a launcher of policy forbid are starts, no operation stops a run of that launcher |
| RunPolicies.StartOfARunning | internal/runtime/manager.go:526-542 | at any point of any history, the beginning of a start changes no table and asks no run to stop; it ends at once exactly under forbid or an invalid policy with an active run, and may launch at once exactly under allow or with none |
| RunPolicies.StopOfAnIdle | internal/runtime/manager.go:561-591 | a stop that finds nothing active goes on to the stop command of an external launcher exactly, and changes nothing by itself |
| RunPolicies.StopsBeforeItStarts | internal/runtime/manager.go:530-536 | a replacing start, a restart and the stop of an external launcher launch nothing before each run that they found active has been asked to stop and none of the launcher is active, whatever is interleaved |
| RunPolicies.GoesOnUntilItStarts | internal/runtime/manager.go:597-620 | such an operation refuses nothing: unless it gives up, each run that it found is asked or can be asked next, and its next step is possible or a run is still active |
| RunPolicies.StopOnlyStops | internal/runtime/manager.go:561-591 | the stop of a managed launcher launches nothing, and when it is through has asked every run that it found |
| RunPolicies.ExitTold | internal/runtime/manager.go:350-379 | in every history an exit is told for good: completed if and only if the row did not say stopping and the wait succeeded with code 0, failed if unasked and otherwise, killed with a recorded force kill, stopped without one |
| RunPolicies.FinalStatus | internal/runtime/manager.go:334-440 | a registered run that is over and whose exit is booked keeps its status in every continuation |
| RunPolicies.ForceKillHasReasons | internal/runtime/manager.go:422-438 | in every history a force kill comes after a stop that signalled the living group and a later look that found it still alive |
| RunPromotion.FitsKept | internal/httpapi/server.go:689-772 | with the read and the unlocked whole-row write of a promotion as further steps: what is registered stays stored, and a killed run was asked to stop and its forced kill recorded |
| RunPromotion.RevivalNeedsLiveCopy | internal/httpapi/server.go:742-768 | a registered run that is over comes back if and only if a copy of it is written that was read while it was active |
| RunPromotion.NeverActiveAgainWithoutCopy | internal/httpapi/server.go:689-772 | so it stays over for good, promotions included, unless such a copy is still out |
| RunPromotion.NeverTwoActiveUnlessPromoted | internal/httpapi/server.go:741-766 | promotions included, a launcher of policy forbid or replace never has two active runs, if no run is promoted to it |
| RunPromotion.PromotionRevives | internal/httpapi/server.go:699-768 | whenever the exit of an active run falls between the two halves of its promotion, it is active again, unregistered and with nobody waiting for it |
| RunPromotion.PromotionCrowds | internal/httpapi/server.go:741-748 | an active run promoted to a launcher that has one makes two active runs there, without any race |
| RunPromotion.LaunchedAndDead | internal/runtime/manager.go:117-217 | the premises of the last two occur after every launch |
| PortEvidence.SnapshotExternalPorts | internal/runtime/manager.go:696-718 | one entry per port with what was seen before the action |
| PortEvidence.VerifyPass | internal/runtime/manager.go:730-752 | one round of the verifier on the list in place: exactly the pending entries whose port is found closed after a stop, or open after a start or restart, are decided, and it tells whether one is left |
| PortEvidence.ExpirePass | internal/runtime/manager.go:753-770 | on timeout exactly the pending entries become still listening or unavailable |
| PortEvidence.HealthPass | internal/runtime/manager.go:1397-1424 | the poll refreshes the current state of each entry and nothing else, and tells whether one changed |
| PortEvidence.InvKept | internal/runtime/manager.go:720-780 | every verifier, expiry, poll read and stale poll write keeps all lists truthful |
| PortEvidence.AlwaysTruthful | internal/runtime/manager.go:720-780 | so they are under every interleaving |
| PortEvidence.StoredClaimsAreTrue | internal/runtime/manager.go:696-780 | at any time, each stored claim is backed: `verified` by closed before and open in a round of the verifier, `stopped` by closed before or in a round, `still_listening` by open before, open in a round and closed in none, `unavailable` by the opposite, `preexisting` by open before, and the current state by somebody who found the port so |
| PortEvidence.ObserveExternalRun | internal/domain/domain.go:136-195 | the conclusion drawn from status, action and counted evidence, as `Conclude` states it |
| PortEvidence.ConclusionMeans | internal/domain/domain.go:136-195 | each conclusion if and only if its condition on the entries holds, without counting: running after a stop with any entry up and after a start with all, stopped with all down, high confidence exactly for a stopped launcher with entries and for a started one with all verified |
| PortEvidence.HighMeansTransition | internal/domain/domain.go:181-190 | running with high confidence is concluded only if every expected port was closed before and the verifier found it open |
| PortEvidence.HighMeansDown | internal/domain/domain.go:166-190 | stopped with high confidence is concluded only if every expected port was found closed, and after a stop only if the stop was completed |
| PortEvidence.RunningAfterStop | internal/domain/domain.go:166-172 | running is concluded after a stop only if some expected port was found open |
| Listeners.MakeCommandView | internal/httpapi/server.go:1226-1305 | which run a launcher shows as last and as active, whose evidence it shows, and whether it can be stopped |
| Listeners.ActiveDecides | internal/httpapi/server.go:1236-1252 | the first active run lends its evidence, and can be stopped unless it is itself the stop of an external launcher |
| Listeners.ActionDecides | internal/httpapi/server.go:1254-1303 | with no active run, an external launcher shows its last lifecycle action, which decides, and a managed one cannot be stopped |
| Listeners.StoppableMeans | internal/httpapi/server.go:1262-1296 | after a failed stop there is always something to stop, after another one exactly if an entry is still listening, and after a start or restart that completed or failed unless it has entries and all of them show closed |
| Listeners.CurrentListeners | internal/httpapi/server.go:414-457 | all managed listeners; then external ones, no port twice and none already managed, exactly for the verified and not closed ports of stoppable external launchers, with the confidence of the evidence and the launcher's latest run |
| Listeners.ManagedMeans | internal/httpapi/server.go:418-426 | the managed part lists exactly the ports of the active runs |
| Listeners.ListedMeansTransition | internal/httpapi/server.go:436-455 | evidence that puts a port on the list belongs to a port that was closed before the action and found open after it |
| Listeners.ListedPortsWentUp | internal/httpapi/server.go:414-457 | every external listener that `CurrentListeners` returns stands for a port of one of its launcher's runs that was closed before that run's action and found open after it |
| Listeners.NothingListedAfterStop | internal/httpapi/server.go:432-455 | when the last lifecycle action of an external launcher was a stop and no run is active, none of the evidence it shows puts a port on the list |
| LogTail.ReadBackwards | internal/runtime/manager.go:1281-1302 | reads chunks from the end until it holds more newlines than lines wanted, or the whole file |
| LogTail.Concatenate | internal/runtime/manager.go:1303-1307 | puts the chunks, collected back to front, into one buffer in file order |
| LogTail.TailFile | internal/runtime/manager.go:1265-1319 | for every file, every n and every positive chunk size the text equals `LastLines`: split the whole file, drop a final empty piece, join the last lines |
| LogTail.SuffixIsEnough | internal/runtime/manager.go:1308-1318 | a suffix with more newlines than lines wanted yields the same last lines once its first, possibly torn, piece is dropped |
| LogTail.LastLinesMeaning | internal/runtime/manager.go:1308-1318 | the last lines in terms of the file itself: a suffix that begins behind a newline and holds the wanted number of lines |
| LogTail.JoinSplit | internal/runtime/manager.go:1308-1318 | joining what was split gives the text back |
| ParentForest.ValidateHTTPFolderParent | internal/httpapi/http_collections.go:628-661 | on a forest the upward walk ends, and the parent is allowed exactly when it is another stored folder of the same project that is not below the folder |
| ParentForest.ValidateCollectionParent | internal/httpapi/server.go:639-677 | the same for catalog collections |
| ParentForest.SaveKeepsForest | internal/httpapi/http_collections.go:628-661 | an allowed pointer keeps the table a forest |
| ParentForest.DeleteFolderKeepsForest | internal/store/store.go:1067-1080 | moving the children of a deleted folder to its parent keeps the table a forest |
| ParentForest.FolderTable.Save | internal/httpapi/http_collections.go:663-764 | a create or re-parent keeps a forest, succeeds exactly when allowed and changes one row |
| ParentForest.FolderTable.Delete | internal/store/store.go:1067-1080 | a delete keeps a forest, points exactly the children of the folder to its own parent, and leaves all else alone |
| CatalogOrder.PassKeepsOrder | internal/store/catalog.go:82-109 | one pass writes items after their parents only and puts the others off; without progress every item left has an unresolved parent |
| CatalogOrder.PassesAreExact | internal/store/catalog.go:79-117 | the passes write all collections exactly when no parent key is missing and none lies on a circle, each after its parent; otherwise the keys they name are exactly those whose chain of parent keys leaves the bundle or runs in a circle |
| ParentForest.BundleKeepsForest | internal/store/catalog.go:79-117 | writing a resolved bundle into a forest gives a forest, whatever parents its rows had before |
| ParentForest.CollectionTable.Save | internal/httpapi/server.go:555-637 | a create or update of a collection keeps a forest |
| ParentForest.CollectionTable.Delete | internal/store/store.go:577-587 | a delete succeeds exactly for a stored collection without children, commands and stacks |
| CatalogForest.CollectionsKeepForest | internal/store/catalog.go:79-117 | a bundle with distinct keys keeps the collections a forest, points each of its collections to the row of its parent, and leaves the other rows alone |
| CatalogRows.UpsertKeepsUnique | internal/store/store.go:136-138 | an upsert keeps a unique index if no row of another id holds the same non-blank value |
| CatalogFingerprint.FingerprintTells | internal/domain/domain.go:647-659 | two commands without NUL characters share a fingerprint if and only if project, directory and lifecycle mode are the same once trimmed, shell and kind are once defaulted, and the three command lines are word by word |
| CatalogFingerprint.JoinTells | internal/domain/domain.go:656-657 | lists of strings without the separator can be told from their joins |
| CatalogRows.PutKeepsUnique | internal/store/catalog.go:322-361 | after a search without conflict the write breaks no unique index: the two lookups already tell apart what the index would refuse |
| CatalogSettling.PutSettles | internal/store/catalog.go:130-150 | after an item is written, both its lookups find its row, which stores what the item brought |
| CatalogSettling.SettledStays | internal/store/catalog.go:322-361 | an item that goes to another row leaves a settled item settled |
| CatalogSettling.SettledAgain | internal/store/catalog.go:119-155 | an item that goes to the same row with the same content leaves a settled item settled |
| CatalogSettling.PutAllSettles | internal/store/catalog.go:119-155 | after a batch whose items agree wherever they share a row, every item is settled |
| CatalogSettling.PutAgain | internal/store/catalog.go:119-155 | writing settled items again reuses each and changes update times only |
| CatalogSettling.BatchSettlesExactly | internal/store/catalog.go:119-155 | a batch applied again reuses all its rows if and only if items that went to one row have one content; then only update times change |
| CatalogSettling.SharedAlikeMeans | internal/store/catalog.go:119-155 | that condition, spelled out for every pair of items |
| CatalogSettling.SeparateItemsGoApart | internal/store/catalog.go:322-361 | items that have no key or fingerprint in common and want no stored row twice meet no conflict, and each goes to the row it wants |
| CatalogSettling.SearchStays | internal/store/catalog.go:322-361 | a write leaves alone the search of an item that is apart from it |
| CatalogSettling.ClobberedThenSettles | internal/store/catalog.go:322-361 | two items with different keys and fingerprints that want one stored row: the second overwrites the first under its id, and the batch settles on the third application |
| CatalogSettling.SharedRowNeverSettles | internal/store/catalog.go:119-155 | two items, one right after the other, with the same search and different contents update each other on every application |
| Catalog.FindCommand | internal/store/catalog.go:322-361 | the outcome of the two lookups and of the scan for rows with an outdated fingerprint, as `Find` states it |
| Catalog.Save | internal/store/catalog.go:131-150 | creates or overwrites the row that the search decided on, keeps its creation time, and names the action |
| Catalog.ApplyProject | internal/store/catalog.go:290-321 | the project is found by id if it has one and by root path otherwise |
| Catalog.ApplyPass | internal/store/catalog.go:82-109 | one pass over the pending collections writes exactly those whose parent key is resolved |
| Catalog.ApplyCollections | internal/store/catalog.go:79-117 | the passes write the collections in an order that depends on the bundle only, or fail with those that are stuck |
| Catalog.ApplyCommands | internal/store/catalog.go:118-155 | all commands in order, up to the first conflict, and the ids of their keys |
| Catalog.ResolveMembers | internal/store/catalog.go:157-211 | as many members as the item lists or has command keys, at positions 0, 1, ...; each has the command that the bundle has for its key, else the one stored under project and key, its dependencies are the commands of the members with those keys, one for each and in order, and the defaults are filled in; or a key that is missing. Only a blank key without a command cuts the lists short |
| Catalog.ApplyStacks | internal/store/catalog.go:156-245 | all stacks in order, found by project and stable key |
| CatalogStore.Store.ApplyCatalog | internal/store/catalog.go:66-257 | one transaction: it succeeds exactly when no item conflicts and the prerequisite graph stays acyclic; it reports stuck collections exactly for those that never resolve; on failure and on a dry run the store is unchanged; keys stay unique, the collections a forest and the prerequisites acyclic. What it commits holds every item in the row that it went to, unless a later item went there: collections with their parents' ids, commands with their fields and fingerprint, stacks with their members wired as `ResolveMembers` says and all other fields; new rows get the ids derived from their keys |
| CatalogContents.AppliedStores | internal/store/catalog.go:66-257 | the same of the state that a bundle leads to |
| CatalogContents.PrerequisitesAreStored | internal/store/catalog.go:259-282 | the graph that is checked has for each stored stack the prerequisites of its row |
| CatalogContents.PutTouchesOneRow | internal/store/catalog.go:125-155 | a write stores its content in one row, with the time of the change, and keeps the time of creation of a row that was there; all other rows stay |
| CatalogContents.CommandIdsName | internal/store/catalog.go:151-154 | the id of a command key is that of the row to which the last item with the key went |
| Catalog.AppliedKeepsUnique | internal/store/catalog.go:66-257 | ids, fingerprints and (project, stable key) pairs stay unique over a whole bundle |
| CatalogReapply.ReapplyReusesExactly | internal/store/catalog.go:66-257 | a bundle applied again at any later time reports every item as reused if and only if items that went to one row brought one content; then nothing but update times changes |
| CatalogReapply.SeparableSettles | internal/store/catalog.go:66-257 | a condition on the bundle and the tables alone, no key or fingerprint twice and no row wanted twice, under which the bundle settles at once |
| CatalogReapply.SeparableNeverConflicts | internal/store/catalog.go:66-257 | such a bundle can fail only on an unknown command key |
| Secrets.OrderByLength | internal/domain/env.go:215-221 | exchange sort in place: non-increasing lengths, and a permutation |
| Secrets.RedactSecretValues | internal/domain/env.go:201-227 | masks the distinct non-empty secret values one after the other, longest first |
| Secrets.MaskBringsOutNothing | internal/domain/env.go:222-226 | masking any value does not bring out a safe one: one that neither begins nor ends with an asterisk and does not hold the mask |
| Secrets.MaskFirst | internal/domain/env.go:222-226 | up to the first occurrence of the value the text is kept, there the mask goes in, and masking goes on behind it |
| Secrets.NothingLeaks | internal/domain/env.go:201-227 | a safe value that is masked is never left, whatever the text and the other values, and however they overlap |
| Secrets.RedactionHidesSecrets | internal/domain/env.go:201-227 | redacted text contains no safe selected secret value |
| Secrets.ShowsExactlyIfUnsafe | internal/domain/env.go:201-227 | the condition is exact: a value shows in the redaction of some text if and only if it is not safe |
| Secrets.LeadingStarShows | internal/domain/env.go:222-226 | the text in which a value that begins with an asterisk shows |
| Secrets.TrailingStarShows | internal/domain/env.go:222-226 | the text in which a value that ends with an asterisk shows |
| Secrets.InnerMarkShows | internal/domain/env.go:222-226 | the text in which a value that holds the mask shows |
| Secrets.WholeSecretBecomesMask | internal/domain/env.go:215-226 | a text that is one of the secrets becomes the mask and nothing else, because longer values go first, unless a single or double asterisk is a secret and masks the mask |
| Secrets.MaskingIsIdempotent | internal/domain/env.go:201-227 | masking masked text with any of its safe values again changes nothing |
| Placeholders.Interpolate | internal/domain/http.go:47-70 | the expanded text, or the missing keys, or a syntax error, as `Interpolated` states it |
| Placeholders.InterpolationMeans | internal/domain/http.go:47-70 | on a template put together from text without open braces and placeholders, with any blanks around the key: the text is kept and each placeholder becomes its value; it fails exactly when a key has none or the result holds two open braces |
| Placeholders.HoleMatches | internal/domain/http.go:47-63 | a placeholder is found wherever one is written |
| Placeholders.SuccessLeavesNoBraces | internal/domain/http.go:47-70 | on success no double open brace is left and every key had a value |
| Placeholders.MissingFacts | internal/domain/http.go:49-63 | the reported keys are exactly the keys without a value, each once |
| Placeholders.MissingInOrder | internal/domain/http.go:49-63 | they come in the order of their first occurrences |
| Placeholders.RewriteURLWithVars | internal/domain/curl.go:153-171 | whatever order the map is visited in, a longest value that ends where a path, query or fragment begins is replaced, and nothing if none fits |
| Placeholders.RewriteRoundTrip | internal/domain/curl.go:153-171 | interpolating the rewritten URL with the same variables gives the URL back, if it had no double open brace and the keys are valid |
| Environments.NormalizeEnvironmentLibrary | internal/domain/env.go:77-145 | which library or which error comes out, whatever order the maps are visited in; the lists are characterized by the next three rows |
| Environments.NormalNamesMean | internal/domain/env.go:78-98 | the names, trimmed and in lower case, that are not blank, each once in the order of first mention; or the first that is not valid |
| Environments.NormalKeysMean | internal/domain/env.go:101-116 | the same for the keys, which keep their case |
| Environments.NormalSecretsMean | internal/domain/env.go:134-143 | the secret keys among the keys, trimmed, each once in the order of first mention |
| Environments.NormalizedIsNormal | internal/domain/env.go:77-145 | what is accepted has valid distinct names and keys, secret keys among the keys, and no empty or unknown rows |
| Environments.NormalStays | internal/domain/env.go:77-145 | a normal library is normalized to itself, so normalization is idempotent |
| Environments.RedactEnvironmentLibrary | internal/domain/env.go:155-172 | every non-empty value of a secret key becomes the mark |
| Environments.RedactionShowsNothing | internal/domain/env.go:155-172 | redaction keeps all rows and environments, shows of a secret exactly whether it is empty, and of other values all |
| Environments.RestoreRedactedSecrets | internal/domain/env.go:174-199 | a marked value of a secret key becomes the stored value, if there is one |
| Environments.RestoreKeepsTheRest | internal/domain/env.go:174-199 | restoring keeps all rows, environments and values that came in but the marked values of secret keys that are stored |
| Environments.RestoreUndoesRedact | internal/domain/env.go:155-199 | restoring what was redacted gives back every value, even one that equals the mark |
| Environments.LibraryStore.Put | internal/httpapi/env.go:24-43 | normalize, restore and save keep the library normal; sending the redacted library back leaves the stored one exactly as it was |

## Left out

- SchedulerCompletion.ExactForSingleDependencies: for parallel starts; a sequential start ends each pass at the first eligible member, and for it the condition is proved sufficient only (`ContinueCompletes`).
- SchedulerTiming.CompletesForAllOutcomes: for parallel starts; the condition ranges over the timetables of all outcomes, one for each set of failing members.
- RunHistory.NeverTwoActive: for a policy that does not change; a launcher whose policy is edited between two starts may have the active runs that the earlier policy allowed. Promotions are added in RunPromotion.
- RunHistory.BootInv: supposes that the rows a new Runtime looks at, the most recent thousand, include the active ones.
- Scheduler.StackStart.Launch: the waits of a wave run in parallel in the program; their results are booked in list order, so each is an answer here and their timing is not modelled.
- StackMembers.StopStack: the runs that a stop returns and the stop operation of each launcher are an answer that says whether stopping succeeded.
- PrerequisiteStart.StartStack: saving the environment of a stack before its start, and the members requested for its own start.
- Prerequisites.StackPrerequisiteCycle: graphs with blank ids, for which the empty answer would be ambiguous; normalization drops them before every call.
- PortEvidence.ObserveExternalRun: the texts of state details; the port probes themselves are answers.
- ParentForest.ValidateCollectionParent: the checks of name, sort order and owning project that come before the parent is looked at.
- CatalogStore.Store.ApplyCatalog: takes for granted what the handlers check before they call it, that the collection keys of a bundle are distinct and not blank. The three result lists are one list with the action beside each item, and the message of a conflict does not name its item; the column of workspaces that may see a row, which no upsert overwrites and no comparison reads; the encoding of columns as JSON.
- CatalogRows.CommandFingerprint: SHA-256 is a function that is never blank; only the statements about the collection forest also use that different collection keys have different ids. Ids keep the whole digest instead of its first ten bytes.
- Environments.NormalizeEnvironmentLibrary: lower-casing changes ASCII letters and the two characters that fold into ASCII; other letters make a name invalid either way.
- Catalog.ApplyStacks: a stable key that is derived from a stack's name lower-cases ASCII letters only; the statements hold for any function in that place.
- LogTail.TailFile: errors of the file system, and files that change while they are read.
- `Manager.Restart` of a single run and starts of raw runs: they save and start outside the command lock and do not obey the concurrency policy.
- Processes, signals, process listings and port dialling: answers, as described above.
- Time: timeouts are outcomes, and clocks are parameters.
- SQL, migrations and failing storage: tables are maps or lists, and a transaction is a copy that is committed or dropped.
- Catalog and folder requests that run at the same time: they are taken one after the other.
- The HTTP, MCP and event interfaces, the dashboard, the Go hook compiler and outgoing HTTP.
- Command parameters, curl parsing beyond the URL, body templates, patches and visibility filters: field by field and easy.
- The lock file of the runtime: its guarantee is that of the kernel's file lock.
