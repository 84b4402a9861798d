/**
 Runs under any interleaving of command operations, stops, kill escalations, process
 exits, telemetry polls and port evidence writes.

 Command operations hold one lock from beginning to end, so at most one is in progress;
 the `holder` says how far it has come. Everything else may happen at any moment.
 */
module RunLifecycle {
  import opened RunTables

  datatype Policy = Forbid | Replace | Allow | Invalid

  datatype Holder =
    | Free
    | Stops(command: string, todo: set<string>, thenDrain: bool)   // stopping the active runs it found
    | Drains(command: string)                                     // polling until no run is active
    | Clear(command: string)                                      // about to start a run
    | Saved(command: string, run: string)                         // first row written, no process yet
    | Spawned(command: string, run: string)                       // process started, row not updated yet
    | Recorded(command: string, run: string)                      // row says running, not registered yet

  /**
   alive holds the runs whose process group exists, waiting those whose exit has not been
   booked, armed and doomed the kill escalations before and after their look at the group.
   registered, asked and forced only grow: they remember what has happened to a run.
   */
  datatype System = System(
    t: Tables,
    holder: Holder,
    alive: set<string>,
    waiting: set<string>,
    armed: set<string>,
    doomed: set<string>,
    registered: set<string>,
    asked: set<string>,
    forced: set<string>
  )

  datatype Action =
    | BeginStart(command: string)                       // a start, a stack member start or a command check
    | BeginStop(command: string, external: bool)
    | BeginRestart(command: string)
    | StopNext(id: string)
    | DrainDone
    | GiveUp                                            // any early return that releases the lock
    | SaveStarting(id: string)
    | LaunchFails
    | Spawn
    | RecordRunning
    | RegisterRun
    | StopRun(id: string)                               // a request, a timeout or a shutdown
    | LookAtGroup(id: string)
    | ForceKill(id: string)
    | GroupDies(id: string)
    | Exit(id: string, waitFailed: bool, code: int)
    | Observe(id: string, readiness: Readiness, telemetry: int)
    | WriteEvidence(id: string, evidence: int)

  /** A Runtime comes up: it finds rows of an older one, which has supervised, registered and killed runs. */
  function Boot(rows: map<string, Run>, recent: set<string>, known: set<string>): System {
    var killed := set id | id in rows && rows[id].status == Killed;
    System(Tables(Reconciled(rows, recent, known), {}, {}, {}), Free, {}, {}, {}, {}, rows.Keys, killed, killed)
  }

  // Steps

  function HolderAfterStart(t: Tables, policy: Policy, command: string): Holder {
    var active := ActiveRuns(t, command);
    if active == {} then Clear(command)
    else match policy
      case Forbid => Free
      case Replace => Stops(command, active, true)
      case Allow => Clear(command)
      case Invalid => Free
  }

  predicate Enabled(s: System, a: Action) {
    match a
    case BeginStart(_) => s.holder.Free?
    case BeginStop(_, _) => s.holder.Free?
    case BeginRestart(_) => s.holder.Free?
    case StopNext(id) => s.holder.Stops? && id in s.holder.todo
    case DrainDone =>
      || (s.holder.Stops? && s.holder.todo == {})
      || (s.holder.Drains? && ActiveRuns(s.t, s.holder.command) == {})
    case GiveUp => s.holder.Stops? || s.holder.Drains? || s.holder.Clear? || s.holder.Saved?
    case SaveStarting(id) => s.holder.Clear? && id !in s.t.runs
    case LaunchFails => s.holder.Saved?
    case Spawn => s.holder.Saved?
    case RecordRunning => s.holder.Spawned?
    case RegisterRun => s.holder.Recorded?
    case StopRun(id) => id in s.t.runs
    case LookAtGroup(id) => id in s.armed
    case ForceKill(id) => id in s.doomed
    case GroupDies(id) => id in s.alive
    case Exit(id, _, _) => id in s.waiting && id !in s.alive
    case Observe(id, _, _) => true
    case WriteEvidence(id, _) => true
  }

  function Stopped(s: System, id: string): System {
    var signals := SignalsGroup(s.t, id, id in s.alive);
    s.(t := StopSection(s.t, id, id in s.alive),
       armed := if signals then s.armed + {id} else s.armed,
       asked := s.asked + {id})
  }

  function Apply(policy: string -> Policy, s: System, a: Action): System
    requires Enabled(s, a)
  {
    match a
    case BeginStart(c) => s.(holder := HolderAfterStart(s.t, policy(c), c))
    case BeginStop(c, external) =>
      var active := ActiveRuns(s.t, c);
      s.(holder := if external && active == {} then Clear(c) else Stops(c, active, external))
    case BeginRestart(c) => s.(holder := Stops(c, ActiveRuns(s.t, c), true))
    case StopNext(id) => Stopped(s, id).(holder := s.holder.(todo := s.holder.todo - {id}))
    case DrainDone =>
      (match s.holder
       case Stops(c, _, thenDrain) => s.(holder := if thenDrain then Drains(c) else Free)
       case _ => s.(holder := Clear(s.holder.command)))
    case GiveUp => s.(holder := Free)
    case SaveStarting(id) =>
      s.(t := s.t.(runs := s.t.runs[id := Run(s.holder.command, Starting, false, ReadinessUnknown, 0, 0)]),
         holder := Saved(s.holder.command, id))
    case LaunchFails =>
      var id := s.holder.run;
      s.(t := s.t.(runs := s.t.runs[id := Run(s.holder.command, Failed, false, ReadinessUnknown, 0, 0)]), holder := Free)
    case Spawn => s.(alive := s.alive + {s.holder.run}, holder := Spawned(s.holder.command, s.holder.run))
    case RecordRunning =>
      var id := s.holder.run;
      s.(t := s.t.(runs := s.t.runs[id := Run(s.holder.command, Running, true, ReadinessUnknown, 0, 0)]),
         holder := Recorded(s.holder.command, id))
    case RegisterRun =>
      var id := s.holder.run;
      s.(t := s.t.(cmds := s.t.cmds + {id}), waiting := s.waiting + {id},
         registered := s.registered + {id}, holder := Free)
    case StopRun(id) => Stopped(s, id)
    case LookAtGroup(id) =>
      s.(armed := s.armed - {id}, doomed := if id in s.alive then s.doomed + {id} else s.doomed)
    case ForceKill(id) =>
      s.(t := s.t.(forceKilled := s.t.forceKilled + {id}), doomed := s.doomed - {id}, forced := s.forced + {id})
    case GroupDies(id) => s.(alive := s.alive - {id})
    case Exit(id, waitFailed, code) =>
      s.(t := ExitSection(s.t, id, waitFailed, code), waiting := s.waiting - {id})
    case Observe(id, readiness, telemetry) => s.(t := ObservationWrite(s.t, id, readiness, telemetry))
    case WriteEvidence(id, evidence) => s.(t := EvidenceWrite(s.t, id, evidence))
  }

  // What every reachable state satisfies

  predicate Strict(policy: string -> Policy, command: string) {
    policy(command) == Forbid || policy(command) == Replace
  }

  predicate Launching(h: Holder) {
    h.Saved? || h.Spawned? || h.Recorded?
  }

  /** The run being launched is stored and not registered. */
  ghost predicate LaunchStored(s: System) {
    Launching(s.holder) ==> s.holder.run in s.t.runs && s.holder.run !in s.registered
  }

  /** Nothing else has touched the run being launched: it belongs to its command and nobody has marked it. */
  ghost predicate LaunchFits(s: System) {
    && LaunchStored(s)
    && (Launching(s.holder) ==> s.t.runs[s.holder.run].command == s.holder.command)
    && (s.holder.Saved? || s.holder.Spawned? ==>
          !s.t.runs[s.holder.run].launched && s.holder.run !in s.t.stopping)
  }

  ghost predicate Remembered(s: System) {
    && s.registered <= s.t.runs.Keys
    && s.waiting <= s.registered && s.t.cmds <= s.registered
    && s.t.stopping <= s.t.runs.Keys
    && s.t.stopping <= s.asked && s.armed <= s.asked && s.doomed <= s.asked
    && s.t.forceKilled <= s.forced && s.forced <= s.asked
  }

  /** The stored status is "stopping" exactly while the stopping flag is set. */
  ghost predicate FlagMatchesStatus(s: System) {
    forall id :: id in s.t.runs ==> (s.t.runs[id].status == Stopping <==> id in s.t.stopping)
  }

  /** A killed run was asked to stop and its forced kill was recorded. */
  ghost predicate KilledForAReason(s: System) {
    forall id :: id in s.t.runs && s.t.runs[id].status == Killed ==> id in s.asked && id in s.forced
  }

  /** While a run is being launched, or about to be, its command has no other active run. */
  ghost predicate Reserved(policy: string -> Policy, s: System) {
    && (s.holder.Clear? && Strict(policy, s.holder.command) ==> ActiveRuns(s.t, s.holder.command) == {})
    && (Launching(s.holder) && Strict(policy, s.holder.command) ==>
          ActiveRuns(s.t, s.holder.command) <= {s.holder.run})
  }

  ghost predicate AtMostOne(policy: string -> Policy, s: System) {
    forall c :: Strict(policy, c) ==>
      forall a, b :: a in ActiveRuns(s.t, c) && b in ActiveRuns(s.t, c) ==> a == b
  }

  ghost predicate Inv(policy: string -> Policy, s: System) {
    && LaunchFits(s) && Remembered(s) && FlagMatchesStatus(s) && KilledForAReason(s)
    && Reserved(policy, s) && AtMostOne(policy, s)
  }

  /** The only step that turns an inactive stored run active is the one that records a launch. */
  lemma RevivalOnlyByLaunch(policy: string -> Policy, s: System, a: Action, id: string)
    requires Enabled(s, a) && LaunchStored(s) && id in s.t.runs
    ensures id in Apply(policy, s, a).t.runs
    ensures !s.t.runs[id].Active() && Apply(policy, s, a).t.runs[id].Active() ==>
              a.RecordRunning? && id == s.holder.run && id !in s.registered
  {
  }

  lemma InvKept(policy: string -> Policy, s: System, a: Action)
    requires Enabled(s, a) && Inv(policy, s)
    ensures Inv(policy, Apply(policy, s, a))
  {
    LaunchFitsKept(policy, s, a);
    RememberedKept(policy, s, a);
    FlagMatchesKept(policy, s, a);
    KilledKept(policy, s, a);
    AtMostOneKept(policy, s, a);
  }

  lemma LaunchFitsKept(policy: string -> Policy, s: System, a: Action)
    requires Enabled(s, a) && LaunchFits(s) && Remembered(s)
    ensures LaunchFits(Apply(policy, s, a))
  {
    hide ActiveRuns, ExitStatus;
  }

  lemma LaunchStoredKept(policy: string -> Policy, s: System, a: Action)
    requires Enabled(s, a) && LaunchStored(s) && Remembered(s)
    ensures LaunchStored(Apply(policy, s, a))
  {
    hide ActiveRuns, ExitStatus;
  }

  lemma RememberedKept(policy: string -> Policy, s: System, a: Action)
    requires Enabled(s, a) && LaunchStored(s) && Remembered(s)
    ensures Remembered(Apply(policy, s, a))
  {
    hide ActiveRuns, HolderAfterStart;
  }

  lemma FlagMatchesKept(policy: string -> Policy, s: System, a: Action)
    requires Enabled(s, a) && LaunchFits(s) && Remembered(s) && FlagMatchesStatus(s)
    ensures FlagMatchesStatus(Apply(policy, s, a))
  {
    hide ActiveRuns, HolderAfterStart;
  }

  lemma KilledKept(policy: string -> Policy, s: System, a: Action)
    requires Enabled(s, a) && Remembered(s) && KilledForAReason(s)
    ensures KilledForAReason(Apply(policy, s, a))
  {
    hide ActiveRuns, HolderAfterStart;
  }

  /** Only a first row and the record of a launch add an active run, and then it is the holder's. */
  lemma NewActiveRuns(policy: string -> Policy, s: System, a: Action, c: string)
    requires Enabled(s, a) && LaunchStored(s)
    ensures var s' := Apply(policy, s, a);
            forall id :: id in ActiveRuns(s'.t, c) && id !in ActiveRuns(s.t, c) ==>
              Launching(s'.holder) && s'.holder.command == c && s'.holder.run == id && (a.SaveStarting? || a.RecordRunning?)
  {
    hide ExitStatus, HolderAfterStart;
    forall id | id in ActiveRuns(Apply(policy, s, a).t, c) && id !in ActiveRuns(s.t, c)
      ensures a.SaveStarting? || a.RecordRunning?
    {
      if id in s.t.runs {
        RevivalOnlyByLaunch(policy, s, a, id);
      }
    }
  }

  lemma AtMostOneKept(policy: string -> Policy, s: System, a: Action)
    requires Enabled(s, a) && LaunchStored(s) && Reserved(policy, s) && AtMostOne(policy, s)
    ensures Reserved(policy, Apply(policy, s, a)) && AtMostOne(policy, Apply(policy, s, a))
  {
    hide ActiveRuns, LaunchStored;
    var s' := Apply(policy, s, a);
    forall c | Strict(policy, c)
      ensures forall x, y :: x in ActiveRuns(s'.t, c) && y in ActiveRuns(s'.t, c) ==> x == y
    {
      NewActiveRuns(policy, s, a, c);
    }
    if s'.holder.Clear? || Launching(s'.holder) {
      NewActiveRuns(policy, s, a, s'.holder.command);
    }
  }
}
