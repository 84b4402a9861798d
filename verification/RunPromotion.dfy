/**
 Promoting a run to a launcher. The request reads the run's row and later writes the whole
 row back, under no lock, with the launcher it now belongs to. This module says what of the
 run lifecycle survives such writes, and what does not.
 */
module RunPromotion {
  import opened RunTables
  import opened RunLifecycle
  import opened RunHistory

  /** A row that a promotion has read and not yet written back. */
  datatype Copy = Copy(id: string, row: Run)

  datatype World = World(sys: System, copies: set<Copy>)

  datatype Step =
    | Do(action: Action)
    | Read(id: string)
    | Write(copy: Copy, command: string)

  predicate Possible(w: World, s: Step) {
    match s
    case Do(a) => Enabled(w.sys, a)
    case Read(id) => id in w.sys.t.runs
    case Write(copy, _) => copy in w.copies
  }

  function SavedRow(s: System, copy: Copy, command: string): System {
    s.(t := s.t.(runs := s.t.runs[copy.id := copy.row.(command := command)]))
  }

  function After(policy: string -> Policy, w: World, s: Step): World
    requires Possible(w, s)
  {
    match s
    case Do(a) => w.(sys := Apply(policy, w.sys, a))
    case Read(id) => w.(copies := w.copies + {Copy(id, w.sys.t.runs[id])})
    case Write(copy, command) => World(SavedRow(w.sys, copy, command), w.copies - {copy})
  }

  // What survives

  /** Copies belong to stored runs, and what they say of a killed run is true. */
  ghost predicate CopiesFit(w: World) {
    forall c :: c in w.copies ==>
      c.id in w.sys.t.runs && (c.row.status == Killed ==> c.id in w.sys.asked && c.id in w.sys.forced)
  }

  ghost predicate Fits(w: World) {
    LaunchStored(w.sys) && Remembered(w.sys) && KilledForAReason(w.sys) && CopiesFit(w)
  }

  lemma NothingForgotten(policy: string -> Policy, s: System, a: Action)
    requires Enabled(s, a)
    ensures var s' := Apply(policy, s, a);
            s.t.runs.Keys <= s'.t.runs.Keys && s.asked <= s'.asked && s.forced <= s'.forced && s.registered <= s'.registered
  {
    hide ActiveRuns, ExitStatus;
  }

  lemma FitsKept(policy: string -> Policy, w: World, s: Step)
    requires Fits(w) && Possible(w, s)
    ensures Fits(After(policy, w, s))
  {
    hide Enabled, Apply;
    if s.Do? {
      LaunchStoredKept(policy, w.sys, s.action);
      RememberedKept(policy, w.sys, s.action);
      KilledKept(policy, w.sys, s.action);
      NothingForgotten(policy, w.sys, s.action);
    }
  }

  /** The copies through which a run could come back to life. */
  function LiveCopies(w: World, id: string): set<Copy> {
    set c | c in w.copies && c.id == id && c.row.Active()
  }

  /** A registered run that is over comes back only by a copy that was read while it was active. */
  lemma RevivalNeedsLiveCopy(policy: string -> Policy, w: World, s: Step, id: string)
    requires Fits(w) && Possible(w, s) && id in w.sys.registered && id in w.sys.t.runs && !w.sys.t.runs[id].Active()
    ensures var w' := After(policy, w, s);
            && id in w'.sys.registered && id in w'.sys.t.runs
            && LiveCopies(w', id) <= LiveCopies(w, id)
            && (w'.sys.t.runs[id].Active() <==> s.Write? && s.copy in LiveCopies(w, id))
  {
    hide Enabled, Apply;
    if s.Do? {
      RevivalOnlyByLaunch(policy, w.sys, s.action, id);
      NothingForgotten(policy, w.sys, s.action);
    }
  }

  predicate CanGo(policy: string -> Policy, w: World, steps: seq<Step>)
    decreases |steps|, 0
  {
    steps != [] ==>
      && CanGo(policy, w, steps[..|steps| - 1])
      && Possible(Go(policy, w, steps[..|steps| - 1]), steps[|steps| - 1])
  }

  function Go(policy: string -> Policy, w: World, steps: seq<Step>): World
    requires CanGo(policy, w, steps)
    decreases |steps|, 1
  {
    if steps == [] then w
    else After(policy, Go(policy, w, steps[..|steps| - 1]), steps[|steps| - 1])
  }

  lemma {:induction false} AlwaysFits(policy: string -> Policy, w: World, steps: seq<Step>)
    requires Fits(w) && CanGo(policy, w, steps)
    ensures Fits(Go(policy, w, steps))
  {
    hide Fits, Possible, After;
    if steps != [] {
      AlwaysFits(policy, w, steps[..|steps| - 1]);
      FitsKept(policy, Go(policy, w, steps[..|steps| - 1]), steps[|steps| - 1]);
    }
  }

  /** With promotions, too, a registered run that is over stays so for good, unless a live copy of it is still out. */
  lemma {:induction false} NeverActiveAgainWithoutCopy(policy: string -> Policy, w: World, steps: seq<Step>, id: string)
    requires Fits(w) && id in w.sys.registered && id in w.sys.t.runs && !w.sys.t.runs[id].Active() && LiveCopies(w, id) == {}
    requires CanGo(policy, w, steps)
    ensures var w' := Go(policy, w, steps);
            id in w'.sys.registered && id in w'.sys.t.runs && !w'.sys.t.runs[id].Active() && LiveCopies(w', id) == {}
  {
    hide Fits, Possible, After, LiveCopies;
    if steps != [] {
      NeverActiveAgainWithoutCopy(policy, w, steps[..|steps| - 1], id);
      AlwaysFits(policy, w, steps[..|steps| - 1]);
      RevivalNeedsLiveCopy(policy, Go(policy, w, steps[..|steps| - 1]), steps[|steps| - 1], id);
    }
  }

  // A launcher that no promotion assigns runs to

  predicate Spares(steps: seq<Step>, c: string) {
    forall s :: s in steps && s.Write? ==> s.command != c
  }

  /** What keeps launcher c at one active run. */
  ghost predicate OneActive(w: World, c: string) {
    && (forall a, b :: a in ActiveRuns(w.sys.t, c) && b in ActiveRuns(w.sys.t, c) ==> a == b)
    && (w.sys.holder.Clear? && w.sys.holder.command == c ==> ActiveRuns(w.sys.t, c) == {})
    && (Launching(w.sys.holder) && w.sys.holder.command == c ==> ActiveRuns(w.sys.t, c) <= {w.sys.holder.run})
  }

  lemma WriteElsewhere(w: World, copy: Copy, command: string, c: string)
    requires command != c
    ensures ActiveRuns(SavedRow(w.sys, copy, command).t, c) <= ActiveRuns(w.sys.t, c)
  {
  }

  lemma OneActiveKept(policy: string -> Policy, w: World, s: Step, c: string)
    requires Fits(w) && OneActive(w, c) && Possible(w, s) && Strict(policy, c)
    requires s.Write? ==> s.command != c
    ensures OneActive(After(policy, w, s), c)
  {
    hide ActiveRuns;
    match s
    case Do(a) => NewActiveRuns(policy, w.sys, a, c);
    case Read(_) =>
    case Write(copy, command) => WriteElsewhere(w, copy, command, c);
  }

  lemma {:induction false} SparedStaysAtOne(policy: string -> Policy, w: World, steps: seq<Step>, c: string)
    requires Fits(w) && OneActive(w, c) && Strict(policy, c) && CanGo(policy, w, steps) && Spares(steps, c)
    ensures OneActive(Go(policy, w, steps), c)
  {
    hide Fits, Possible, After, OneActive;
    if steps != [] {
      var before, last := steps[..|steps| - 1], steps[|steps| - 1];
      assert last in steps && forall s :: s in before ==> s in steps;
      SparedStaysAtOne(policy, w, before, c);
      AlwaysFits(policy, w, before);
      OneActiveKept(policy, Go(policy, w, before), last, c);
    }
  }

  /** A launcher of policy forbid or replace to which no run is promoted never has two active runs. */
  lemma NeverTwoActiveUnlessPromoted(policy: string -> Policy, rows: map<string, Run>, recent: set<string>, known: set<string>, steps: seq<Step>, c: string)
    requires AllSeen(rows, recent) && Strict(policy, c) && Spares(steps, c)
    requires CanGo(policy, World(Boot(rows, recent, known), {}), steps)
    ensures var s := Go(policy, World(Boot(rows, recent, known), {}), steps).sys;
            forall a, b :: a in ActiveRuns(s.t, c) && b in ActiveRuns(s.t, c) ==> a == b
  {
    hide CanGo, Go, Boot, AllSeen;
    BootInv(policy, rows, recent, known);
    SparedStaysAtOne(policy, World(Boot(rows, recent, known), {}), steps, c);
  }

  // What does not survive

  lemma GoOn(policy: string -> Policy, w: World, steps: seq<Step>, s: Step)
    requires CanGo(policy, w, steps) && Possible(Go(policy, w, steps), s)
    ensures CanGo(policy, w, steps + [s]) && Go(policy, w, steps + [s]) == After(policy, Go(policy, w, steps), s)
  {
    hide Possible, After;
    assert (steps + [s])[..|steps|] == steps;
  }

  lemma NoSteps(policy: string -> Policy, w: World)
    ensures CanGo(policy, w, []) && Go(policy, w, []) == w
  {
  }

  /** Whenever the exit of an active run falls between the two halves of its promotion, the run comes back, with nobody waiting for it. */
  lemma PromotionRevives(policy: string -> Policy, w: World, id: string, waitFailed: bool, code: int, command: string)
    requires id in w.sys.waiting && id !in w.sys.alive && id in w.sys.t.runs && w.sys.t.runs[id].Active()
    ensures var steps := [Read(id)] + [Do(Exit(id, waitFailed, code))] + [Write(Copy(id, w.sys.t.runs[id]), command)];
            && CanGo(policy, w, steps)
            && var s := Go(policy, w, steps).sys;
               id in s.t.runs && s.t.runs[id].Active() && id !in s.waiting && id !in s.t.cmds
  {
    hide CanGo, Go;
    var copy := Copy(id, w.sys.t.runs[id]);
    NoSteps(policy, w);
    GoOn(policy, w, [], Read(id));
    assert [] + [Read(id)] == [Read(id)];
    GoOn(policy, w, [Read(id)], Do(Exit(id, waitFailed, code)));
    GoOn(policy, w, [Read(id)] + [Do(Exit(id, waitFailed, code))], Write(copy, command));
  }

  /** An active run of another launcher, promoted to a busy one, makes two active runs there without any race. */
  lemma PromotionCrowds(policy: string -> Policy, w: World, a: string, b: string, c: string)
    requires a != b && a in ActiveRuns(w.sys.t, c) && b in w.sys.t.runs && w.sys.t.runs[b].Active()
    ensures var steps := [Read(b)] + [Write(Copy(b, w.sys.t.runs[b]), c)];
            CanGo(policy, w, steps) && {a, b} <= ActiveRuns(Go(policy, w, steps).sys.t, c)
  {
    hide CanGo, Go;
    NoSteps(policy, w);
    GoOn(policy, w, [], Read(b));
    assert [] + [Read(b)] == [Read(b)];
    GoOn(policy, w, [Read(b)], Write(Copy(b, w.sys.t.runs[b]), c));
  }

  function Launched(c: string, id: string): seq<Action> {
    [BeginStart(c)] + [SaveStarting(id)] + [Spawn] + [RecordRunning] + [RegisterRun]
  }

  lemma SavedFirst(policy: string -> Policy, c: string, id: string)
    ensures var actions := [BeginStart(c)] + [SaveStarting(id)];
            CanExecute(policy, INITIAL, actions) && Execute(policy, INITIAL, actions).holder == Saved(c, id)
  {
    hide CanExecute, Execute, ActiveRuns;
    NoRunsNoneActive(policy, c);
    assert [] + [BeginStart(c)] == [BeginStart(c)];
    ExecuteGrows(policy, INITIAL, [], BeginStart(c));
    ExecuteGrows(policy, INITIAL, [BeginStart(c)], SaveStarting(id));
  }

  lemma LaunchSteps(policy: string -> Policy, s: System, c: string, id: string)
    requires s.holder == Saved(c, id)
    ensures Enabled(s, Spawn) && Enabled(Apply(policy, s, Spawn), RecordRunning)
    ensures var r := Apply(policy, Apply(policy, s, Spawn), RecordRunning);
            && Enabled(r, RegisterRun)
            && var s' := Apply(policy, r, RegisterRun);
               id in s'.waiting && id in s'.alive && s'.t.runs == r.t.runs && id in r.t.runs
               && r.t.runs[id] == Run(c, Running, true, ReadinessUnknown, 0, 0)
  {
  }

  /** Both premises occur: this is where a launched run stands when its process group has just died. */
  lemma LaunchedAndDead(policy: string -> Policy, c: string, id: string)
    ensures CanExecute(policy, INITIAL, Launched(c, id) + [GroupDies(id)])
    ensures var s := Execute(policy, INITIAL, Launched(c, id) + [GroupDies(id)]);
            && id in s.waiting && id !in s.alive && id in s.t.runs && s.t.runs[id].Active() && s.t.runs[id].command == c
  {
    hide CanExecute, Execute, ActiveRuns;
    var saved := [BeginStart(c)] + [SaveStarting(id)];
    SavedFirst(policy, c, id);
    LaunchSteps(policy, Execute(policy, INITIAL, saved), c, id);
    ExecuteGrows(policy, INITIAL, saved, Spawn);
    ExecuteGrows(policy, INITIAL, saved + [Spawn], RecordRunning);
    ExecuteGrows(policy, INITIAL, saved + [Spawn] + [RecordRunning], RegisterRun);
    ExecuteGrows(policy, INITIAL, Launched(c, id), GroupDies(id));
  }
}
