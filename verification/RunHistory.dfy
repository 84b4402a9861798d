/** What holds of runs over whole histories, from the empty tables on. */
module RunHistory {
  import opened RunTables
  import opened RunLifecycle

  predicate CanExecute(policy: string -> Policy, s: System, actions: seq<Action>)
    decreases |actions|, 0
  {
    actions != [] ==>
      && CanExecute(policy, s, actions[..|actions| - 1])
      && Enabled(Execute(policy, s, actions[..|actions| - 1]), actions[|actions| - 1])
  }

  function Execute(policy: string -> Policy, s: System, actions: seq<Action>): System
    requires CanExecute(policy, s, actions)
    decreases |actions|, 1
  {
    if actions == [] then s
    else Apply(policy, Execute(policy, s, actions[..|actions| - 1]), actions[|actions| - 1])
  }

  predicate AllSeen(rows: map<string, Run>, recent: set<string>) {
    forall id :: id in rows && rows[id].Active() ==> id in recent
  }

  /** Whatever rows a Runtime finds, it starts in a state that fits the invariant, once it has seen the active ones. */
  lemma BootInv(policy: string -> Policy, rows: map<string, Run>, recent: set<string>, known: set<string>)
    requires AllSeen(rows, recent)
    ensures Inv(policy, Boot(rows, recent, known))
    ensures forall c :: ActiveRuns(Boot(rows, recent, known).t, c) == {}
  {
    forall id | id in rows ensures !Reconciled(rows, recent, known)[id].Active() {
    }
  }

  /** From any state that fits the invariant, every interleaving keeps it. */
  lemma {:induction false} AlwaysInv(policy: string -> Policy, s: System, actions: seq<Action>)
    requires Inv(policy, s) && CanExecute(policy, s, actions)
    ensures Inv(policy, Execute(policy, s, actions))
  {
    hide Inv, Enabled, Apply;
    if actions != [] {
      AlwaysInv(policy, s, actions[..|actions| - 1]);
      InvKept(policy, Execute(policy, s, actions[..|actions| - 1]), actions[|actions| - 1]);
    }
  }

  /** A launcher with a fixed policy of forbid or replace never has two active runs, whatever was stored before. */
  lemma NeverTwoActive(policy: string -> Policy, rows: map<string, Run>, recent: set<string>, known: set<string>, actions: seq<Action>, c: string)
    requires AllSeen(rows, recent) && CanExecute(policy, Boot(rows, recent, known), actions) && Strict(policy, c)
    ensures |ActiveRuns(Execute(policy, Boot(rows, recent, known), actions).t, c)| <= 1
  {
    hide Boot, CanExecute, Execute, AllSeen;
    BootInv(policy, rows, recent, known);
    AlwaysInv(policy, Boot(rows, recent, known), actions);
    AtMostOneCounts(policy, Execute(policy, Boot(rows, recent, known), actions), c);
  }

  lemma AtMostOneCounts(policy: string -> Policy, s: System, c: string)
    requires AtMostOne(policy, s) && Strict(policy, c)
    ensures |ActiveRuns(s.t, c)| <= 1
  {
    var active := ActiveRuns(s.t, c);
    if id :| id in active {
      assert active == {id};
    }
  }

  /** A registered run that is no longer active stays so for good. */
  lemma {:induction false} NeverActiveAgain(policy: string -> Policy, s: System, actions: seq<Action>, id: string)
    requires Inv(policy, s) && id in s.registered && !s.t.runs[id].Active() && CanExecute(policy, s, actions)
    ensures var s' := Execute(policy, s, actions);
            id in s'.registered && id in s'.t.runs && !s'.t.runs[id].Active()
  {
    if actions != [] {
      hide Inv, Enabled, Apply;
      var before, last := actions[..|actions| - 1], actions[|actions| - 1];
      NeverActiveAgain(policy, s, before, id);
      AlwaysInv(policy, s, before);
      OneStep(policy, Execute(policy, s, before), last, id);
    }
  }

  lemma OneStep(policy: string -> Policy, s: System, a: Action, id: string)
    requires Inv(policy, s) && Enabled(s, a) && id in s.registered && id in s.t.runs && !s.t.runs[id].Active()
    ensures var s' := Apply(policy, s, a); id in s'.registered && id in s'.t.runs && !s'.t.runs[id].Active()
  {
    RevivalOnlyByLaunch(policy, s, a, id);
    RegisteredGrows(policy, s, a);
  }

  lemma RegisteredGrows(policy: string -> Policy, s: System, a: Action)
    requires Enabled(s, a)
    ensures s.registered <= Apply(policy, s, a).registered
  {
  }

  lemma ExecuteGrows(policy: string -> Policy, s: System, actions: seq<Action>, a: Action)
    requires CanExecute(policy, s, actions) && Enabled(Execute(policy, s, actions), a)
    ensures CanExecute(policy, s, actions + [a])
    ensures Execute(policy, s, actions + [a]) == Apply(policy, Execute(policy, s, actions), a)
  {
    hide Enabled, Apply;
    assert (actions + [a])[..|actions|] == actions;
  }

  const INITIAL := Boot(map[], {}, {})

  /** A start that is stopped between the two rows it writes first. */
  function Interrupted(c: string, id: string): seq<Action> {
    [BeginStart(c), SaveStarting(id), StopRun(id)]
  }

  /** Before registration it is otherwise: such a run comes back. */
  lemma RevivedBeforeRegistration(policy: string -> Policy, c: string, id: string)
    ensures CanExecute(policy, INITIAL, Interrupted(c, id))
    ensures var s := Execute(policy, INITIAL, Interrupted(c, id)); id in s.t.runs && s.t.runs[id].status == RunTables.Stopped
    ensures CanExecute(policy, INITIAL, Interrupted(c, id) + [Spawn] + [RecordRunning])
    ensures var s := Execute(policy, INITIAL, Interrupted(c, id) + [Spawn] + [RecordRunning]);
            id in s.t.runs && s.t.runs[id].status == Running
  {
    hide CanExecute, Execute, Enabled, Apply, Interrupted;
    StoppedWhileSaved(policy, c, id);
    Comeback(policy, Execute(policy, INITIAL, Interrupted(c, id)), c, id);
    ExecuteGrows(policy, INITIAL, Interrupted(c, id), Spawn);
    ExecuteGrows(policy, INITIAL, Interrupted(c, id) + [Spawn], RecordRunning);
  }

  lemma StoppedWhileSaved(policy: string -> Policy, c: string, id: string)
    ensures CanExecute(policy, INITIAL, Interrupted(c, id))
    ensures var s := Execute(policy, INITIAL, Interrupted(c, id));
            s.holder == Saved(c, id) && id in s.t.runs && s.t.runs[id].status == RunTables.Stopped
  {
    hide ActiveRuns, CanExecute, Execute;
    NoRunsNoneActive(policy, c);
    assert Interrupted(c, id) == [] + [BeginStart(c)] + [SaveStarting(id)] + [StopRun(id)];
    ExecuteGrows(policy, INITIAL, [], BeginStart(c));
    ExecuteGrows(policy, INITIAL, [] + [BeginStart(c)], SaveStarting(id));
    ExecuteGrows(policy, INITIAL, [] + [BeginStart(c)] + [SaveStarting(id)], StopRun(id));
  }

  lemma Comeback(policy: string -> Policy, s: System, c: string, id: string)
    requires s.holder == Saved(c, id) && id in s.t.runs
    ensures Enabled(s, Spawn) && Enabled(Apply(policy, s, Spawn), RecordRunning)
    ensures var s' := Apply(policy, Apply(policy, s, Spawn), RecordRunning); id in s'.t.runs && s'.t.runs[id].status == Running
  {
  }

  lemma NoRunsNoneActive(policy: string -> Policy, c: string)
    ensures ActiveRuns(INITIAL.t, c) == {}
    ensures CanExecute(policy, INITIAL, []) && Execute(policy, INITIAL, []) == INITIAL
  {
  }
}
