/** What the operations on a launcher do to the runs they find, and how an exit is told, over whole histories. */
module RunPolicies {
  import opened RunTables
  import opened RunLifecycle
  import opened RunHistory

  predicate Begins(a: Action) {
    a.BeginStart? || a.BeginStop? || a.BeginRestart?
  }

  lemma {:induction false} PrefixCanExecute(policy: string -> Policy, s: System, actions: seq<Action>, k: nat)
    requires CanExecute(policy, s, actions) && k <= |actions|
    ensures CanExecute(policy, s, actions[..k])
    ensures k < |actions| ==> Enabled(Execute(policy, s, actions[..k]), actions[k])
    decreases |actions|
  {
    hide Enabled, Apply;
    if k < |actions| - 1 {
      PrefixCanExecute(policy, s, actions[..|actions| - 1], k);
      assert actions[..|actions| - 1][..k] == actions[..k];
    } else {
      assert k == |actions| ==> actions[..k] == actions;
    }
  }

  // The policy forbid

  /** The operations on the launcher are starts. */
  predicate OnlyStarts(actions: seq<Action>, c: string) {
    forall a :: a in actions && Begins(a) && a.command == c ==> a.BeginStart?
  }

  ghost predicate NeverStops(s: System, c: string) {
    s.holder.Stops? ==> s.holder.command != c && forall id :: id in s.holder.todo ==> id in s.t.runs && s.t.runs[id].command != c
  }

  lemma NeverStopsKept(policy: string -> Policy, s: System, a: Action, c: string)
    requires Enabled(s, a) && LaunchFits(s) && policy(c) == Forbid
    requires Begins(a) && a.command == c ==> a.BeginStart?
    requires NeverStops(s, c)
    ensures NeverStops(Apply(policy, s, a), c)
  {
    hide ExitStatus;
  }

  lemma {:induction false} NeverStopsAlways(policy: string -> Policy, s: System, actions: seq<Action>, c: string)
    requires Inv(policy, s) && CanExecute(policy, s, actions) && policy(c) == Forbid && OnlyStarts(actions, c)
    requires NeverStops(s, c)
    ensures NeverStops(Execute(policy, s, actions), c)
  {
    hide Inv, Enabled, Apply, NeverStops;
    if actions != [] {
      var before, last := actions[..|actions| - 1], actions[|actions| - 1];
      NeverStopsAlways(policy, s, before, c);
      AlwaysInv(policy, s, before);
      assert LaunchFits(Execute(policy, s, before)) by {
        InvMeans(policy, Execute(policy, s, before));
      }
      NeverStopsKept(policy, Execute(policy, s, before), last, c);
    }
  }

  lemma InvMeans(policy: string -> Policy, s: System)
    requires Inv(policy, s)
    ensures LaunchFits(s) && Remembered(s)
  {
  }

  /** Starting a launcher that forbids a second run stops no run of it. */
  lemma ForbidStopsNothing(policy: string -> Policy, s: System, actions: seq<Action>, c: string, k: nat, id: string)
    requires Inv(policy, s) && CanExecute(policy, s, actions) && policy(c) == Forbid && OnlyStarts(actions, c)
    requires !s.holder.Stops?
    requires k < |actions| && actions[k] == StopNext(id)
    ensures CanExecute(policy, s, actions[..k])
    ensures var t := Execute(policy, s, actions[..k]).t; id in t.runs && t.runs[id].command != c
  {
    hide CanExecute, Execute, Inv;
    PrefixCanExecute(policy, s, actions, k);
    NeverStopsAlways(policy, s, actions[..k], c);
  }

  /** It only answers that the launcher is running already. */
  lemma StartOfARunning(policy: string -> Policy, s: System, actions: seq<Action>, c: string, k: nat)
    requires CanExecute(policy, s, actions) && k < |actions| && actions[k] == BeginStart(c)
    ensures CanExecute(policy, s, actions[..k]) && CanExecute(policy, s, actions[..k + 1])
    ensures var before, after := Execute(policy, s, actions[..k]), Execute(policy, s, actions[..k + 1]);
            && after.t == before.t && after.asked == before.asked
            && (after.holder.Free? <==> ActiveRuns(before.t, c) != {} && (policy(c) == Forbid || policy(c) == Invalid))
            && (after.holder == Clear(c) <==> ActiveRuns(before.t, c) == {} || policy(c) == Allow)
  {
    hide ActiveRuns;
    PrefixCanExecute(policy, s, actions, k);
    PrefixCanExecute(policy, s, actions, k + 1);
    assert actions[..k + 1][..k] == actions[..k];
  }

  /** A stop that finds nothing active has the command of an external launcher left to run, and nothing else. */
  lemma StopOfAnIdle(policy: string -> Policy, s: System, actions: seq<Action>, c: string, external: bool, k: nat)
    requires CanExecute(policy, s, actions) && k < |actions| && actions[k] == BeginStop(c, external)
    ensures CanExecute(policy, s, actions[..k]) && CanExecute(policy, s, actions[..k + 1])
    ensures var before, after := Execute(policy, s, actions[..k]), Execute(policy, s, actions[..k + 1]);
            && after.t == before.t && after.asked == before.asked
            && (after.holder == Clear(c) <==> external && ActiveRuns(before.t, c) == {})
            && (after.holder.Stops? <==> !external || ActiveRuns(before.t, c) != {})
  {
    hide ActiveRuns;
    PrefixCanExecute(policy, s, actions, k);
    PrefixCanExecute(policy, s, actions, k + 1);
    assert actions[..k + 1][..k] == actions[..k];
  }

  // Operations that stop what they find and then start

  /** What an operation does with the active runs it finds. */
  datatype Plan = StopThenStart | OnlyStop | Other

  /** A replacing start, a restart, and the stop of an external launcher, which has a command to run. */
  function PlanOf(policy: string -> Policy, s: System, a: Action): Plan
    requires Begins(a)
  {
    match a
    case BeginStart(c) => if policy(c) == Replace && ActiveRuns(s.t, c) != {} then StopThenStart else Other
    case BeginStop(c, external) => if !external then OnlyStop else if ActiveRuns(s.t, c) != {} then StopThenStart else Other
    case _ => StopThenStart
  }

  predicate Quiet(actions: seq<Action>) {
    forall a :: a in actions ==> !Begins(a)
  }

  /** found holds the runs that were active when the operation began. */
  ghost predicate Underway(plan: Plan, found: set<string>, c: string, s: System) {
    match s.holder
    case Stops(d, todo, thenDrain) => d == c && (thenDrain <==> plan == StopThenStart) && todo <= found && found - todo <= s.asked
    case Drains(d) => d == c && plan == StopThenStart && found <= s.asked
    case Clear(d) => d == c && plan == StopThenStart && found <= s.asked && ActiveRuns(s.t, c) == {}
    case Free => true
    case _ => plan == StopThenStart && found <= s.asked
  }

  lemma UnderwayBegins(policy: string -> Policy, s: System, a: Action)
    requires Enabled(s, a) && Begins(a) && PlanOf(policy, s, a) != Other
    ensures Underway(PlanOf(policy, s, a), ActiveRuns(s.t, a.command), a.command, Apply(policy, s, a))
    ensures Apply(policy, s, a).holder.Stops?
  {
    hide ActiveRuns;
  }

  lemma UnderwayKept(policy: string -> Policy, s: System, a: Action, plan: Plan, found: set<string>, c: string)
    requires Enabled(s, a) && !Begins(a) && LaunchStored(s) && Underway(plan, found, c, s)
    ensures Underway(plan, found, c, Apply(policy, s, a))
    ensures !a.GiveUp? && !a.SaveStarting? && plan == StopThenStart && !s.holder.Free? && !Launching(s.holder) ==>
              !Apply(policy, s, a).holder.Free? && !Launching(Apply(policy, s, a).holder)
    ensures !a.GiveUp? && plan == OnlyStop && found <= s.asked ==> found <= Apply(policy, s, a).asked
    ensures !a.GiveUp? && plan == OnlyStop && !s.holder.Free? && Apply(policy, s, a).holder.Free? ==> found <= s.asked
  {
    hide ActiveRuns, LaunchStored;
    NewActiveRuns(policy, s, a, c);
  }

  lemma {:induction false} StaysUnderway(policy: string -> Policy, s: System, rest: seq<Action>, plan: Plan, found: set<string>, c: string)
    requires LaunchStored(s) && Remembered(s) && CanExecute(policy, s, rest) && Quiet(rest)
    requires Underway(plan, found, c, s) && s.holder.Stops?
    ensures var s' := Execute(policy, s, rest);
            && LaunchStored(s') && Remembered(s') && Underway(plan, found, c, s')
            && (GiveUp !in rest && (forall id :: SaveStarting(id) !in rest) && plan == StopThenStart ==>
                  !s'.holder.Free? && !Launching(s'.holder))
            && (GiveUp !in rest && plan == OnlyStop && s'.holder.Free? ==> found <= s'.asked)
  {
    hide LaunchStored, Remembered, Underway, Enabled, Apply;
    if rest != [] {
      var before, last := rest[..|rest| - 1], rest[|rest| - 1];
      assert rest == before + [last];
      StaysUnderway(policy, s, before, plan, found, c);
      var middle := Execute(policy, s, before);
      UnderwayKept(policy, middle, last, plan, found, c);
      LaunchStoredKept(policy, middle, last);
      RememberedKept(policy, middle, last);
    }
  }

  /** Such an operation starts nothing before it has stopped every run it found and none is active. */
  lemma StopsBeforeItStarts(policy: string -> Policy, s: System, a: Action, rest: seq<Action>)
    requires Inv(policy, s) && Enabled(s, a) && Begins(a) && PlanOf(policy, s, a) == StopThenStart
    requires CanExecute(policy, Apply(policy, s, a), rest) && Quiet(rest)
    ensures var s' := Execute(policy, Apply(policy, s, a), rest);
            && (s'.holder.Clear? || Launching(s'.holder) ==> ActiveRuns(s.t, a.command) <= s'.asked)
            && (s'.holder.Clear? ==> s'.holder.command == a.command && ActiveRuns(s'.t, a.command) == {})
  {
    hide Inv, CanExecute, Execute, ActiveRuns;
    Begun(policy, s, a);
    StaysUnderway(policy, Apply(policy, s, a), rest, StopThenStart, ActiveRuns(s.t, a.command), a.command);
  }

  lemma Begun(policy: string -> Policy, s: System, a: Action)
    requires Inv(policy, s) && Enabled(s, a) && Begins(a) && PlanOf(policy, s, a) != Other
    ensures var s' := Apply(policy, s, a);
            && LaunchStored(s') && Remembered(s') && s'.holder.Stops?
            && Underway(PlanOf(policy, s, a), ActiveRuns(s.t, a.command), a.command, s')
  {
    hide HolderAfterStart, ActiveRuns, Underway;
    UnderwayBegins(policy, s, a);
  }

  /** It refuses nothing: unless it gives up, every run it found is asked to stop or can be asked next. */
  lemma GoesOnUntilItStarts(policy: string -> Policy, s: System, a: Action, rest: seq<Action>)
    requires Inv(policy, s) && Enabled(s, a) && Begins(a) && PlanOf(policy, s, a) == StopThenStart
    requires CanExecute(policy, Apply(policy, s, a), rest) && Quiet(rest)
    requires GiveUp !in rest && forall id :: SaveStarting(id) !in rest
    ensures var s' := Execute(policy, Apply(policy, s, a), rest);
            && (forall id :: id in ActiveRuns(s.t, a.command) ==> id in s'.asked || Enabled(s', StopNext(id)))
            && (s'.holder.Clear? || Enabled(s', DrainDone) || (exists id :: Enabled(s', StopNext(id))) || ActiveRuns(s'.t, a.command) != {})
  {
    hide Inv, CanExecute, Execute, ActiveRuns;
    Begun(policy, s, a);
    StaysUnderway(policy, Apply(policy, s, a), rest, StopThenStart, ActiveRuns(s.t, a.command), a.command);
    var s' := Execute(policy, Apply(policy, s, a), rest);
    if s'.holder.Stops? && s'.holder.todo != {} {
      var id :| id in s'.holder.todo;
      assert Enabled(s', StopNext(id));
    }
  }

  /** The stop of a managed launcher starts nothing, and when it is through it has stopped every run it found. */
  lemma StopOnlyStops(policy: string -> Policy, s: System, c: string, rest: seq<Action>)
    requires Inv(policy, s) && Enabled(s, BeginStop(c, false))
    requires CanExecute(policy, Apply(policy, s, BeginStop(c, false)), rest) && Quiet(rest)
    ensures var s' := Execute(policy, Apply(policy, s, BeginStop(c, false)), rest);
            && (s'.holder.Free? || s'.holder.Stops?)
            && (s'.holder.Free? && GiveUp !in rest ==> ActiveRuns(s.t, c) <= s'.asked)
            && (s'.holder.Stops? ==> forall id :: id in ActiveRuns(s.t, c) ==> id in s'.asked || Enabled(s', StopNext(id)))
  {
    hide Inv, CanExecute, Execute, ActiveRuns;
    var a := BeginStop(c, false);
    Begun(policy, s, a);
    StaysUnderway(policy, Apply(policy, s, a), rest, OnlyStop, ActiveRuns(s.t, c), c);
  }

  // How an exit is told

  /** A registered run whose exit is booked and that is over keeps its status for good. */
  lemma {:induction false} FinalStatus(policy: string -> Policy, s: System, actions: seq<Action>, id: string)
    requires Inv(policy, s) && CanExecute(policy, s, actions)
    requires id in s.registered && id !in s.waiting && id in s.t.runs && !s.t.runs[id].Active()
    ensures var s' := Execute(policy, s, actions);
            && id in s'.registered && id !in s'.waiting
            && id in s'.t.runs && s'.t.runs[id].status == s.t.runs[id].status
  {
    hide Inv, Enabled, Apply;
    if actions != [] {
      var before, last := actions[..|actions| - 1], actions[|actions| - 1];
      FinalStatus(policy, s, before, id);
      AlwaysInv(policy, s, before);
      InvMeans(policy, Execute(policy, s, before));
      StatusStays(policy, Execute(policy, s, before), last, id);
    }
  }

  lemma StatusStays(policy: string -> Policy, s: System, a: Action, id: string)
    requires Enabled(s, a) && LaunchStored(s)
    requires id in s.registered && id !in s.waiting && id in s.t.runs && !s.t.runs[id].Active()
    ensures var s' := Apply(policy, s, a);
            && id in s'.registered && id !in s'.waiting
            && id in s'.t.runs && s'.t.runs[id].status == s.t.runs[id].status
  {
    hide ActiveRuns, HolderAfterStart;
  }

  /**
   Once booked, an exit is told for good: as completed exactly when nobody had the run stopping
   and its process ended well, as failed when it ended otherwise unasked, as killed when its
   forced kill was recorded, and as stopped when a stop was enough.
   */
  lemma ExitTold(policy: string -> Policy, s: System, id: string, waitFailed: bool, code: int, actions: seq<Action>)
    requires Inv(policy, s) && Enabled(s, Exit(id, waitFailed, code))
    requires CanExecute(policy, Apply(policy, s, Exit(id, waitFailed, code)), actions)
    ensures id in s.t.runs
    ensures var s' := Execute(policy, Apply(policy, s, Exit(id, waitFailed, code)), actions);
            && id in s'.t.runs
            && (s'.t.runs[id].status == Completed <==> s.t.runs[id].status != Stopping && !waitFailed && code == 0)
            && (s'.t.runs[id].status == Failed <==> s.t.runs[id].status != Stopping && (waitFailed || code != 0))
            && (s'.t.runs[id].status == RunTables.Stopped <==> s.t.runs[id].status == Stopping && id !in s.t.forceKilled)
            && (s'.t.runs[id].status == Killed <==> s.t.runs[id].status == Stopping && id in s.t.forceKilled)
  {
    hide CanExecute, Execute, AtMostOne, Reserved, KilledForAReason;
    var exited := Apply(policy, s, Exit(id, waitFailed, code));
    InvKept(policy, s, Exit(id, waitFailed, code));
    assert id in exited.t.runs && !exited.t.runs[id].Active();
    FinalStatus(policy, exited, actions, id);
  }

  // Why a group is killed by force

  /** Action j asked the run to stop and signalled its group, which was alive. */
  ghost predicate SignalledAt(policy: string -> Policy, s: System, actions: seq<Action>, j: nat, id: string) {
    && j < |actions| && (actions[j] == StopRun(id) || actions[j] == StopNext(id))
    && CanExecute(policy, s, actions[..j])
    && var before := Execute(policy, s, actions[..j]); SignalsGroup(before.t, id, id in before.alive)
  }

  /** Action j looked at the group, some time after that, and found it alive. */
  ghost predicate LookedAt(policy: string -> Policy, s: System, actions: seq<Action>, j: nat, id: string) {
    && j < |actions| && actions[j] == LookAtGroup(id)
    && CanExecute(policy, s, actions[..j]) && id in Execute(policy, s, actions[..j]).alive
    && exists i :: SignalledAt(policy, s, actions[..j], i, id)
  }

  lemma SignalledStill(policy: string -> Policy, s: System, actions: seq<Action>, n: nat, j: nat, id: string)
    requires n <= |actions| && SignalledAt(policy, s, actions[..n], j, id)
    ensures SignalledAt(policy, s, actions, j, id)
  {
    assert actions[..n][..j] == actions[..j];
  }

  lemma LookedStill(policy: string -> Policy, s: System, actions: seq<Action>, n: nat, j: nat, id: string)
    requires n <= |actions| && LookedAt(policy, s, actions[..n], j, id)
    ensures LookedAt(policy, s, actions, j, id)
  {
    hide SignalledAt;
    assert actions[..n][..j] == actions[..j];
  }

  lemma {:induction false} EscalationsHaveReasons(policy: string -> Policy, s: System, actions: seq<Action>, id: string)
    requires CanExecute(policy, s, actions) && id !in s.armed && id !in s.doomed
    ensures id in Execute(policy, s, actions).armed ==> exists j :: SignalledAt(policy, s, actions, j, id)
    ensures id in Execute(policy, s, actions).doomed ==> exists j :: LookedAt(policy, s, actions, j, id)
  {
    if actions != [] {
      hide SignalledAt, LookedAt;
      var n := |actions| - 1;
      EscalationsHaveReasons(policy, s, actions[..n], id);
      forall j | SignalledAt(policy, s, actions[..n], j, id) ensures SignalledAt(policy, s, actions, j, id) {
        SignalledStill(policy, s, actions, n, j, id);
      }
      forall j | LookedAt(policy, s, actions[..n], j, id) ensures LookedAt(policy, s, actions, j, id) {
        LookedStill(policy, s, actions, n, j, id);
      }
      LastEscalates(policy, s, actions, id);
    }
  }

  /** What the last action adds to the escalations. */
  lemma LastEscalates(policy: string -> Policy, s: System, actions: seq<Action>, id: string)
    requires actions != [] && CanExecute(policy, s, actions)
    ensures var n := |actions| - 1; var before, after := Execute(policy, s, actions[..n]), Execute(policy, s, actions);
            && (id in after.armed ==> id in before.armed || SignalledAt(policy, s, actions, n, id))
            && (id in after.doomed && id !in before.doomed && (exists i :: SignalledAt(policy, s, actions[..n], i, id)) ==>
                  LookedAt(policy, s, actions, n, id))
            && (id in after.doomed && id !in before.doomed ==> id in before.armed)
  {
    hide ActiveRuns, StopSection, ExitSection;
  }

  /** A group is killed by force only if a stop signalled it and a later look found it still alive. */
  lemma ForceKillHasReasons(policy: string -> Policy, s: System, actions: seq<Action>, k: nat, id: string)
    requires CanExecute(policy, s, actions) && id !in s.armed && id !in s.doomed
    requires k < |actions| && actions[k] == ForceKill(id)
    ensures exists j: nat :: j < k && LookedAt(policy, s, actions, j, id)
  {
    hide CanExecute, Execute;
    PrefixCanExecute(policy, s, actions, k);
    EscalationsHaveReasons(policy, s, actions[..k], id);
    var j :| LookedAt(policy, s, actions[..k], j, id);
    LookedStill(policy, s, actions, k, j, id);
  }
}
