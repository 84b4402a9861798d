/** The list of current listeners: managed ones, and external ones inferred from port evidence. */
module Listeners {
  import opened Digraph
  import opened Results
  import E = PortEvidence
  import R = RunTables

  datatype Run = Run(
    id: string, command: string, status: R.Status, action: E.Action,
    evidence: seq<E.Verification>, ports: seq<int>)
  {
    predicate Active() {
      status == R.Starting || status == R.Running || status == R.Stopping
    }
  }

  datatype Command = Command(id: string, external: bool)

  datatype Listener = Managed(port: int, run: string) | External(port: int, run: string, high: bool)

  datatype View = View(lastRun: Option<string>, activeRun: Option<string>, evidence: seq<E.Verification>, canStop: bool)

  function AsExternal(r: Run): E.External {
    E.External(r.Active(), r.status == R.Completed, r.action, r.evidence)
  }

  predicate Has(evidence: seq<E.Verification>, status: E.Evidence) {
    exists v :: v in evidence && v.status == status
  }

  function FirstActive(runs: seq<Run>): nat {
    if runs == [] then 0 else if runs[0].Active() then 0 else 1 + FirstActive(runs[1..])
  }

  function FirstAction(runs: seq<Run>): nat {
    if runs == [] then 0 else if runs[0].action != E.NoAction then 0 else 1 + FirstAction(runs[1..])
  }

  /** Whether the last lifecycle action leaves something that can be stopped. */
  function Stoppable(r: Run): bool {
    var up := E.Conclude(AsExternal(r)).state != E.IsStopped;
    match r.action
    case Stop => if r.status == R.Failed then up else Has(r.evidence, E.StillListening)
    case _ => (r.status == R.Completed || r.status == R.Failed) && up
  }

  lemma {:induction false} FirstActiveAt(runs: seq<Run>, i: nat)
    requires i <= |runs| && forall j :: 0 <= j < i ==> !runs[j].Active()
    ensures i < |runs| && runs[i].Active() ==> FirstActive(runs) == i
    ensures i == |runs| ==> FirstActive(runs) == i
  {
    if i > 0 {
      FirstActiveAt(runs[1..], i - 1);
    }
  }

  lemma {:induction false} FirstActionAt(runs: seq<Run>, i: nat)
    requires i <= |runs| && forall j :: 0 <= j < i ==> runs[j].action == E.NoAction
    ensures i < |runs| && runs[i].action != E.NoAction ==> FirstAction(runs) == i
    ensures i == |runs| ==> FirstAction(runs) == i
  {
    if i > 0 {
      FirstActionAt(runs[1..], i - 1);
    }
  }

  /** Which run's evidence a command shows: the first active one, else the one its lifecycle was last decided by. */
  function Shown(c: Command, runs: seq<Run>): seq<E.Verification> {
    if runs == [] then []
    else if FirstActive(runs) < |runs| then runs[FirstActive(runs)].evidence
    else if !c.external then runs[0].evidence
    else if FirstAction(runs) < |runs| then runs[FirstAction(runs)].evidence
    else runs[|runs| - 1].evidence
  }

  function CanStop(c: Command, runs: seq<Run>): bool {
    if FirstActive(runs) < |runs| then !(c.external && runs[FirstActive(runs)].action == E.Stop)
    else if !c.external then false
    else if FirstAction(runs) < |runs| then Stoppable(runs[FirstAction(runs)])
    else true
  }

  method MakeCommandView(c: Command, runs: seq<Run>) returns (v: View)
    ensures v.lastRun == (if runs == [] then None else Some(runs[0].id))
    ensures v.activeRun == (if FirstActive(runs) < |runs| then Some(runs[FirstActive(runs)].id) else None)
    ensures v.evidence == Shown(c, runs) && v.canStop == CanStop(c, runs)
  {
    v := View(None, None, [], false);
    if |runs| > 0 {
      v := v.(lastRun := Some(runs[0].id), evidence := runs[0].evidence);
    }
    for i := 0 to |runs|
      invariant forall j :: 0 <= j < i ==> !runs[j].Active()
      invariant v == View(if runs == [] then None else Some(runs[0].id), None, if runs == [] then [] else runs[0].evidence, false)
    {
      FirstActiveAt(runs, i);
      if runs[i].Active() {
        v := v.(evidence := runs[i].evidence, activeRun := Some(runs[i].id));
        if !(c.external && runs[i].action == E.Stop) {
          v := v.(canStop := true);
        }
        return;
      }
    }
    FirstActiveAt(runs, |runs|);
    if !c.external {
      return;
    }
    for i := 0 to |runs|
      invariant forall j :: 0 <= j < i ==> runs[j].action == E.NoAction
      invariant v.lastRun == (if runs == [] then None else Some(runs[0].id)) && v.activeRun == None && !v.canStop
      invariant v.evidence == if runs == [] then [] else if i == 0 then runs[0].evidence else runs[i - 1].evidence
    {
      FirstActionAt(runs, i);
      var r := runs[i];
      v := v.(evidence := r.evidence);
      var observation := E.ObserveExternalRun(AsExternal(r));
      if r.action == E.Start || r.action == E.Restart {
        if r.status == R.Completed || r.status == R.Failed {
          v := v.(canStop := observation.state != E.IsStopped);
        }
        return;
      } else if r.action == E.Stop {
        if r.status == R.Failed {
          v := v.(canStop := observation.state != E.IsStopped);
        } else if Has(r.evidence, E.StillListening) {
          v := v.(canStop := true);
        }
        return;
      }
    }
    FirstActionAt(runs, |runs|);
    v := v.(canStop := true);
  }

  /**
   When an external launcher can be stopped after its last action: a failed stop always leaves
   something, another stop what still listens, and a start or restart that is over whatever its
   evidence does not show to be closed.
   */
  lemma StoppableMeans(r: Run)
    requires !r.Active() && r.action != E.NoAction
    ensures r.action == E.Stop && r.status == R.Failed ==> Stoppable(r)
    ensures r.action == E.Stop && r.status != R.Failed ==>
              (Stoppable(r) <==> exists i :: 0 <= i < |r.evidence| && r.evidence[i].status == E.StillListening)
    ensures r.action != E.Stop ==>
              (Stoppable(r) <==>
                && (r.status == R.Completed || r.status == R.Failed)
                && (r.evidence == [] || exists i :: 0 <= i < |r.evidence| && E.Impress(r.evidence[i]) != E.Down))
  {
    hide E.Impress, E.Count;
    E.FullCount(r.evidence, E.Down);
    E.FullCount(r.evidence, E.Up);
    E.SomeCount(r.evidence, E.Open);
    E.SomeCount(r.evidence, E.Up);
    assert forall v :: v in r.evidence <==> exists i :: 0 <= i < |r.evidence| && r.evidence[i] == v;
  }

  /** The first active run decides. */
  lemma ActiveDecides(c: Command, runs: seq<Run>, i: nat)
    requires i < |runs| && runs[i].Active() && forall j :: 0 <= j < i ==> !runs[j].Active()
    ensures Shown(c, runs) == runs[i].evidence
    ensures CanStop(c, runs) <==> !c.external || runs[i].action != E.Stop
  {
    FirstActiveAt(runs, i);
  }

  /** Without one, the first run with a lifecycle action decides for an external launcher, and nothing can be stopped of a managed one. */
  lemma ActionDecides(c: Command, runs: seq<Run>, i: nat)
    requires forall j :: 0 <= j < |runs| ==> !runs[j].Active()
    requires i < |runs| && runs[i].action != E.NoAction && forall j :: 0 <= j < i ==> runs[j].action == E.NoAction
    ensures !c.external ==> !CanStop(c, runs) && Shown(c, runs) == runs[0].evidence
    ensures c.external ==> (CanStop(c, runs) <==> Stoppable(runs[i])) && Shown(c, runs) == runs[i].evidence
  {
    hide Stoppable;
    FirstActiveAt(runs, |runs|);
    FirstActionAt(runs, i);
  }

  // The list

  function Ports(ls: seq<Listener>): seq<int> {
    if ls == [] then [] else Ports(ls[..|ls| - 1]) + [ls[|ls| - 1].port]
  }

  function ManagedOf(runs: seq<Run>): seq<Listener> {
    if runs == [] then []
    else
      var r := runs[|runs| - 1];
      ManagedOf(runs[..|runs| - 1]) +
      if r.Active() then seq(|r.ports|, i requires 0 <= i < |r.ports| => Managed(r.ports[i], r.id)) else []
  }

  function Of(runs: seq<Run>, command: string): seq<Run> {
    if runs == [] then []
    else Of(runs[..|runs| - 1], command) + if runs[|runs| - 1].command == command != "" then [runs[|runs| - 1]] else []
  }

  /** Evidence that puts a port on the list. */
  predicate Shows(v: E.Verification) {
    v.status == E.Verified && v.current != E.Closed
  }

  /** Why an external listener is listed. */
  ghost predicate Justified(runs: seq<Run>, commands: seq<Command>, l: Listener) {
    exists c, v ::
      && c in commands && c.external && CanStop(c, Of(runs, c.id))
      && v in Shown(c, Of(runs, c.id)) && Shows(v) && v.port == l.port
      && l.External? && l.high == v.high && LatestIs(Of(runs, c.id), l.run)
  }

  /** The list of a launcher's runs begins with its latest. */
  predicate LatestIs(own: seq<Run>, id: string) {
    own != [] && own[0].id == id
  }

  /** ports, as a set, are those of the listeners in ls. */
  ghost predicate Tracks(seen: set<int>, ls: seq<Listener>) {
    forall p :: p in seen <==> p in Ports(ls)
  }

  lemma PortsGrow(ls: seq<Listener>, l: Listener)
    ensures Ports(ls + [l]) == Ports(ls) + [l.port]
  {
    assert (ls + [l])[..|ls|] == ls;
  }

  method ListManaged(runs: seq<Run>) returns (out: seq<Listener>, seen: set<int>)
    ensures out == ManagedOf(runs) && Tracks(seen, out)
  {
    hide Distinct, Tracks;
    out, seen := [], {};
    NothingSeen();
    for i := 0 to |runs|
      invariant out == ManagedOf(runs[..i]) && Tracks(seen, out)
    {
      assert runs[..i + 1][..i] == runs[..i];
      if runs[i].Active() {
        out, seen := ListRun(out, seen, runs[i]);
      } else {
        assert out + [] == out;
      }
    }
    assert runs[..|runs|] == runs;
  }

  method ListRun(before: seq<Listener>, known: set<int>, r: Run) returns (out: seq<Listener>, seen: set<int>)
    requires Tracks(known, before)
    ensures out == before + seq(|r.ports|, i requires 0 <= i < |r.ports| => Managed(r.ports[i], r.id))
    ensures Tracks(seen, out)
  {
    out, seen := before, known;
    for k := 0 to |r.ports|
      invariant out == before + seq(k, i requires 0 <= i < k => Managed(r.ports[i], r.id))
      invariant Tracks(seen, out)
    {
      PortsGrow(out, Managed(r.ports[k], r.id));
      out := out + [Managed(r.ports[k], r.id)];
      seen := seen + {r.ports[k]};
    }
  }

  lemma NothingSeen()
    ensures Tracks({}, [])
  {
  }

  method RunsOf(runs: seq<Run>, command: string) returns (own: seq<Run>)
    ensures own == Of(runs, command)
  {
    own := [];
    for i := 0 to |runs|
      invariant own == Of(runs[..i], command)
    {
      assert runs[..i + 1][..i] == runs[..i];
      if runs[i].command != "" && runs[i].command == command {
        own := own + [runs[i]];
      }
    }
    assert runs[..|runs|] == runs;
  }

  /** What the external part of the list satisfies after the first n commands. */
  ghost predicate ExternalsFit(runs: seq<Run>, commands: seq<Command>, n: nat, managed: seq<Listener>, ext: seq<Listener>)
    requires n <= |commands|
  {
    && Distinct(Ports(ext))
    && (forall p :: p in Ports(ext) ==> p !in Ports(managed))
    && (forall l :: l in ext ==> l.External? && Justified(runs, commands, l))
    && (forall j, v :: 0 <= j < n && Listable(commands[j], runs, v) ==>
          v.port in Ports(managed) || v.port in Ports(ext))
  }

  predicate Listable(c: Command, runs: seq<Run>, v: E.Verification) {
    && c.external && CanStop(c, Of(runs, c.id)) && Of(runs, c.id) != []
    && v in Shown(c, Of(runs, c.id)) && Shows(v)
  }

  /** Adds the ports that one command's evidence shows and that are not listed yet. */
  method AddShown(vs: seq<E.Verification>, run: string, ghost managed: seq<Listener>, ext0: seq<Listener>, seen0: set<int>)
    returns (ext: seq<Listener>, seen: set<int>)
    requires Distinct(Ports(ext0)) && forall p :: p in Ports(ext0) ==> p !in Ports(managed)
    requires forall p :: p in seen0 <==> p in Ports(managed) || p in Ports(ext0)
    ensures Distinct(Ports(ext)) && forall p :: p in Ports(ext) ==> p !in Ports(managed)
    ensures forall p :: p in seen <==> p in Ports(managed) || p in Ports(ext)
    ensures forall p :: p in Ports(ext0) ==> p in Ports(ext)
    ensures forall l :: l in ext ==> l in ext0 || (l.External? && l.run == run && exists v :: v in vs && Shows(v) && v.port == l.port && v.high == l.high)
    ensures forall v :: v in vs && Shows(v) ==> v.port in Ports(managed) || v.port in Ports(ext)
  {
    hide Distinct, Ports;
    ext, seen := ext0, seen0;
    for i := 0 to |vs|
      invariant Distinct(Ports(ext)) && forall p :: p in Ports(ext) ==> p !in Ports(managed)
      invariant forall p :: p in seen <==> p in Ports(managed) || p in Ports(ext)
      invariant forall p :: p in Ports(ext0) ==> p in Ports(ext)
      invariant forall l :: l in ext ==> l in ext0 || (l.External? && l.run == run && exists v :: v in vs && Shows(v) && v.port == l.port && v.high == l.high)
      invariant forall v :: v in vs[..i] && Shows(v) ==> v.port in Ports(managed) || v.port in Ports(ext)
    {
      var v := vs[i];
      assert v in vs;
      if v.status != E.Verified || v.current == E.Closed || v.port in seen {
        continue;
      }
      var l := External(v.port, run, v.high);
      PortsGrow(ext, l);
      DistinctGrows(Ports(ext), v.port);
      ext := ext + [l];
      seen := seen + {v.port};
    }
    assert vs[..|vs|] == vs;
  }

  method CurrentListeners(runs: seq<Run>, commands: seq<Command>) returns (managed: seq<Listener>, ext: seq<Listener>)
    ensures managed == ManagedOf(runs)
    ensures ExternalsFit(runs, commands, |commands|, managed, ext)
  {
    hide Distinct, Ports, Shown, CanStop, Of, ManagedOf;
    var seen;
    managed, seen := ListManaged(runs);
    ext := [];
    NoPorts();
    for i := 0 to |commands|
      invariant ExternalsFit(runs, commands, i, managed, ext)
      invariant forall p :: p in seen <==> p in Ports(managed) || p in Ports(ext)
    {
      var c := commands[i];
      assert c in commands;
      if !c.external {
        continue;
      }
      var own := RunsOf(runs, c.id);
      var view := MakeCommandView(c, own);
      if !view.canStop || view.lastRun == None {
        continue;
      }
      ext, seen := AddShown(view.evidence, view.lastRun.value, managed, ext, seen);
    }
  }

  /** The managed part lists exactly the ports of the active runs. */
  lemma {:induction false} ManagedMeans(runs: seq<Run>, l: Listener)
    ensures l in ManagedOf(runs) <==> exists r :: r in runs && r.Active() && l.Managed? && l.port in r.ports && l.run == r.id
  {
    if runs != [] {
      var before, r := runs[..|runs| - 1], runs[|runs| - 1];
      ManagedMeans(before, l);
      assert runs == before + [r];
      var own := seq(|r.ports|, i requires 0 <= i < |r.ports| => Managed(r.ports[i], r.id));
      if l.Managed? && l.port in r.ports && l.run == r.id {
        var i :| 0 <= i < |r.ports| && r.ports[i] == l.port;
        assert own[i] == l;
      }
    }
  }

  lemma NoPorts()
    ensures Ports([]) == [] && Distinct<int>([])
  {
  }

  /** A port is listed as external only if it was closed before the action and was found open after it. */
  lemma ListedMeansTransition(ports: seq<int>, action: E.Action, open: seq<bool>, steps: seq<E.Step>, v: E.Verification)
    requires |open| == |ports| && E.CanRun(E.Begin(ports, action, open), steps)
    requires v in E.Run(E.Begin(ports, action, open), steps).stored && Shows(v)
    ensures exists i: nat :: i < |ports| && ports[i] == v.port && !open[i] &&
                             i in E.Run(E.Begin(ports, action, open), steps).roundOpen
  {
    hide E.CanRun, E.Run;
    E.AlwaysTruthful(ports, action, open, steps);
    var w := E.Run(E.Begin(ports, action, open), steps);
    var i: nat :| i < |w.stored| && w.stored[i] == v;
    E.StoredClaimsAreTrue(ports, action, open, steps, i);
    assert ports[i] == v.port;
  }

  // The list and the history of the evidence it rests on

  /** The evidence of one lifecycle action: its ports, what was open before it, and what happened since. */
  datatype Origin = Origin(ports: seq<int>, action: E.Action, open: seq<bool>, steps: seq<E.Step>) {
    predicate Real() {
      |open| == |ports| && E.CanRun(E.Begin(ports, action, open), steps)
    }

    function World(): E.World
      requires Real()
    {
      E.Run(E.Begin(ports, action, open), steps)
    }

    /** The port was closed before the action and has been found open since. */
    ghost predicate WentUp(port: int) {
      Real() && exists i: nat :: i < |ports| && ports[i] == port && !open[i] && i in World().roundOpen
    }
  }

  ghost predicate CameFrom(r: Run, o: Origin) {
    o.Real() && r.evidence == o.World().stored
  }

  lemma {:induction false} OwnRuns(runs: seq<Run>, command: string, r: Run)
    requires r in Of(runs, command)
    ensures r in runs && r.command == command
  {
    if r in Of(runs[..|runs| - 1], command) {
      OwnRuns(runs[..|runs| - 1], command, r);
    }
  }

  lemma ShownBySomeRun(c: Command, own: seq<Run>, v: E.Verification) returns (r: Run)
    requires v in Shown(c, own)
    ensures r in own && v in r.evidence
  {
    if FirstActive(own) < |own| {
      r := own[FirstActive(own)];
    } else if !c.external {
      r := own[0];
    } else if FirstAction(own) < |own| {
      r := own[FirstAction(own)];
    } else {
      r := own[|own| - 1];
    }
  }

  /** Every external listener on the list stands for a port of one of its launcher's runs that went up since that run's action. */
  lemma ListedPortsWentUp(runs: seq<Run>, origins: seq<Origin>, commands: seq<Command>, managed: seq<Listener>, ext: seq<Listener>, l: Listener)
    returns (k: nat)
    requires |origins| == |runs| && forall i :: 0 <= i < |runs| ==> CameFrom(runs[i], origins[i])
    requires ExternalsFit(runs, commands, |commands|, managed, ext) && l in ext
    ensures k < |runs| && origins[k].WentUp(l.port)
    ensures exists c :: c in commands && c.external && runs[k].command == c.id
  {
    hide Shown, Of, CanStop, Distinct, Ports, E.CanRun, E.Run;
    var c, v :| c in commands && c.external && CanStop(c, Of(runs, c.id)) && v in Shown(c, Of(runs, c.id)) && Shows(v) && v.port == l.port;
    var r := ShownBySomeRun(c, Of(runs, c.id), v);
    OwnRuns(runs, c.id, r);
    k :| 0 <= k < |runs| && runs[k] == r;
    var o := origins[k];
    assert CameFrom(runs[k], o);
    ListedMeansTransition(o.ports, o.action, o.open, o.steps, v);
  }

  /** After a stop that is over, an external launcher has nothing on the list. */
  lemma NothingListedAfterStop(c: Command, runs: seq<Run>, i: nat, o: Origin, v: E.Verification)
    requires c.external && forall j :: 0 <= j < |runs| ==> !runs[j].Active()
    requires i < |runs| && runs[i].action == E.Stop && forall j :: 0 <= j < i ==> runs[j].action == E.NoAction
    requires CameFrom(runs[i], o) && o.action == E.Stop && v in Shown(c, runs)
    ensures !Shows(v)
  {
    hide E.CanRun, E.Run, Shown, CanStop;
    ActionDecides(c, runs, i);
    var k :| 0 <= k < |runs[i].evidence| && runs[i].evidence[k] == v;
    E.AlwaysTruthful(o.ports, o.action, o.open, o.steps);
    E.StoredClaimsAreTrue(o.ports, o.action, o.open, o.steps, k);
  }
}
