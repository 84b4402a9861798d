/**
 Evidence about the expected ports of an externally managed launcher: the snapshot
 before an action, the verifier after it, the health poll, and what may be concluded.
 Every answer of the operating system about a port is an input.
 */
module PortEvidence {

  datatype PortState = Unset | Closed | Listening

  datatype Evidence = Pending | Preexisting | Verified | WentDown | StillListening | Unavailable

  datatype Action = NoAction | Start | Restart | Stop

  datatype Verification = Verification(
    port: int,
    before: PortState,
    after: PortState,
    current: PortState,
    status: Evidence,
    high: bool
  )

  function Seen(open: bool): PortState {
    if open then Listening else Closed
  }

  // The passes over the list

  function SnapshotOne(port: int, action: Action, open: bool): Verification {
    var v := Verification(port, Seen(open), Unset, Seen(open), Pending, false);
    if action == Stop && !open then v.(after := Closed, status := WentDown, high := true)
    else if action != Stop && open then v.(after := Listening, status := Preexisting)
    else v
  }

  function VerifyOne(v: Verification, action: Action, open: bool): Verification {
    if v.status != Pending then v
    else if action == Stop && !open then v.(after := Closed, current := Closed, status := WentDown, high := true)
    else if action != Stop && open then v.(after := Listening, current := Listening, status := Verified, high := true)
    else v
  }

  function ExpireOne(v: Verification, action: Action): Verification {
    if v.status != Pending then v
    else if action == Stop then v.(after := Listening, current := Listening, status := StillListening)
    else v.(after := Closed, current := Closed, status := Unavailable)
  }

  function HealthOne(v: Verification, open: bool): Verification {
    v.(current := Seen(open))
  }

  method SnapshotExternalPorts(ports: seq<int>, action: Action, open: seq<bool>) returns (out: seq<Verification>)
    requires |open| == |ports|
    ensures |out| == |ports| && forall i :: 0 <= i < |ports| ==> out[i] == SnapshotOne(ports[i], action, open[i])
  {
    out := [];
    for i := 0 to |ports|
      invariant |out| == i && forall j :: 0 <= j < i ==> out[j] == SnapshotOne(ports[j], action, open[j])
    {
      var state := if open[i] then Listening else Closed;
      var v := Verification(ports[i], state, Unset, state, Pending, false);
      if action == Stop && !open[i] {
        v := v.(after := Closed, status := WentDown, high := true);
      } else if action != Stop && open[i] {
        v := v.(after := Listening, status := Preexisting);
      }
      out := out + [v];
    }
  }

  method VerifyPass(vs: array<Verification>, action: Action, open: seq<bool>) returns (pending: bool)
    requires |open| == vs.Length
    modifies vs
    ensures forall i :: 0 <= i < vs.Length ==> vs[i] == VerifyOne(old(vs[i]), action, open[i])
    ensures pending <==> exists i :: 0 <= i < vs.Length && vs[i].status == Pending
  {
    pending := false;
    for i := 0 to vs.Length
      invariant forall j :: 0 <= j < i ==> vs[j] == VerifyOne(old(vs[j]), action, open[j])
      invariant forall j :: i <= j < vs.Length ==> vs[j] == old(vs[j])
      invariant pending <==> exists j :: 0 <= j < i && vs[j].status == Pending
    {
      if vs[i].status != Pending {
        continue;
      }
      if action == Stop && !open[i] {
        vs[i] := vs[i].(after := Closed, current := Closed, status := WentDown, high := true);
      } else if action != Stop && open[i] {
        vs[i] := vs[i].(after := Listening, current := Listening, status := Verified, high := true);
      } else {
        pending := true;
      }
    }
  }

  method ExpirePass(vs: array<Verification>, action: Action)
    modifies vs
    ensures forall i :: 0 <= i < vs.Length ==> vs[i] == ExpireOne(old(vs[i]), action)
  {
    for i := 0 to vs.Length
      invariant forall j :: 0 <= j < i ==> vs[j] == ExpireOne(old(vs[j]), action)
      invariant forall j :: i <= j < vs.Length ==> vs[j] == old(vs[j])
    {
      if vs[i].status != Pending {
        continue;
      }
      if action == Stop {
        vs[i] := vs[i].(after := Listening, current := Listening, status := StillListening);
      } else {
        vs[i] := vs[i].(after := Closed, current := Closed, status := Unavailable);
      }
    }
  }

  method HealthPass(vs: array<Verification>, open: seq<bool>) returns (changed: bool)
    requires |open| == vs.Length
    modifies vs
    ensures forall i :: 0 <= i < vs.Length ==> vs[i] == HealthOne(old(vs[i]), open[i])
    ensures changed <==> exists i :: 0 <= i < vs.Length && vs[i] != old(vs[i])
  {
    changed := false;
    for i := 0 to vs.Length
      invariant forall j :: 0 <= j < i ==> vs[j] == HealthOne(old(vs[j]), open[j])
      invariant forall j :: i <= j < vs.Length ==> vs[j] == old(vs[j])
      invariant changed <==> exists j :: 0 <= j < i && vs[j] != old(vs[j])
    {
      var current := if open[i] then Listening else Closed;
      if vs[i].current != current {
        vs[i] := vs[i].(current := current);
        changed := true;
      }
    }
  }

  // Snapshot, verifier and health poll interleaved

  /**
   before tells the truth at the snapshot. The next four sets hold the ports that a round of
   the verifier and that a poll found open or closed, and looked says whether the verifier has
   made a round. stored is the row's evidence, mine the verifier's own list, and copies the
   lists that polls have read but not yet written back, however stale.
   */
  datatype World = World(
    ports: seq<int>,
    action: Action,
    before: seq<bool>,
    roundOpen: set<nat>,
    roundClosed: set<nat>,
    pollOpen: set<nat>,
    pollClosed: set<nat>,
    stored: seq<Verification>,
    mine: seq<Verification>,
    looked: bool,
    verifying: bool,
    copies: set<seq<Verification>>
  ) {
    /** The port was open before the action, or somebody has found it open since. */
    predicate FoundOpen(i: nat)
      requires i < |before|
    {
      before[i] || i in roundOpen || i in pollOpen
    }

    predicate FoundClosed(i: nat)
      requires i < |before|
    {
      !before[i] || i in roundClosed || i in pollClosed
    }
  }

  datatype Step =
    | Verify(open: seq<bool>)
    | Expire
    | PollRead
    | PollWrite(list: seq<Verification>, open: seq<bool>)

  function Snapshot(ports: seq<int>, action: Action, open: seq<bool>): seq<Verification>
    requires |open| == |ports|
  {
    seq(|ports|, i requires 0 <= i < |ports| => SnapshotOne(ports[i], action, open[i]))
  }

  function Verified1(vs: seq<Verification>, action: Action, open: seq<bool>): seq<Verification>
    requires |open| == |vs|
  {
    seq(|vs|, i requires 0 <= i < |vs| => VerifyOne(vs[i], action, open[i]))
  }

  function Expired(vs: seq<Verification>, action: Action): seq<Verification> {
    seq(|vs|, i requires 0 <= i < |vs| => ExpireOne(vs[i], action))
  }

  function Health(vs: seq<Verification>, open: seq<bool>): seq<Verification>
    requires |open| == |vs|
  {
    seq(|vs|, i requires 0 <= i < |vs| => HealthOne(vs[i], open[i]))
  }

  function Ones(answers: seq<bool>, open: bool): set<nat> {
    set i: nat | i < |answers| && answers[i] == open
  }

  /** The verifier looks only at ports that are still pending. */
  function Probed(vs: seq<Verification>, answers: seq<bool>, open: bool): set<nat>
    requires |answers| == |vs|
  {
    set i: nat | i < |vs| && vs[i].status == Pending && answers[i] == open
  }

  predicate AnyPending(vs: seq<Verification>) {
    exists i :: 0 <= i < |vs| && vs[i].status == Pending
  }

  function Begin(ports: seq<int>, action: Action, open: seq<bool>): World
    requires |open| == |ports|
  {
    var vs := Snapshot(ports, action, open);
    World(ports, action, open, {}, {}, {}, {}, vs, vs, false, ports != [], {})
  }

  predicate Enabled(w: World, s: Step) {
    match s
    case Verify(open) => w.verifying && |open| == |w.mine|
    case Expire => w.verifying && w.looked
    case PollRead => true
    case PollWrite(list, open) => list in w.copies && |open| == |list|
  }

  function Apply(w: World, s: Step): World
    requires Enabled(w, s)
  {
    match s
    case Verify(open) =>
      var mine := Verified1(w.mine, w.action, open);
      var next := w.(mine := mine, looked := true,
                     roundOpen := w.roundOpen + Probed(w.mine, open, true),
                     roundClosed := w.roundClosed + Probed(w.mine, open, false));
      if AnyPending(mine) then next else next.(stored := mine, verifying := false)
    case Expire =>
      var mine := Expired(w.mine, w.action);
      w.(mine := mine, stored := mine, verifying := false)
    case PollRead => w.(copies := w.copies + {w.stored})
    case PollWrite(list, open) =>
      var next := w.(copies := w.copies - {list},
                     pollOpen := w.pollOpen + Ones(open, true), pollClosed := w.pollClosed + Ones(open, false));
      if Health(list, open) == list then next else next.(stored := Health(list, open))
  }

  /** What an entry claims about port i is true. */
  predicate Truthful(w: World, i: nat, v: Verification)
    requires i < |w.before|
  {
    && v.before == Seen(w.before[i])
    && (v.high <==> v.status == Verified || v.status == WentDown)
    && (v.status == Pending ==> (w.action == Stop <==> w.before[i]))
    && (v.status == Preexisting ==> w.action != Stop && w.before[i] && v.after == Listening)
    && (v.status == Verified ==> w.action != Stop && !w.before[i] && i in w.roundOpen && v.after == Listening)
    && (v.status == WentDown ==> w.action == Stop && (!w.before[i] || i in w.roundClosed) && v.after == Closed)
    && (v.status == StillListening ==>
          w.action == Stop && w.before[i] && i in w.roundOpen && i !in w.roundClosed && !w.verifying && v.after == Listening)
    && (v.status == Unavailable ==>
          w.action != Stop && !w.before[i] && i in w.roundClosed && i !in w.roundOpen && !w.verifying && v.after == Closed)
    && (v.current == Listening ==> w.FoundOpen(i))
    && (v.current == Closed ==> w.FoundClosed(i))
    && v.current != Unset
  }

  predicate TruthfulList(w: World, vs: seq<Verification>) {
    && |vs| == |w.before| == |w.ports|
    && forall i: nat :: i < |vs| ==> vs[i].port == w.ports[i] && Truthful(w, i, vs[i])
  }

  /** What the rounds of the verifier have found about a port that it still lists as pending. */
  predicate Undecided(w: World, i: nat) {
    if w.action == Stop then i !in w.roundClosed && (w.looked ==> i in w.roundOpen)
    else i !in w.roundOpen && (w.looked ==> i in w.roundClosed)
  }

  predicate UndecidedList(w: World) {
    forall i: nat :: i < |w.mine| && w.mine[i].status == Pending ==> Undecided(w, i)
  }

  ghost predicate Inv(w: World) {
    && TruthfulList(w, w.stored) && TruthfulList(w, w.mine) && UndecidedList(w)
    && forall list :: list in w.copies ==> TruthfulList(w, list)
  }

  lemma BeginInv(ports: seq<int>, action: Action, open: seq<bool>)
    requires |open| == |ports|
    ensures Inv(Begin(ports, action, open))
  {
  }

  /** Between two moments observations are only added; the verifier adds some only before it ends. */
  predicate Later(w: World, w': World) {
    && w'.ports == w.ports && w'.action == w.action && w'.before == w.before
    && w.roundOpen <= w'.roundOpen && w.roundClosed <= w'.roundClosed
    && w.pollOpen <= w'.pollOpen && w.pollClosed <= w'.pollClosed
    && (!w.verifying ==> !w'.verifying && w'.roundOpen == w.roundOpen && w'.roundClosed == w.roundClosed)
  }

  lemma TruthLasts(w: World, w': World, vs: seq<Verification>)
    requires TruthfulList(w, vs) && Later(w, w')
    ensures TruthfulList(w', vs)
  {
  }

  lemma InvKept(w: World, s: Step)
    requires Enabled(w, s) && Inv(w)
    ensures Inv(Apply(w, s))
  {
    hide TruthfulList, UndecidedList;
    var w' := Apply(w, s);
    TruthLasts(w, w', w.stored);
    TruthLasts(w, w', w.mine);
    forall list | list in w.copies ensures TruthfulList(w', list) {
      TruthLasts(w, w', list);
    }
    match s
    case Verify(open) => VerifyIsTruthful(w, w', open);
    case Expire => ExpireIsTruthful(w, w');
    case PollRead => StillUndecided(w, w');
    case PollWrite(list, open) =>
      HealthIsTruthful(w, w', list, open);
      StillUndecided(w, w');
  }

  lemma StillUndecided(w: World, w': World)
    requires UndecidedList(w) && w'.mine == w.mine && w'.action == w.action && w'.looked == w.looked
    requires w'.roundOpen == w.roundOpen && w'.roundClosed == w.roundClosed
    ensures UndecidedList(w')
  {
  }

  lemma VerifyIsTruthful(w: World, w': World, open: seq<bool>)
    requires TruthfulList(w, w.mine) && UndecidedList(w) && |open| == |w.mine|
    requires Later(w, w') && w'.mine == Verified1(w.mine, w.action, open) && w'.looked
    requires w'.roundOpen == w.roundOpen + Probed(w.mine, open, true) && w'.roundClosed == w.roundClosed + Probed(w.mine, open, false)
    ensures TruthfulList(w', w'.mine) && UndecidedList(w')
  {
    TruthLasts(w, w', w.mine);
    forall i: nat | i < |w.mine|
      ensures Truthful(w', i, w'.mine[i]) && (w'.mine[i].status == Pending ==> Undecided(w', i))
    {
      assert w.mine[i].status == Pending ==> Undecided(w, i) && i in Probed(w.mine, open, open[i]) && i !in Probed(w.mine, open, !open[i]);
      assert Truthful(w, i, w.mine[i]) && Truthful(w', i, w.mine[i]);
    }
  }

  lemma ExpireIsTruthful(w: World, w': World)
    requires TruthfulList(w, w.mine) && UndecidedList(w) && w.looked
    requires Later(w, w') && w'.mine == Expired(w.mine, w.action) && !w'.verifying
    requires w'.roundOpen == w.roundOpen && w'.roundClosed == w.roundClosed
    ensures TruthfulList(w', w'.mine) && UndecidedList(w')
  {
    TruthLasts(w, w', w.mine);
    forall i: nat | i < |w.mine| ensures Truthful(w', i, w'.mine[i]) {
      assert w.mine[i].status == Pending ==> Undecided(w, i);
      assert Truthful(w, i, w.mine[i]);
    }
  }

  lemma HealthIsTruthful(w: World, w': World, list: seq<Verification>, open: seq<bool>)
    requires TruthfulList(w, list) && |open| == |list| && Later(w, w')
    requires w'.pollOpen == w.pollOpen + Ones(open, true) && w'.pollClosed == w.pollClosed + Ones(open, false)
    ensures TruthfulList(w', Health(list, open))
  {
    TruthLasts(w, w', list);
    forall i: nat | i < |list| ensures Truthful(w', i, Health(list, open)[i]) {
      assert i in Ones(open, open[i]) && Truthful(w', i, list[i]);
    }
  }

  predicate CanRun(w: World, steps: seq<Step>)
    decreases |steps|, 0
  {
    steps != [] ==>
      CanRun(w, steps[..|steps| - 1]) && Enabled(Run(w, steps[..|steps| - 1]), steps[|steps| - 1])
  }

  function Run(w: World, steps: seq<Step>): World
    requires CanRun(w, steps)
    decreases |steps|, 1
  {
    if steps == [] then w else Apply(Run(w, steps[..|steps| - 1]), steps[|steps| - 1])
  }

  lemma {:induction false} AlwaysTruthful(ports: seq<int>, action: Action, open: seq<bool>, steps: seq<Step>)
    requires |open| == |ports| && CanRun(Begin(ports, action, open), steps)
    ensures var w := Run(Begin(ports, action, open), steps); Inv(w) && w.before == open && w.action == action && w.ports == ports
  {
    hide Inv;
    if steps == [] {
      BeginInv(ports, action, open);
    } else {
      AlwaysTruthful(ports, action, open, steps[..|steps| - 1]);
      InvKept(Run(Begin(ports, action, open), steps[..|steps| - 1]), steps[|steps| - 1]);
    }
  }

  // What is concluded

  datatype State = UnknownState | IsRunning | IsStopped | Checking

  datatype Confidence = NoConfidence | FromAction | Observed | High

  datatype Observation = Observation(state: State, confidence: Confidence)

  /** active and completed are read off the Run's status. */
  datatype External = External(active: bool, completed: bool, action: Action, evidence: seq<Verification>)

  datatype Impression = Up | Down | Open

  function Impress(v: Verification): Impression {
    match v.current
    case Listening => Up
    case Closed => Down
    case Unset =>
      match v.status
      case Verified => Up
      case Preexisting => Up
      case StillListening => Up
      case WentDown => Down
      case Unavailable => Down
      case Pending => Open
  }

  function Count(vs: seq<Verification>, what: Impression): nat {
    if vs == [] then 0
    else Count(vs[..|vs| - 1], what) + if Impress(vs[|vs| - 1]) == what then 1 else 0
  }

  function Conclude(e: External): Observation {
    var n := |e.evidence|;
    if e.active then Observation(Checking, FromAction)
    else if e.action == NoAction then Observation(UnknownState, NoConfidence)
    else if Count(e.evidence, Open) > 0 then Observation(Checking, Observed)
    else if e.action == Stop then
      if Count(e.evidence, Up) > 0 then Observation(IsRunning, Observed)
      else if e.completed && (n == 0 || Count(e.evidence, Down) == n) then
        Observation(IsStopped, if n == 0 then FromAction else High)
      else Observation(UnknownState, NoConfidence)
    else if n == 0 then Observation(UnknownState, FromAction)
    else if Count(e.evidence, Up) == n then
      Observation(IsRunning, if forall v :: v in e.evidence ==> v.status == Verified then High else Observed)
    else if Count(e.evidence, Down) == n then Observation(IsStopped, High)
    else Observation(UnknownState, Observed)
  }

  method ObserveExternalRun(e: External) returns (o: Observation)
    ensures o == Conclude(e)
  {
    if e.active {
      return Observation(Checking, FromAction);
    }
    if e.action != Start && e.action != Restart && e.action != Stop {
      return Observation(UnknownState, NoConfidence);
    }
    var listening, closed, pending := CountEvidence(e.evidence);
    if pending > 0 {
      return Observation(Checking, Observed);
    }
    if e.action == Stop {
      if listening > 0 {
        return Observation(IsRunning, Observed);
      }
      if e.completed && (|e.evidence| == 0 || closed == |e.evidence|) {
        return Observation(IsStopped, if |e.evidence| == 0 then FromAction else High);
      }
      return Observation(UnknownState, NoConfidence);
    }
    if |e.evidence| == 0 {
      return Observation(UnknownState, FromAction);
    }
    if listening == |e.evidence| {
      var confidence := High;
      for i := 0 to |e.evidence|
        invariant confidence == High
        invariant forall j :: 0 <= j < i ==> e.evidence[j].status == Verified
      {
        if e.evidence[i].status != Verified {
          confidence := Observed;
          break;
        }
      }
      return Observation(IsRunning, confidence);
    }
    if closed == |e.evidence| {
      return Observation(IsStopped, High);
    }
    return Observation(UnknownState, Observed);
  }

  method CountEvidence(vs: seq<Verification>) returns (listening: nat, closed: nat, pending: nat)
    ensures listening == Count(vs, Up) && closed == Count(vs, Down) && pending == Count(vs, Open)
  {
    listening, closed, pending := 0, 0, 0;
    for i := 0 to |vs|
      invariant listening == Count(vs[..i], Up) && closed == Count(vs[..i], Down) && pending == Count(vs[..i], Open)
    {
      assert vs[..i + 1][..i] == vs[..i];
      var v := vs[i];
      if v.current == Listening {
        listening := listening + 1;
        continue;
      }
      if v.current == Closed {
        closed := closed + 1;
        continue;
      }
      match v.status
      case Verified => listening := listening + 1;
      case Preexisting => listening := listening + 1;
      case StillListening => listening := listening + 1;
      case WentDown => closed := closed + 1;
      case Unavailable => closed := closed + 1;
      case Pending => pending := pending + 1;
    }
    assert vs[..|vs|] == vs;
  }

  lemma {:induction false} FullCount(vs: seq<Verification>, what: Impression)
    ensures Count(vs, what) <= |vs|
    ensures Count(vs, what) == |vs| <==> forall v :: v in vs ==> Impress(v) == what
  {
    hide Impress;
    if vs != [] {
      FullCount(vs[..|vs| - 1], what);
      assert vs == vs[..|vs| - 1] + [vs[|vs| - 1]];
    }
  }

  ghost predicate Any(vs: seq<Verification>, what: Impression) {
    exists i :: 0 <= i < |vs| && Impress(vs[i]) == what
  }

  ghost predicate All(vs: seq<Verification>, what: Impression) {
    forall i :: 0 <= i < |vs| ==> Impress(vs[i]) == what
  }

  /** The conclusion, said of the entries and without counting. */
  lemma ConclusionMeans(e: External)
    ensures var o := Conclude(e); var decided := !e.active && e.action != NoAction && !Any(e.evidence, Open);
            && (o.state == Checking <==> e.active || (e.action != NoAction && Any(e.evidence, Open)))
            && (o.state == IsRunning <==>
                  decided && if e.action == Stop then Any(e.evidence, Up) else e.evidence != [] && All(e.evidence, Up))
            && (o.state == IsStopped <==>
                  decided && All(e.evidence, Down) && if e.action == Stop then e.completed else e.evidence != [])
            && (o.confidence == High <==>
                  || (o.state == IsStopped && e.evidence != [])
                  || (o.state == IsRunning && e.action != Stop && forall v :: v in e.evidence ==> v.status == Verified))
  {
    hide Impress, Count;
    FullCount(e.evidence, Up);
    FullCount(e.evidence, Down);
    SomeCount(e.evidence, Open);
    SomeCount(e.evidence, Up);
    assert forall v :: v in e.evidence <==> exists i :: 0 <= i < |e.evidence| && e.evidence[i] == v;
    if !Any(e.evidence, Open) && !Any(e.evidence, Up) {
      forall v | v in e.evidence ensures Impress(v) == Down {
        ThreeImpressions(v);
      }
    }
  }

  lemma ThreeImpressions(v: Verification)
    ensures Impress(v) == Up || Impress(v) == Down || Impress(v) == Open
  {
  }

  /** Running with high confidence means a closed-to-listening transition of every expected port, which the verifier saw. */
  lemma HighMeansTransition(ports: seq<int>, action: Action, open: seq<bool>, steps: seq<Step>, active: bool, completed: bool, i: nat)
    requires |open| == |ports| && CanRun(Begin(ports, action, open), steps) && i < |ports|
    requires var w := Run(Begin(ports, action, open), steps);
             Conclude(External(active, completed, action, w.stored)) == Observation(IsRunning, High)
    ensures action == Start || action == Restart
    ensures var w := Run(Begin(ports, action, open), steps);
            |w.stored| == |ports| && !open[i] && i in w.roundOpen && Impress(w.stored[i]) == Up
  {
    hide CanRun, Run, Count;
    AlwaysTruthful(ports, action, open, steps);
    var w := Run(Begin(ports, action, open), steps);
    FullCount(w.stored, Up);
    assert w.stored[i] in w.stored;
  }

  /** Stopped with high confidence means that every expected port was found closed, and after a stop that the stop was completed. */
  lemma HighMeansDown(ports: seq<int>, action: Action, open: seq<bool>, steps: seq<Step>, active: bool, completed: bool, i: nat)
    requires |open| == |ports| && CanRun(Begin(ports, action, open), steps) && i < |ports|
    requires var w := Run(Begin(ports, action, open), steps);
             Conclude(External(active, completed, action, w.stored)) == Observation(IsStopped, High)
    ensures action == Stop ==> completed
    ensures var w := Run(Begin(ports, action, open), steps);
            |w.stored| == |ports| == |w.before| && w.FoundClosed(i) && w.stored[i].current == Closed
  {
    hide CanRun, Run, Count;
    AlwaysTruthful(ports, action, open, steps);
    var w := Run(Begin(ports, action, open), steps);
    FullCount(w.stored, Down);
    assert w.stored[i] in w.stored && Truthful(w, i, w.stored[i]);
  }

  lemma {:induction false} SomeCount(vs: seq<Verification>, what: Impression)
    ensures Count(vs, what) > 0 <==> exists v :: v in vs && Impress(v) == what
  {
    hide Impress;
    if vs != [] {
      SomeCount(vs[..|vs| - 1], what);
      assert vs == vs[..|vs| - 1] + [vs[|vs| - 1]];
    }
  }

  /** Running after a stop means that some expected port was found open. */
  lemma RunningAfterStop(ports: seq<int>, open: seq<bool>, steps: seq<Step>, active: bool, completed: bool) returns (i: nat)
    requires |open| == |ports| && CanRun(Begin(ports, Stop, open), steps)
    requires var w := Run(Begin(ports, Stop, open), steps);
             Conclude(External(active, completed, Stop, w.stored)).state == IsRunning
    ensures var w := Run(Begin(ports, Stop, open), steps);
            i < |ports| == |w.before| == |w.stored| && w.FoundOpen(i) && w.stored[i].current == Listening
  {
    hide CanRun, Run, Count;
    AlwaysTruthful(ports, Stop, open, steps);
    var w := Run(Begin(ports, Stop, open), steps);
    SomeCount(w.stored, Up);
    var v :| v in w.stored && Impress(v) == Up;
    i :| 0 <= i < |w.stored| && w.stored[i] == v;
    assert Truthful(w, i, w.stored[i]);
  }

  /** Each stored claim is backed by what was observed, at any time. */
  lemma StoredClaimsAreTrue(ports: seq<int>, action: Action, open: seq<bool>, steps: seq<Step>, i: nat)
    requires |open| == |ports| && CanRun(Begin(ports, action, open), steps) && i < |ports|
    ensures var w := Run(Begin(ports, action, open), steps);
            && |w.stored| == |ports| == |w.before| && w.before == open && w.stored[i].port == ports[i]
            && (w.stored[i].status == Verified ==> action != Stop && !open[i] && i in w.roundOpen)
            && (w.stored[i].status == Preexisting ==> action != Stop && open[i])
            && (w.stored[i].status == WentDown ==> action == Stop && (!open[i] || i in w.roundClosed))
            && (w.stored[i].status == StillListening ==> action == Stop && open[i] && i in w.roundOpen && i !in w.roundClosed)
            && (w.stored[i].status == Unavailable ==> action != Stop && !open[i] && i in w.roundClosed && i !in w.roundOpen)
            && (w.stored[i].current == Listening ==> w.FoundOpen(i))
            && (w.stored[i].current == Closed ==> w.FoundClosed(i))
  {
    hide CanRun, Run;
    AlwaysTruthful(ports, action, open, steps);
    assert Truthful(Run(Begin(ports, action, open), steps), i, Run(Begin(ports, action, open), steps).stored[i]);
  }
}
