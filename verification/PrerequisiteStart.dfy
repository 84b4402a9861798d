/**
 Starting a stack together with the prerequisite stacks that are not up yet.
 Readiness is fixed while one request is handled: `up` says of each command
 whether its launcher counts as up, and a command that is not in `up` is one the
 store does not know.
 */
module PrerequisiteStart {
  import opened Digraph
  import opened Results
  import P = Prerequisites

  datatype Stack = Stack(id: string, name: string, members: seq<string>, dependsOn: seq<P.Edge>)

  datatype Needed = Needed(id: string, name: string, upCount: nat, totalCount: nat, waitTimeoutMs: int)

  datatype Error = UnknownStack(id: string) | UnknownCommand(id: string)

  datatype Count = Counted(ready: bool, up: nat, total: nat) | Missing(command: string)

  type Stacks = map<string, Stack>

  predicate Keyed(byId: Stacks) {
    forall id :: id in byId ==> byId[id].id == id
  }

  function Edges(byId: Stacks): P.Table {
    map id | id in byId :: byId[id].dependsOn
  }

  function Graph(byId: Stacks): Digraph.Edges {
    P.GraphOf(Edges(byId))
  }

  /** g is the prerequisite graph of the stored stacks, read one stack at a time. */
  predicate Linked(g: Digraph.Edges, byId: Stacks) {
    forall id :: id in byId ==> Next(g, id) == P.Targets(P.Normalized(byId[id].dependsOn))
  }

  // Readiness of one stack

  function UpMembers(members: seq<string>, up: map<string, bool>): nat {
    if members == [] then 0
    else
      var last := members[|members| - 1];
      UpMembers(members[..|members| - 1], up) + if last in up && up[last] then 1 else 0
  }

  predicate UpEnough(s: Stack, up: map<string, bool>) {
    forall m :: m in s.members ==> m in up && up[m]
  }

  predicate MembersKnown(s: Stack, up: map<string, bool>) {
    forall m :: m in s.members ==> m in up
  }

  lemma {:induction false} AllUpWhenCountIsFull(members: seq<string>, up: map<string, bool>)
    ensures UpMembers(members, up) <= |members|
    ensures UpMembers(members, up) == |members| <==> forall m :: m in members ==> m in up && up[m]
  {
    if members != [] {
      var before, last := members[..|members| - 1], members[|members| - 1];
      AllUpWhenCountIsFull(before, up);
      assert members == before + [last];
    }
  }

  function UpAt(members: seq<string>, up: map<string, bool>, n: nat): set<nat>
    requires n <= |members|
  {
    set i: nat | i < n && members[i] in up && up[members[i]]
  }

  /** The count is the number of positions whose member is up. */
  lemma {:induction false} UpMembersCounts(members: seq<string>, up: map<string, bool>, n: nat)
    requires n <= |members|
    ensures UpMembers(members[..n], up) == |UpAt(members, up, n)|
  {
    if n > 0 {
      UpMembersCounts(members, up, n - 1);
      assert members[..n][..n - 1] == members[..n - 1];
      assert UpAt(members, up, n) == UpAt(members, up, n - 1) + if members[n - 1] in up && up[members[n - 1]] then {n - 1} else {};
    } else {
      assert UpAt(members, up, 0) == {};
    }
  }

  method StackUpEnough(s: Stack, up: map<string, bool>) returns (c: Count)
    ensures c.Missing? <==> !MembersKnown(s, up)
    ensures c.Counted? ==> c == Counted(UpEnough(s, up), UpMembers(s.members, up), |s.members|)
  {
    var n := 0;
    for i := 0 to |s.members|
      invariant forall j :: 0 <= j < i ==> s.members[j] in up
      invariant n == UpMembers(s.members[..i], up)
    {
      var m := s.members[i];
      if m !in up {
        return Missing(m);
      }
      assert s.members[..i + 1][..i] == s.members[..i];
      if up[m] {
        n := n + 1;
      }
    }
    assert s.members[..|s.members|] == s.members;
    AllUpWhenCountIsFull(s.members, up);
    return Counted(n == |s.members|, n, |s.members|);
  }

  // The walk

  function Ids(out: seq<Needed>): (ids: seq<string>)
    ensures |ids| == |out|
    ensures forall i :: 0 <= i < |ids| ==> ids[i] == out[i].id
  {
    seq(|out|, i requires 0 <= i < |out| => out[i].id)
  }

  /** A stored stack whose readiness can be determined. */
  predicate Fine(byId: Stacks, up: map<string, bool>, id: string) {
    id in byId && MembersKnown(byId[id], up)
  }

  predicate Unready(byId: Stacks, up: map<string, bool>, id: string) {
    id in byId && !UpEnough(byId[id], up)
  }

  /** Everything below v was looked at, and what is not up is already listed. */
  ghost predicate Covered(g: Digraph.Edges, byId: Stacks, up: map<string, bool>, v: string, listed: seq<string>) {
    forall u :: Leads(g, v, u) ==>
      Fine(byId, up, u) && (Unready(byId, up, u) ==> u in listed)
  }

  /** The numbers reported for a stack are its own, and the timeout is one some edge asks for. */
  ghost predicate Reported(byId: Stacks, up: map<string, bool>, n: Needed) {
    && Fine(byId, up, n.id)
    && n.name == byId[n.id].name
    && n.upCount == UpMembers(byId[n.id].members, up) < n.totalCount == |byId[n.id].members|
    && exists s :: s in byId && P.Edge(n.id, n.waitTimeoutMs) in P.Normalized(byId[s].dependsOn)
  }

  /** What the list of needed stacks must satisfy at any time during the walk. */
  ghost predicate GoodList(g: Digraph.Edges, byId: Stacks, up: map<string, bool>, start: string, out: seq<Needed>) {
    && Distinct(Ids(out))
    && (forall n :: n in out ==>
          && Reported(byId, up, n)
          && Unready(byId, up, n.id)
          && Leads(g, start, n.id))
    && (forall i :: 0 <= i < |out| ==> Covered(g, byId, up, out[i].id, Ids(out)[..i]))
  }

  lemma EdgeOf(g: Digraph.Edges, byId: Stacks, id: string, edges: seq<P.Edge>, i: nat)
    requires Linked(g, byId) && id in byId && edges == P.Normalized(byId[id].dependsOn) && i < |edges|
    ensures edges[i].stackId in Next(g, id)
  {
    assert P.Targets(edges)[i] == edges[i].stackId;
  }

  /** A direct prerequisite that the walk has dealt with. */
  ghost predicate Settled(g: Digraph.Edges, byId: Stacks, up: map<string, bool>, id: string, listed: seq<string>) {
    && Covered(g, byId, up, id, listed)
    && Fine(byId, up, id)
    && (Unready(byId, up, id) ==> id in listed)
  }

  lemma SettledStays(g: Digraph.Edges, byId: Stacks, up: map<string, bool>, id: string, listed: seq<string>, longer: seq<string>)
    requires Settled(g, byId, up, id, listed) && listed <= longer
    ensures Settled(g, byId, up, id, longer)
  {
  }

  ghost predicate AllSettled(g: Digraph.Edges, byId: Stacks, up: map<string, bool>, edges: seq<P.Edge>, listed: seq<string>) {
    edges != [] ==>
      && AllSettled(g, byId, up, edges[..|edges| - 1], listed)
      && Settled(g, byId, up, edges[|edges| - 1].stackId, listed)
  }

  lemma {:induction false} AllSettledStays(g: Digraph.Edges, byId: Stacks, up: map<string, bool>, edges: seq<P.Edge>,
                                           listed: seq<string>, longer: seq<string>)
    requires AllSettled(g, byId, up, edges, listed) && listed <= longer
    ensures AllSettled(g, byId, up, edges, longer)
  {
    if edges != [] {
      AllSettledStays(g, byId, up, edges[..|edges| - 1], listed, longer);
      SettledStays(g, byId, up, edges[|edges| - 1].stackId, listed, longer);
    }
  }

  lemma {:induction false} AllSettledAt(g: Digraph.Edges, byId: Stacks, up: map<string, bool>, edges: seq<P.Edge>,
                                        listed: seq<string>, j: nat)
    requires AllSettled(g, byId, up, edges, listed) && j < |edges|
    ensures Settled(g, byId, up, edges[j].stackId, listed)
  {
    if j < |edges| - 1 {
      AllSettledAt(g, byId, up, edges[..|edges| - 1], listed, j);
    }
  }

  /** A stack is covered once each of its direct prerequisites is settled. */
  lemma CoveredFromEdges(g: Digraph.Edges, byId: Stacks, up: map<string, bool>, id: string, listed: seq<string>)
    requires forall d :: d in Next(g, id) ==> Settled(g, byId, up, d, listed)
    ensures Covered(g, byId, up, id, listed)
  {
    forall u | Leads(g, id, u)
      ensures Fine(byId, up, u) && (Unready(byId, up, u) ==> u in listed)
    {
      var d := LeadsFirstStep(g, id, u);
      ReachesCases(g, d, u);
    }
  }

  lemma AllEdgesSettled(g: Digraph.Edges, byId: Stacks, up: map<string, bool>, id: string, edges: seq<P.Edge>, listed: seq<string>)
    requires Linked(g, byId) && id in byId && edges == P.Normalized(byId[id].dependsOn)
    requires AllSettled(g, byId, up, edges, listed)
    ensures Covered(g, byId, up, id, listed)
  {
    forall d | d in Next(g, id) ensures Settled(g, byId, up, d, listed) {
      var j :| 0 <= j < |edges| && P.Targets(edges)[j] == d;
      AllSettledAt(g, byId, up, edges, listed, j);
    }
    CoveredFromEdges(g, byId, up, id, listed);
  }

  lemma ListGrows(g: Digraph.Edges, byId: Stacks, up: map<string, bool>, start: string, out: seq<Needed>, n: Needed)
    requires GoodList(g, byId, up, start, out)
    requires n.id !in Ids(out) && Covered(g, byId, up, n.id, Ids(out))
    requires Reported(byId, up, n) && Unready(byId, up, n.id) && Leads(g, start, n.id)
    ensures GoodList(g, byId, up, start, out + [n])
    ensures Ids(out + [n]) == Ids(out) + [n.id]
  {
    hide P.Normalized, UpMembers, Reaches, Leads, Reported, Unready;
    var longer := out + [n];
    assert Ids(longer) == Ids(out) + [n.id];
    DistinctGrows(Ids(out), n.id);
    forall i | 0 <= i < |longer| ensures Covered(g, byId, up, longer[i].id, Ids(longer)[..i]) {
      assert Ids(longer)[..i] == Ids(out)[..i];
      assert Ids(out)[..|out|] == Ids(out);
    }
  }

  lemma ListedIsSettled(g: Digraph.Edges, byId: Stacks, up: map<string, bool>, start: string, out: seq<Needed>, id: string)
    requires GoodList(g, byId, up, start, out) && id in Ids(out) && Covered(g, byId, up, id, Ids(out))
    ensures Settled(g, byId, up, id, Ids(out))
  {
    hide P.Normalized, UpMembers, Leads, Covered, Distinct;
    var i :| 0 <= i < |out| && Ids(out)[i] == id;
    assert out[i] in out;
  }

  lemma ReadyIsSettled(g: Digraph.Edges, byId: Stacks, up: map<string, bool>, id: string, listed: seq<string>)
    requires Covered(g, byId, up, id, listed) && Fine(byId, up, id) && !Unready(byId, up, id)
    ensures Settled(g, byId, up, id, listed)
  {
  }

  lemma CoveredStays(g: Digraph.Edges, byId: Stacks, up: map<string, bool>, id: string, listed: seq<string>, longer: seq<string>)
    requires Covered(g, byId, up, id, listed) && listed <= longer
    ensures Covered(g, byId, up, id, longer)
  {
  }

  class Walk {
    ghost const g: Digraph.Edges
    const byId: Stacks
    const up: map<string, bool>
    ghost const start: string
    var seen: set<string>
    var out: seq<Needed>

    ghost predicate Valid()
      reads this
    {
      && GoodList(g, byId, up, start, out)
      && forall id :: id in seen <==> id in Ids(out)
    }

    ghost predicate Sound()
    {
      Keyed(byId) && Linked(g, byId) && Acyclic(g)
    }

    constructor (ghost g: Digraph.Edges, byId: Stacks, up: map<string, bool>, ghost start: string)
      ensures this.g == g && this.byId == byId && this.up == up && this.start == start
      ensures Valid() && out == []
    {
      this.g, this.byId, this.up, this.start := g, byId, up, start;
      seen, out := {}, [];
    }

    /** One prerequisite whose own prerequisites have all been walked. */
    method Consider(prereq: Stack, edge: P.Edge, ghost from: string) returns (error: Option<Error>)
      requires Sound() && Valid()
      requires prereq.id in byId && prereq == byId[prereq.id] && edge.stackId == prereq.id
      requires from in byId && edge in P.Normalized(byId[from].dependsOn)
      requires Leads(g, start, prereq.id)
      requires Covered(g, byId, up, prereq.id, Ids(out))
      modifies this
      ensures Valid() && Ids(old(out)) <= Ids(out)
      ensures error.None? ==> Settled(g, byId, up, prereq.id, Ids(out))
      ensures error.Some? ==> !Fine(byId, up, prereq.id)
    {
      hide P.Normalized, P.Targets, UpMembers, Reaches, Leads, GoodList, Settled, Covered;
      if prereq.id in seen {
        ListedIsSettled(g, byId, up, start, out, prereq.id);
        return None;
      }
      var c := StackUpEnough(prereq, up);
      if c.Missing? {
        return Some(UnknownCommand(c.command));
      }
      if !c.ready {
        var n := Needed(prereq.id, prereq.name, c.up, c.total, edge.waitTimeoutMs);
        AllUpWhenCountIsFull(prereq.members, up);
        assert edge == P.Edge(n.id, n.waitTimeoutMs);
        ListGrows(g, byId, up, start, out, n);
        CoveredStays(g, byId, up, n.id, Ids(out), Ids(out + [n]));
        seen := seen + {prereq.id};
        out := out + [n];
        ListedIsSettled(g, byId, up, start, out, prereq.id);
      } else {
        ReadyIsSettled(g, byId, up, prereq.id, Ids(out));
      }
      return None;
    }

    /** One edge out of current: first everything below the prerequisite, then the prerequisite itself. */
    method Follow(current: Stack, edge: P.Edge) returns (error: Option<Error>)
      requires Sound() && Valid()
      requires current.id in byId && current == byId[current.id]
      requires Reaches(g, start, current.id)
      requires edge in P.Normalized(current.dependsOn) && edge.stackId in Next(g, current.id)
      modifies this
      ensures Valid() && Ids(old(out)) <= Ids(out)
      ensures error.None? ==> Settled(g, byId, up, edge.stackId, Ids(out))
      ensures error.Some? ==> exists u :: Leads(g, current.id, u) && !Fine(byId, up, u)
      decreases Reach(g, current.id), 0
    {
      SelfReach(g, edge.stackId);
      StepThenReach(g, current.id, edge.stackId, edge.stackId);
      if edge.stackId !in byId {
        return Some(UnknownStack(edge.stackId));
      }
      var prereq := byId[edge.stackId];
      ReachThenStep(g, start, current.id, prereq.id);
      LeadsReaches(g, start, prereq.id);
      ReachShrinks(g, current.id, prereq.id);
      error := From(prereq);
      if error.Some? {
        ghost var u :| Leads(g, prereq.id, u) && !Fine(byId, up, u);
        LeadsReaches(g, prereq.id, u);
        StepThenReach(g, current.id, prereq.id, u);
        return;
      }
      error := Consider(prereq, edge, current.id);
    }

    /** Nothing stops the recursion but the rank that an acyclic graph gives to its stacks. */
    method From(current: Stack) returns (error: Option<Error>)
      requires Sound() && Valid()
      requires current.id in byId && current == byId[current.id]
      requires Reaches(g, start, current.id)
      modifies this
      ensures Valid() && Ids(old(out)) <= Ids(out)
      ensures error.None? ==> Covered(g, byId, up, current.id, Ids(out))
      ensures error.Some? ==> exists u :: Leads(g, current.id, u) && !Fine(byId, up, u)
      decreases Reach(g, current.id), 1
    {
      hide P.Normalized, Covered, Settled, GoodList;
      var edges := P.NormalizeStackPrerequisites(current.dependsOn);
      for i := 0 to |edges|
        invariant Valid() && Ids(old(out)) <= Ids(out)
        invariant AllSettled(g, byId, up, edges[..i], Ids(out))
      {
        EdgeOf(g, byId, current.id, edges, i);
        ghost var before := Ids(out);
        error := Follow(current, edges[i]);
        if error.Some? {
          return;
        }
        AllSettledStays(g, byId, up, edges[..i], before, Ids(out));
        assert edges[..i + 1][..i] == edges[..i];
      }
      assert edges[..|edges|] == edges;
      AllEdgesSettled(g, byId, up, current.id, edges, Ids(out));
      return None;
    }
  }

  /** Every stack below start is stored, and so are the commands of its members. */
  ghost predicate Resolvable(byId: Stacks, up: map<string, bool>, start: string) {
    forall u :: Leads(Graph(byId), start, u) ==> Fine(byId, up, u)
  }

  method UnreadyPrerequisites(stacks: Stacks, start: string, up: map<string, bool>)
    returns (r: Result<seq<Needed>, Error>)
    requires Keyed(stacks) && Acyclic(Graph(stacks)) && start in stacks
    ensures r.Ok? <==> Resolvable(stacks, up, start)
    ensures r.Ok? ==> NeededList(stacks, up, start, r.value)
  {
    var walk := new Walk(Graph(stacks), stacks, up, start);
    SelfReach(Graph(stacks), start);
    var error := walk.From(stacks[start]);
    if error.Some? {
      return Err(error.value);
    }
    assert Covered(Graph(stacks), stacks, up, start, Ids(walk.out));
    return Ok(walk.out);
  }

  /** Exactly the stacks below start that are not up, once each, each after its own. */
  ghost predicate NeededList(byId: Stacks, up: map<string, bool>, start: string, out: seq<Needed>) {
    && GoodList(Graph(byId), byId, up, start, out)
    && forall u :: Leads(Graph(byId), start, u) && Unready(byId, up, u) ==> u in Ids(out)
  }

  // Starting

  datatype Event = Launch(id: string) | Ready(id: string) | Own

  datatype Outcome =
    | Started
    | NoSuchStack
    | LookupFailed(error: Error)
    | NeedsConfirmation
    | PrerequisiteFailed(id: string)
    | NotReadyInTime(id: string)
    | OwnMembersFailed

  /** The full course of a start: each needed stack launched and awaited in turn, then the own members. */
  function Course(needed: seq<Needed>): seq<Event> {
    if needed == [] then []
    else
      var last := needed[|needed| - 1].id;
      Course(needed[..|needed| - 1]) + [Launch(last), Ready(last)]
  }

  lemma {:induction false} CourseAt(needed: seq<Needed>, i: nat)
    requires i < |needed|
    ensures |Course(needed)| == 2 * |needed|
    ensures Course(needed)[2 * i] == Launch(needed[i].id) && Course(needed)[2 * i + 1] == Ready(needed[i].id)
  {
    var before := needed[..|needed| - 1];
    if i < |before| {
      CourseAt(before, i);
    } else if i > 0 {
      CourseAt(before, i - 1);
    }
  }

  /** A stack is reported ready only if it was launched and became ready. */
  predicate Honest(log: seq<Event>, launches: string -> bool, waits: string -> bool) {
    log != [] ==>
      && Honest(log[..|log| - 1], launches, waits)
      && match log[|log| - 1]
         case Ready(id) => launches(id) && waits(id)
         case _ => true
  }

  /** The last launch is the one that failed, or the one whose wait failed. */
  predicate EndsWith(log: seq<Event>, failure: Outcome, launches: string -> bool, waits: string -> bool) {
    && log != [] && log[|log| - 1].Launch?
    && var id := log[|log| - 1].id;
       || (failure == PrerequisiteFailed(id) && !launches(id))
       || (failure == NotReadyInTime(id) && launches(id) && !waits(id))
  }

  predicate AllComeUp(needed: seq<Needed>, launches: string -> bool, waits: string -> bool) {
    forall n :: n in needed ==> launches(n.id) && waits(n.id)
  }

  /** Launches and awaits the needed stacks one after the other, up to the first failure. */
  method BringUp(needed: seq<Needed>, launches: string -> bool, waits: string -> bool)
    returns (failure: Option<Outcome>, log: seq<Event>)
    ensures failure.None? <==> AllComeUp(needed, launches, waits)
    ensures failure.None? ==> log == Course(needed)
    ensures failure.Some? ==> log < Course(needed) && EndsWith(log, failure.value, launches, waits)
    ensures Honest(log, launches, waits)
  {
    hide Course, Honest;
    log := [];
    NothingYet(launches, waits);
    for i := 0 to |needed|
      invariant log == Course(needed[..i])
      invariant Honest(log, launches, waits)
      invariant forall n :: n in needed[..i] ==> launches(n.id) && waits(n.id)
    {
      assert needed[..i + 1] == needed[..i] + [needed[i]] && needed[i] in needed;
      var prereq := needed[i].id;
      CoursePrefix(needed, i);
      HonestGrows(log, Launch(prereq), launches, waits);
      log := log + [Launch(prereq)];
      if !launches(prereq) {
        return Some(PrerequisiteFailed(prereq)), log;
      }
      if !waits(prereq) {
        return Some(NotReadyInTime(prereq)), log;
      }
      HonestGrows(log, Ready(prereq), launches, waits);
      log := log + [Ready(prereq)];
    }
    assert needed[..|needed|] == needed;
    return None, log;
  }

  lemma NothingYet(launches: string -> bool, waits: string -> bool)
    ensures Course([]) == [] && Honest([], launches, waits)
  {
  }

  lemma HonestGrows(log: seq<Event>, e: Event, launches: string -> bool, waits: string -> bool)
    requires Honest(log, launches, waits) && (e.Ready? ==> launches(e.id) && waits(e.id))
    ensures Honest(log + [e], launches, waits)
  {
    assert (log + [e])[..|log|] == log;
  }

  /** The start gets as far as launching something. */
  ghost predicate Proceeds(stacks: Stacks, up: map<string, bool>, id: string, needed: seq<Needed>, confirmed: bool) {
    id in stacks && Resolvable(stacks, up, id) && (needed == [] || confirmed)
  }

  lemma EndingsDiffer(log: seq<Event>, failure: Outcome, launches: string -> bool, waits: string -> bool)
    requires EndsWith(log, failure, launches, waits)
    ensures failure.PrerequisiteFailed? || failure.NotReadyInTime?
  {
  }

  /** launches and waits say how each launch and each wait for readiness turns out. */
  method StartStack(stacks: Stacks, id: string, up: map<string, bool>, confirmed: bool,
                    launches: string -> bool, waits: string -> bool)
    returns (r: Outcome, needed: seq<Needed>, log: seq<Event>)
    requires Keyed(stacks) && Acyclic(Graph(stacks))
    ensures r.NoSuchStack? <==> id !in stacks
    ensures r.LookupFailed? <==> id in stacks && !Resolvable(stacks, up, id)
    ensures !r.NoSuchStack? && !r.LookupFailed? ==> NeededList(stacks, up, id, needed)
    ensures r.NeedsConfirmation? <==> !r.NoSuchStack? && !r.LookupFailed? && needed != [] && !confirmed
    ensures r.NoSuchStack? || r.LookupFailed? || r.NeedsConfirmation? ==> log == []
    ensures r.PrerequisiteFailed? || r.NotReadyInTime? <==>
            Proceeds(stacks, up, id, needed, confirmed) && !AllComeUp(needed, launches, waits)
    ensures r.PrerequisiteFailed? || r.NotReadyInTime? ==> log < Course(needed) && EndsWith(log, r, launches, waits)
    ensures r.Started? <==>
            Proceeds(stacks, up, id, needed, confirmed) && AllComeUp(needed, launches, waits) && launches(id)
    ensures r.OwnMembersFailed? <==>
            Proceeds(stacks, up, id, needed, confirmed) && AllComeUp(needed, launches, waits) && !launches(id)
    ensures r.Started? || r.OwnMembersFailed? ==> log == Course(needed) + [Own]
    ensures log <= Course(needed) + [Own] && Honest(log, launches, waits)
  {
    hide Graph, Resolvable, NeededList, Acyclic, AllComeUp, EndsWith, Keyed, Course, Honest;
    needed, log := [], [];
    NothingYet(launches, waits);
    if id !in stacks {
      return NoSuchStack, needed, log;
    }
    var unready := UnreadyPrerequisites(stacks, id, up);
    if unready.Err? {
      return LookupFailed(unready.error), needed, log;
    }
    needed := unready.value;
    if needed != [] && !confirmed {
      return NeedsConfirmation, needed, log;
    }
    var failure;
    failure, log := BringUp(needed, launches, waits);
    if failure.Some? {
      EndingsDiffer(log, failure.value, launches, waits);
      return failure.value, needed, log;
    }
    HonestGrows(log, Own, launches, waits);
    log := log + [Own];
    r := if launches(id) then Started else OwnMembersFailed;
  }

  lemma {:induction false} CoursePrefix(needed: seq<Needed>, i: nat)
    requires i < |needed|
    ensures Course(needed[..i]) + [Launch(needed[i].id)] <= Course(needed)
    ensures |Course(needed[..i]) + [Launch(needed[i].id)]| < |Course(needed)|
    ensures Course(needed[..i + 1]) == Course(needed[..i]) + [Launch(needed[i].id)] + [Ready(needed[i].id)]
  {
    assert needed[..i + 1][..i] == needed[..i];
    var before := needed[..|needed| - 1];
    if i < |before| {
      CoursePrefix(before, i);
      assert before[..i] == needed[..i];
    } else {
      assert needed[..i + 1] == needed;
    }
  }

  /** The own members start only after every stack below that was not up has been brought up. */
  lemma OwnComesLast(stacks: Stacks, up: map<string, bool>, id: string, needed: seq<Needed>, log: seq<Event>, k: nat, u: string)
    requires NeededList(stacks, up, id, needed) && log <= Course(needed) + [Own]
    requires k < |log| && log[k].Own?
    requires Leads(Graph(stacks), id, u) && Unready(stacks, up, u)
    ensures Ready(u) in log[..k]
  {
    EventAt(needed, k);
    ReadyBefore(needed, log, |needed|, u);
  }

  /** A needed stack is launched only after all that it needs itself has been brought up. */
  lemma NeededComeFirst(stacks: Stacks, up: map<string, bool>, id: string, needed: seq<Needed>, log: seq<Event>, k: nat, u: string)
    requires NeededList(stacks, up, id, needed) && log <= Course(needed) + [Own]
    requires k < |log| && log[k].Launch?
    requires Leads(Graph(stacks), log[k].id, u) && Unready(stacks, up, u)
    ensures Ready(u) in log[..k]
  {
    EventAt(needed, k);
    var i := k / 2;
    assert Covered(Graph(stacks), stacks, up, needed[i].id, Ids(needed)[..i]);
    ReadyBefore(needed, log, i, u);
  }

  lemma EventAt(needed: seq<Needed>, k: nat)
    requires k < |Course(needed)| + 1
    ensures |Course(needed)| == 2 * |needed|
    ensures (Course(needed) + [Own])[k] ==
            if k == 2 * |needed| then Own else if k % 2 == 0 then Launch(needed[k / 2].id) else Ready(needed[k / 2].id)
  {
    if needed != [] {
      CourseAt(needed, 0);
    }
    if k < 2 * |needed| {
      CourseAt(needed, k / 2);
    }
  }

  lemma ReadyBefore(needed: seq<Needed>, log: seq<Event>, i: nat, u: string)
    requires i <= |needed| && u in Ids(needed)[..i]
    requires log <= Course(needed) + [Own] && 2 * i <= |log|
    ensures Ready(u) in log[..2 * i]
  {
    var j :| 0 <= j < i && Ids(needed)[j] == u;
    CourseAt(needed, j);
    assert log[2 * j + 1] == Ready(u);
  }
}
