/**
 The members of one stack: what a save accepts, which members a start selects,
 and the order in which a stop walks them.
 */
module StackMembers {
  import opened Digraph
  import opened Positions
  import opened Results
  import opened Text
  import P = Prerequisites

  const DEFAULT_WAIT_MS := 30000

  datatype Member = Member(commandId: string, position: int, dependsOn: seq<string>, waitFor: string, waitTimeoutMs: int)

  function Ids(ms: seq<Member>): (ids: seq<string>)
    ensures |ids| == |ms|
    ensures forall i :: 0 <= i < |ids| ==> ids[i] == ms[i].commandId
  {
    seq(|ms|, i requires 0 <= i < |ms| => ms[i].commandId)
  }

  /** Lookup by command id; the last member with an id wins. */
  function ById(ms: seq<Member>): map<string, Member> {
    if ms == [] then map[] else ById(ms[..|ms| - 1])[ms[|ms| - 1].commandId := ms[|ms| - 1]]
  }

  function Dependencies(ms: seq<Member>): Edges {
    if ms == [] then map[] else Dependencies(ms[..|ms| - 1])[ms[|ms| - 1].commandId := ms[|ms| - 1].dependsOn]
  }

  lemma {:induction false} LookupFacts(ms: seq<Member>)
    ensures ById(ms).Keys == Dependencies(ms).Keys
    ensures forall id :: id in ById(ms) <==> id in Ids(ms)
    ensures forall id :: id in ById(ms) ==>
              && ById(ms)[id].commandId == id
              && ById(ms)[id] in ms
              && Dependencies(ms)[id] == ById(ms)[id].dependsOn
  {
    if ms != [] {
      var before, last := ms[..|ms| - 1], ms[|ms| - 1];
      LookupFacts(before);
      assert ms == before + [last];
      assert Ids(ms) == Ids(before) + [last.commandId];
    }
  }

  lemma {:induction false} LookupOfDistinct(ms: seq<Member>, m: Member)
    requires Distinct(Ids(ms)) && m in ms
    ensures m.commandId in ById(ms) && ById(ms)[m.commandId] == m
  {
    var before, last := ms[..|ms| - 1], ms[|ms| - 1];
    assert ms == before + [last];
    assert Ids(ms) == Ids(before) + [last.commandId];
    if m in before {
      var k :| 0 <= k < |before| && before[k] == m;
      assert Ids(before)[k] == m.commandId;
      LookupOfDistinct(before, m);
    }
  }

  /** Every dependency is a member. */
  predicate Closed(g: Edges) {
    forall v, d :: v in g && d in g[v] ==> d in g
  }

  // Members selected for a start

  function WithDefaults(m: Member, i: int): Member {
    m.(waitFor := if m.waitFor == "" then "spawn" else m.waitFor,
       waitTimeoutMs := if m.waitTimeoutMs <= 0 then DEFAULT_WAIT_MS else m.waitTimeoutMs,
       position := i)
  }

  function Defaulted(ms: seq<Member>): (ds: seq<Member>)
    ensures |ds| == |ms|
    ensures forall i :: 0 <= i < |ds| ==> ds[i] == WithDefaults(ms[i], i)
  {
    seq(|ms|, i requires 0 <= i < |ms| => WithDefaults(ms[i], i))
  }

  function OnlySelected(deps: seq<string>, selected: set<string>): seq<string> {
    if deps == [] then []
    else
      OnlySelected(deps[..|deps| - 1], selected) +
      if deps[|deps| - 1] in selected then [deps[|deps| - 1]] else []
  }

  function In(selected: set<string>): string -> bool {
    id => id in selected
  }

  lemma {:induction false} OnlySelectedPicks(deps: seq<string>, selected: set<string>)
    ensures Sublist(deps, In(selected), OnlySelected(deps, selected))
  {
    hide Sublist;
    if deps == [] {
      PickNothing(In(selected));
    } else {
      var before, last := deps[..|deps| - 1], deps[|deps| - 1];
      OnlySelectedPicks(before, selected);
      PickNext(before, In(selected), OnlySelected(before, selected), last);
      assert deps == before + [last] && In(selected)(last) == (last in selected);
      assert OnlySelected(before, selected) + [] == OnlySelected(before, selected);
    }
  }

  method FilterSelectedDependencies(deps: seq<string>, selected: set<string>) returns (out: seq<string>)
    ensures out == OnlySelected(deps, selected)
    ensures Sublist(deps, In(selected), out)
  {
    hide Sublist;
    out := [];
    PickNothing(In(selected));
    for i := 0 to |deps|
      invariant out == OnlySelected(deps[..i], selected)
      invariant Sublist(deps[..i], In(selected), out)
    {
      PickNext(deps[..i], In(selected), out, deps[i]);
      assert deps[..i + 1] == deps[..i] + [deps[i]];
      assert deps[..i + 1][..i] == deps[..i];
      if deps[i] in selected {
        out := out + [deps[i]];
      }
    }
    assert deps[..|deps|] == deps;
  }

  /** The selected members in stack order, each as the lookup knows it. */
  function Chosen(ms: seq<Member>, byId: map<string, Member>, selected: set<string>): seq<Member> {
    if ms == [] then []
    else
      var id := ms[|ms| - 1].commandId;
      Chosen(ms[..|ms| - 1], byId, selected) +
      if id in selected && id in byId
      then [byId[id].(dependsOn := OnlySelected(byId[id].dependsOn, selected))]
      else []
  }

  datatype SelectionError = EmptyRequest | DuplicateRequest(id: string) | NotAMember(id: string)

  /** The set a request stands for: everything the requested members reach. */
  ghost predicate Wanted(g: Edges, request: seq<string>, id: string) {
    exists r :: r in request && Reaches(g, r, id)
  }

  ghost predicate GoodRequest(g: Edges, request: seq<string>) {
    && request != []
    && Distinct(request)
    && forall id :: Wanted(g, request, id) ==> id in g
  }

  class Selection {
    const g: Edges
    var selected: set<string>

    constructor (g: Edges)
      ensures this.g == g && selected == {}
    {
      this.g, selected := g, {};
    }

    /** What one call adds: reachable members whose dependencies are all selected. */
    ghost predicate Added(id: string, before: set<string>, pending: set<string>)
      reads this
    {
      && before <= selected
      && (forall u :: u in selected && u !in before ==> u in g && Reaches(g, id, u))
      && (forall u, d :: u in selected && u !in before && u !in pending && d in Next(g, u) ==> d in selected)
    }

    /** Also ends on cyclic graphs: a member is entered only once. */
    method Include(id: string) returns (error: Option<SelectionError>)
      modifies this
      ensures error.None? ==> Added(id, old(selected), {}) && id in selected
      ensures error.Some? ==> error.value.NotAMember? && Reaches(g, id, error.value.id) && error.value.id !in g
      decreases g.Keys - selected
    {
      SelfReach(g, id);
      if id !in g {
        return Some(NotAMember(id));
      }
      if id in selected {
        return None;
      }
      selected := selected + {id};
      for i := 0 to |g[id]|
        invariant id in selected
        invariant Added(id, old(selected), {id})
        invariant forall j :: 0 <= j < i ==> g[id][j] in selected
      {
        ghost var before := selected;
        assert id in old(g.Keys - selected) && id !in g.Keys - selected;
        error := Include(g[id][i]);
        if error.Some? {
          StepThenReach(g, id, g[id][i], error.value.id);
          return;
        }
        forall u | u in selected && u !in before ensures Reaches(g, id, u) {
          StepThenReach(g, id, g[id][i], u);
        }
      }
      return None;
    }
  }

  method SelectRequested(g: Edges, request: seq<string>) returns (r: Result<set<string>, SelectionError>)
    ensures r.Ok? <==> GoodRequest(g, request)
    ensures r.Ok? ==> forall id :: id in r.value <==> Wanted(g, request, id)
  {
    if request == [] {
      return Err(EmptyRequest);
    }
    var selection := new Selection(g);
    var requested: set<string> := {};
    for i := 0 to |request|
      invariant forall id :: id in requested <==> id in request[..i]
      invariant Distinct(request[..i])
      invariant forall id :: id in request[..i] ==> id in selection.selected
      invariant forall id :: id in selection.selected ==> id in g && Wanted(g, request, id)
      invariant forall u, d :: u in selection.selected && d in Next(g, u) ==> d in selection.selected
      invariant selection.g == g
    {
      assert request[i] in request;
      if request[i] in requested {
        if Distinct(request) {
          ghost var j :| 0 <= j < i && request[j] == request[i];
          DistinctAt(request, j, i);
        }
        return Err(DuplicateRequest(request[i]));
      }
      requested := requested + {request[i]};
      assert request[..i + 1] == request[..i] + [request[i]];
      DistinctGrows(request[..i], request[i]);
      var error := selection.Include(request[i]);
      if error.Some? {
        assert Wanted(g, request, error.value.id);
        return Err(error.value);
      }
    }
    assert request[..|request|] == request;
    forall id | Wanted(g, request, id) ensures id in selection.selected {
      var from :| from in request && Reaches(g, from, id);
      ClosedContainsReach(g, selection.selected, from, id);
    }
    return Ok(selection.selected);
  }

  method Lookup(members: seq<Member>) returns (byId: map<string, Member>, g: Edges)
    ensures byId == ById(Defaulted(members)) && g == Dependencies(Defaulted(members))
  {
    byId, g := map[], map[];
    ghost var defaulted := Defaulted(members);
    for i := 0 to |members|
      invariant byId == ById(defaulted[..i]) && g == Dependencies(defaulted[..i])
    {
      assert defaulted[..i + 1][..i] == defaulted[..i];
      var m := members[i];
      if m.waitFor == "" {
        m := m.(waitFor := "spawn");
      }
      if m.waitTimeoutMs <= 0 {
        m := m.(waitTimeoutMs := DEFAULT_WAIT_MS);
      }
      m := m.(position := i);
      byId := byId[m.commandId := m];
      g := g[m.commandId := m.dependsOn];
    }
    assert defaulted[..|members|] == defaulted;
  }

  method Choose(members: seq<Member>, byId: map<string, Member>, selected: set<string>) returns (out: seq<Member>)
    ensures out == Chosen(members, byId, selected)
  {
    out := [];
    for i := 0 to |members|
      invariant out == Chosen(members[..i], byId, selected)
    {
      assert members[..i + 1][..i] == members[..i];
      var id := members[i].commandId;
      if id in selected && id in byId {
        var deps := FilterSelectedDependencies(byId[id].dependsOn, selected);
        out := out + [byId[id].(dependsOn := deps)];
      }
    }
    assert members[..|members|] == members;
  }

  // What is started, said of the stored members

  /** p is the last position of a member with the id. */
  predicate LastWith(ms: seq<Member>, id: string, p: nat) {
    p < |ms| && ms[p].commandId == id && forall j :: p < j < |ms| ==> ms[j].commandId != id
  }

  /** How the member stored at position p is started. */
  ghost predicate StartsAs(m: Member, p: nat, selected: set<string>, started: Member) {
    && started.commandId == m.commandId && started.position == p
    && started.waitFor == (if m.waitFor == "" then "spawn" else m.waitFor)
    && started.waitTimeoutMs == (if m.waitTimeoutMs <= 0 then DEFAULT_WAIT_MS else m.waitTimeoutMs)
    && Sublist(m.dependsOn, In(selected), started.dependsOn)
  }

  /** One member is started for each of the first n positions with a selected id, in stack order. */
  ghost predicate StartedAt(ms: seq<Member>, n: nat, selected: set<string>, out: seq<Member>, at: seq<nat>) {
    && n <= |ms| && |at| == |out| && Increasing(at)
    && (forall k :: 0 <= k < |at| ==> at[k] < n && ms[at[k]].commandId in selected && StartsFrom(ms, ms[at[k]].commandId, selected, out[k]))
    && forall i: nat :: i < n && ms[i].commandId in selected ==> i in at
  }

  ghost predicate StartsFrom(ms: seq<Member>, id: string, selected: set<string>, started: Member) {
    exists p: nat :: LastWith(ms, id, p) && StartsAs(ms[p], p, selected, started)
  }

  ghost predicate Starts(ms: seq<Member>, selected: set<string>, out: seq<Member>) {
    exists at: seq<nat> :: StartedAt(ms, |ms|, selected, out, at)
  }

  lemma LastWithGrows(before: seq<Member>, last: Member, id: string, p: nat)
    requires LastWith(before, id, p) && last.commandId != id
    ensures LastWith(before + [last], id, p) && (before + [last])[p] == before[p]
  {
  }

  lemma {:induction false} LookupIsLast(ms: seq<Member>, id: string)
    requires id in Ids(ms)
    ensures exists p: nat :: LastWith(ms, id, p) && id in ById(ms) && ById(ms)[id] == ms[p]
  {
    var before, last := ms[..|ms| - 1], ms[|ms| - 1];
    assert ms == before + [last] && Ids(ms) == Ids(before) + [last.commandId];
    assert ById(ms) == ById(before)[last.commandId := last];
    if last.commandId == id {
      assert LastWith(ms, id, |ms| - 1);
    } else {
      hide Ids, ById, LastWith;
      LookupIsLast(before, id);
      var p: nat :| LastWith(before, id, p) && id in ById(before) && ById(before)[id] == before[p];
      LastWithGrows(before, last, id, p);
    }
  }

  lemma StartedFromStored(ms: seq<Member>, id: string, selected: set<string>)
    requires id in Ids(ms)
    ensures id in ById(Defaulted(ms))
    ensures var m := ById(Defaulted(ms))[id]; StartsFrom(ms, id, selected, m.(dependsOn := OnlySelected(m.dependsOn, selected)))
  {
    hide OnlySelected, ById, Sublist;
    assert Ids(Defaulted(ms)) == Ids(ms);
    LookupIsLast(Defaulted(ms), id);
    var p: nat :| LastWith(Defaulted(ms), id, p) && ById(Defaulted(ms))[id] == Defaulted(ms)[p];
    assert LastWith(ms, id, p) by {
      assert forall j :: 0 <= j < |ms| ==> Defaulted(ms)[j].commandId == ms[j].commandId;
    }
    OnlySelectedPicks(ms[p].dependsOn, selected);
  }

  lemma ChosenNext(ms: seq<Member>, n: nat, byId: map<string, Member>, selected: set<string>)
    requires n < |ms|
    ensures var id, before := ms[n].commandId, Chosen(ms[..n], byId, selected);
            Chosen(ms[..n + 1], byId, selected) ==
            if id in selected && id in byId then before + [byId[id].(dependsOn := OnlySelected(byId[id].dependsOn, selected))] else before
  {
    hide OnlySelected;
    assert ms[..n + 1][..n] == ms[..n];
  }

  lemma {:induction false} ChosenStart(ms: seq<Member>, n: nat, selected: set<string>)
    requires n <= |ms|
    ensures exists at: seq<nat> :: StartedAt(ms, n, selected, Chosen(ms[..n], ById(Defaulted(ms)), selected), at)
  {
    hide OnlySelected, ById, Defaulted, Chosen, StartedAt, StartsFrom;
    NoneStarted(ms, selected);
    if n > 0 {
      ChosenStart(ms, n - 1, selected);
      ChosenNext(ms, n - 1, ById(Defaulted(ms)), selected);
      var id, before := ms[n - 1].commandId, Chosen(ms[..n - 1], ById(Defaulted(ms)), selected);
      var at: seq<nat> :| StartedAt(ms, n - 1, selected, before, at);
      assert Ids(ms)[n - 1] == id;
      StartedFromStored(ms, id, selected);
      if id in selected {
        var m := ById(Defaulted(ms))[id];
        OneMoreStarted(ms, n - 1, selected, before, at, m.(dependsOn := OnlySelected(m.dependsOn, selected)));
      } else {
        OneMoreLeftOut(ms, n - 1, selected, before, at);
      }
    }
  }

  lemma OneMoreLeftOut(ms: seq<Member>, n: nat, selected: set<string>, out: seq<Member>, at: seq<nat>)
    requires StartedAt(ms, n, selected, out, at) && n < |ms| && ms[n].commandId !in selected
    ensures StartedAt(ms, n + 1, selected, out, at)
  {
    hide StartsFrom, Increasing;
  }

  lemma NoneStarted(ms: seq<Member>, selected: set<string>)
    ensures StartedAt(ms, 0, selected, [], []) && Chosen(ms[..0], ById(Defaulted(ms)), selected) == []
  {
  }

  lemma OneMoreStarted(ms: seq<Member>, n: nat, selected: set<string>, out: seq<Member>, at: seq<nat>, m: Member)
    requires StartedAt(ms, n, selected, out, at) && n < |ms| && ms[n].commandId in selected
    requires StartsFrom(ms, ms[n].commandId, selected, m)
    ensures StartedAt(ms, n + 1, selected, out + [m], at + [n])
  {
    hide StartsFrom, Increasing;
    IncreasingGrows(at, n);
    var longer := at + [n];
    forall k | 0 <= k < |longer|
      ensures longer[k] < n + 1 && ms[longer[k]].commandId in selected && StartsFrom(ms, ms[longer[k]].commandId, selected, (out + [m])[k])
    {
      if k < |at| {
        assert longer[k] == at[k];
      }
    }
    forall i: nat | i < n + 1 && ms[i].commandId in selected ensures i in longer {
      if i == n {
        assert longer[|at|] == n;
      } else {
        assert i in at;
      }
    }
  }

  lemma AllStart(ms: seq<Member>, selected: set<string>)
    ensures Starts(ms, selected, Chosen(ms, ById(Defaulted(ms)), selected))
  {
    hide StartedAt, Chosen, ById, Defaulted;
    ChosenStart(ms, |ms|, selected);
    assert ms[..|ms|] == ms;
  }

  /** A missing request selects every member. */
  method StackMembersForStart(members: seq<Member>, request: Option<seq<string>>)
    returns (r: Result<seq<Member>, SelectionError>, selected: set<string>)
    ensures r.Err? <==> request.Some? && !GoodRequest(Dependencies(Defaulted(members)), request.value)
    ensures r.Ok? ==> IsSelection(Defaulted(members), request, selected)
    ensures r.Ok? ==> r.value == Chosen(members, ById(Defaulted(members)), selected)
    ensures r.Ok? && request.Some? && Distinct(Ids(members)) ==> r.value == Kept(Defaulted(members), selected)
    ensures r.Ok? ==> Starts(members, selected, r.value)
  {
    hide Starts, GoodRequest, Chosen, Kept, Defaulted, ById, Dependencies, Distinct, Ids;
    var byId, g := Lookup(members);
    selected := byId.Keys;
    if request.Some? {
      var s := SelectRequested(g, request.value);
      if s.Err? {
        return Err(s.error), {};
      }
      selected := s.value;
    }
    LookupFacts(Defaulted(members));
    var out := Choose(members, byId, selected);
    AllStart(members, selected);
    if request.Some? && Distinct(Ids(members)) {
      StartedAreStored(members, request.value, selected);
    }
    return Ok(out), selected;
  }

  ghost predicate IsSelection(ms: seq<Member>, request: Option<seq<string>>, selected: set<string>) {
    match request
    case None => selected == ById(ms).Keys
    case Some(ids) => forall id :: id in selected <==> Wanted(Dependencies(ms), ids, id)
  }

  ghost predicate ClosedUnder(g: Edges, s: set<string>) {
    forall u, d :: u in s && d in Next(g, u) ==> d in s
  }

  /** What a request selects contains the request and all dependencies of what it contains... */
  lemma SelectionIsClosed(ms: seq<Member>, ids: seq<string>, selected: set<string>)
    requires IsSelection(ms, Some(ids), selected)
    ensures Elements(ids) <= selected && ClosedUnder(Dependencies(ms), selected)
  {
    var g := Dependencies(ms);
    forall id | id in ids ensures id in selected {
      SelfReach(g, id);
    }
    forall u, d | u in selected && d in Next(g, u) ensures d in selected {
      var from :| from in ids && Reaches(g, from, u);
      ReachThenStep(g, from, u, d);
      LeadsReaches(g, from, d);
    }
  }

  /** ...and nothing that another such set could leave out. */
  lemma SelectionIsLeast(ms: seq<Member>, ids: seq<string>, selected: set<string>, other: set<string>)
    requires IsSelection(ms, Some(ids), selected)
    requires Elements(ids) <= other && ClosedUnder(Dependencies(ms), other)
    ensures selected <= other
  {
    forall id | id in selected ensures id in other {
      var from :| from in ids && Reaches(Dependencies(ms), from, id);
      assert from in Elements(ids);
      ClosedContainsReach(Dependencies(ms), other, from, id);
    }
  }

  lemma {:induction false} NothingFiltered(deps: seq<string>, selected: set<string>)
    requires forall d :: d in deps ==> d in selected
    ensures OnlySelected(deps, selected) == deps
  {
    if deps != [] {
      assert deps[|deps| - 1] in deps;
      NothingFiltered(deps[..|deps| - 1], selected);
      assert deps == deps[..|deps| - 1] + [deps[|deps| - 1]];
    }
  }

  /** The selected members in stack order, with no filtering at all. */
  function Picked(ms: seq<Member>, byId: map<string, Member>, selected: set<string>): seq<Member> {
    if ms == [] then []
    else
      var id := ms[|ms| - 1].commandId;
      Picked(ms[..|ms| - 1], byId, selected) + if id in selected && id in byId then [byId[id]] else []
  }

  lemma {:induction false} ClosedNeedsNoFilter(ms: seq<Member>, byId: map<string, Member>, selected: set<string>)
    requires forall id :: id in selected && id in byId ==> OnlySelected(byId[id].dependsOn, selected) == byId[id].dependsOn
    ensures Chosen(ms, byId, selected) == Picked(ms, byId, selected)
  {
    if ms != [] {
      ClosedNeedsNoFilter(ms[..|ms| - 1], byId, selected);
    }
  }

  /** With a request, filtering changes no dependency list: the selected members come as stored. */
  lemma ChosenKeepDependencies(members: seq<Member>, ids: seq<string>, selected: set<string>)
    requires IsSelection(Defaulted(members), Some(ids), selected)
    ensures Chosen(members, ById(Defaulted(members)), selected) == Picked(members, ById(Defaulted(members)), selected)
  {
    var byId := ById(Defaulted(members));
    LookupFacts(Defaulted(members));
    SelectionIsClosed(Defaulted(members), ids, selected);
    forall id | id in selected && id in byId
      ensures OnlySelected(byId[id].dependsOn, selected) == byId[id].dependsOn
    {
      assert Next(Dependencies(Defaulted(members)), id) == byId[id].dependsOn;
      NothingFiltered(byId[id].dependsOn, selected);
    }
    ClosedNeedsNoFilter(members, byId, selected);
  }

  /** When no id repeats, the pick is the stored list with the unselected members left out. */
  lemma {:induction false} PickedAreStored(ms: seq<Member>, byId: map<string, Member>, selected: set<string>)
    requires forall m :: m in ms ==> m.commandId in byId && byId[m.commandId] == m
    ensures Picked(ms, byId, selected) == Kept(ms, selected)
  {
    if ms != [] {
      assert ms[|ms| - 1] in ms;
      PickedAreStored(ms[..|ms| - 1], byId, selected);
    }
  }

  function Kept(ms: seq<Member>, selected: set<string>): seq<Member> {
    if ms == [] then []
    else Kept(ms[..|ms| - 1], selected) + if ms[|ms| - 1].commandId in selected then [ms[|ms| - 1]] else []
  }

  lemma {:induction false} PickedByIds(a: seq<Member>, b: seq<Member>, byId: map<string, Member>, selected: set<string>)
    requires Ids(a) == Ids(b)
    ensures Picked(a, byId, selected) == Picked(b, byId, selected)
  {
    assert |a| == |Ids(a)| == |Ids(b)| == |b|;
    if a != [] {
      var n := |a| - 1;
      assert Ids(a[..n]) == Ids(a)[..n] == Ids(b)[..n] == Ids(b[..n]);
      assert a[n].commandId == Ids(a)[n] == Ids(b)[n] == b[n].commandId;
      hide Ids;
      PickedByIds(a[..n], b[..n], byId, selected);
    }
  }

  /** What a request of a stack without repeated members starts: its members with the unselected ones left out. */
  lemma StartedAreStored(members: seq<Member>, ids: seq<string>, selected: set<string>)
    requires IsSelection(Defaulted(members), Some(ids), selected) && Distinct(Ids(members))
    ensures Chosen(members, ById(Defaulted(members)), selected) == Kept(Defaulted(members), selected)
  {
    var ds, byId := Defaulted(members), ById(Defaulted(members));
    assert Ids(ds) == Ids(members);
    hide Ids, ById, Defaulted, Picked, Chosen, Kept, IsSelection, Distinct;
    ChosenKeepDependencies(members, ids, selected);
    PickedByIds(members, ds, byId, selected);
    forall m | m in ds ensures m.commandId in byId && byId[m.commandId] == m {
      LookupOfDistinct(ds, m);
    }
    PickedAreStored(ds, byId, selected);
  }

  // Dependency order, for stopping

  datatype OrderError = CycleAt(id: string) | UnknownCommand(id: string)

  /** Why a visit of id may fail. */
  ghost predicate Blames(g: Edges, id: string, e: OrderError) {
    && Reaches(g, id, e.id)
    && match e
       case CycleAt(c) => Leads(g, c, c)
       case UnknownCommand(u) => u !in g
  }

  class DependencyWalk {
    const byId: map<string, Member>
    ghost const g: Edges
    var visiting: set<string>
    var visited: set<string>
    var out: seq<Member>
    ghost var open: seq<string>   // the open calls, outermost first
    ghost var done: seq<string>   // the ids of out

    ghost predicate Sound() {
      && g.Keys == byId.Keys
      && forall id :: id in byId ==> byId[id].commandId == id && byId[id].dependsOn == g[id]
    }

    ghost predicate Valid()
      reads this
    {
      Searching(g, visiting, visited, open, done) && Resolved(byId, done, out)
    }

    constructor (byId: map<string, Member>, ghost g: Edges)
      ensures this.byId == byId && this.g == g
      ensures Valid() && open == [] && visiting == {}
    {
      this.byId, this.g := byId, g;
      visiting, visited, out, open, done := {}, {}, [], [], [];
    }

    method Visit(id: string) returns (error: Option<OrderError>)
      requires Sound() && Valid()
      requires open != [] ==> id in Next(g, open[|open| - 1])
      modifies this
      ensures error.None? ==> Valid() && visiting == old(visiting) && open == old(open)
      ensures error.None? ==> old(visited) <= visited && id in visited
      ensures error.Some? ==> Blames(g, id, error.value)
      decreases byId.Keys - visiting - visited
    {
      hide Reaches, Leads, IsPath, Ordered, Distinct, Resolved;
      SelfReach(g, id);
      if id in visiting {
        ReentryIsCycle(g, visiting, visited, open, done, id);
        return Some(CycleAt(id));
      }
      if id in visited {
        return None;
      }
      if id !in byId {
        return Some(UnknownCommand(id));
      }
      var member := byId[id];
      CallOpens(g, visiting, visited, open, done, id);
      visiting := visiting + {id};
      open := open + [id];
      for i := 0 to |member.dependsOn|
        invariant Valid() && open == old(open) + [id] && visiting == old(visiting) + {id}
        invariant old(visited) <= visited
        invariant forall j :: 0 <= j < i ==> member.dependsOn[j] in visited
      {
        assert id in old(byId.Keys - visiting - visited) && id !in byId.Keys - visiting - visited;
        error := Visit(member.dependsOn[i]);
        if error.Some? {
          StepThenReach(g, id, member.dependsOn[i], error.value.id);
          return;
        }
      }
      CallCloses(g, old(visiting), visited, old(open), done, id);
      ResolvedGrows(byId, done, out, id);
      visiting := visiting - {id};
      visited := visited + {id};
      out := out + [member];
      done := done + [id];
      open := old(open);
      return None;
    }
  }

  /** out holds, in the same order, the members with the given ids. */
  predicate Resolved(byId: map<string, Member>, ids: seq<string>, out: seq<Member>) {
    && |out| == |ids|
    && forall i :: 0 <= i < |ids| ==> ids[i] in byId && out[i] == byId[ids[i]]
  }

  lemma ResolvedGrows(byId: map<string, Member>, ids: seq<string>, out: seq<Member>, id: string)
    requires Resolved(byId, ids, out) && id in byId
    ensures Resolved(byId, ids + [id], out + [byId[id]])
  {
  }

  method Index(members: seq<Member>) returns (byId: map<string, Member>)
    ensures byId == ById(members)
  {
    byId := map[];
    for i := 0 to |members|
      invariant byId == ById(members[..i])
    {
      assert members[..i + 1][..i] == members[..i];
      byId := byId[members[i].commandId := members[i]];
    }
    assert members[..|members|] == members;
  }

  method StackDependencyOrder(members: seq<Member>) returns (r: Result<seq<Member>, OrderError>)
    ensures r.Ok? <==> Acyclic(Dependencies(members)) && Closed(Dependencies(members))
    ensures r.Ok? ==> DependencyOrder(members, r.value)
  {
    hide Reaches, Leads, IsPath, Ordered, Distinct, Resolved, Acyclic, Closed, DependencyOrder, Ids, Blames;
    var byId := Index(members);
    LookupFacts(members);
    ghost var g := Dependencies(members);
    var walk := new DependencyWalk(byId, g);
    for i := 0 to |members|
      invariant walk.byId == byId && walk.g == g
      invariant walk.Valid() && walk.open == []
      invariant forall j :: 0 <= j < i ==> members[j].commandId in walk.visited
    {
      var error := walk.Visit(members[i].commandId);
      if error.Some? {
        assert Ids(members)[i] in g;
        BlameIsReal(g, members[i].commandId, error.value);
        return Err(error.value);
      }
    }
    WalkGivesOrder(members, walk.done, walk.out);
    return Ok(walk.out);
  }

  lemma WalkGivesOrder(members: seq<Member>, done: seq<string>, out: seq<Member>)
    requires Ordered(Dependencies(members), done) && Distinct(done) && Resolved(ById(members), done, out)
    requires forall j :: 0 <= j < |members| ==> members[j].commandId in done
    ensures Acyclic(Dependencies(members)) && Closed(Dependencies(members))
    ensures DependencyOrder(members, out)
  {
    LookupFacts(members);
    assert Ids(out) == done;
    forall id | id in Ids(members) ensures id in done {
      var j :| 0 <= j < |members| && Ids(members)[j] == id;
      assert members[j].commandId in done;
    }
    forall id | id in done ensures id in Dependencies(members) {
      var i :| 0 <= i < |done| && done[i] == id;
    }
    OrderProvesAcyclic(Dependencies(members), done, Ids(members));
  }

  lemma BlameIsReal(g: Edges, id: string, e: OrderError)
    requires id in g && Blames(g, id, e)
    ensures !Acyclic(g) || !Closed(g)
  {
    if e.UnknownCommand? && Closed(g) {
      ClosedContainsReach(g, g.Keys, id, e.id);
    }
  }

  lemma OrderProvesAcyclic(g: Edges, order: seq<string>, ids: seq<string>)
    requires Ordered(g, order)
    requires forall id :: id in g <==> id in ids
    requires forall id :: id in ids ==> id in order
    requires forall id :: id in order ==> id in g
    ensures Acyclic(g) && Closed(g)
  {
    forall v ensures !Leads(g, v, v) {
      if Leads(g, v, v) {
        var _ := LeadsFirstStep(g, v, v);
        OrderedHasNoCycle(g, order, v);
      }
    }
    forall v, d | v in g && d in g[v] ensures d in g {
      SelfReach(g, d);
      StepThenReach(g, v, d, d);
      OrderedIsClosed(g, order, v, d);
    }
  }

  /** The members, each once, every dependency before its dependents. */
  ghost predicate DependencyOrder(members: seq<Member>, out: seq<Member>) {
    && Distinct(Ids(out))
    && (forall id :: id in Ids(out) <==> id in Ids(members))
    && (forall m :: m in out ==> m in members)
    && Ordered(Dependencies(members), Ids(out))
  }

  lemma {:induction false} CountInDistinct(ms: seq<Member>, m: Member)
    requires Distinct(Ids(ms))
    ensures multiset(ms)[m] == if m in ms then 1 else 0
  {
    if ms != [] {
      var before, last := ms[..|ms| - 1], ms[|ms| - 1];
      assert ms == before + [last];
      assert Ids(ms) == Ids(before) + [last.commandId];
      CountInDistinct(before, m);
      assert forall k :: 0 <= k < |before| ==> Ids(before)[k] == before[k].commandId;
    }
  }

  /** When no id repeats, the dependency order is a permutation of the members. */
  lemma OrderIsPermutation(members: seq<Member>, out: seq<Member>)
    requires Distinct(Ids(members)) && DependencyOrder(members, out)
    ensures multiset(out) == multiset(members)
  {
    forall m ensures multiset(out)[m] == multiset(members)[m] {
      CountInDistinct(out, m);
      CountInDistinct(members, m);
      if m in members {
        var k :| 0 <= k < |members| && members[k] == m;
        assert Ids(members)[k] in Ids(out);
        var j :| 0 <= j < |out| && Ids(out)[j] == m.commandId;
        assert out[j] in members;
        LookupOfDistinct(members, out[j]);
        LookupOfDistinct(members, m);
      }
    }
  }

  /** Stops members from the end of the order; stops says whether stopping a command succeeds. */
  method StopStack(members: seq<Member>, stops: string -> bool) returns (order: Result<seq<Member>, OrderError>, tried: seq<string>)
    ensures order.Ok? <==> Acyclic(Dependencies(members)) && Closed(Dependencies(members))
    ensures order.Err? ==> tried == []
    ensures order.Ok? ==>
              && DependencyOrder(members, order.value)
              && |tried| <= |order.value|
              && (forall k :: 0 <= k < |tried| ==> tried[k] == Ids(order.value)[|order.value| - 1 - k])
              && (|tried| < |order.value| ==> tried != [] && !stops(tried[|tried| - 1]))
  {
    order := StackDependencyOrder(members);
    tried := [];
    if order.Err? {
      return;
    }
    var i := |order.value|;
    while i > 0
      invariant 0 <= i <= |order.value| && |tried| == |order.value| - i
      invariant forall k :: 0 <= k < |tried| ==> tried[k] == Ids(order.value)[|order.value| - 1 - k]
    {
      i := i - 1;
      var id := order.value[i].commandId;
      tried := tried + [id];
      if !stops(id) {
        return;
      }
    }
  }

  /** A stop reaches every dependent of a member before the member itself. */
  lemma DependentsStopFirst(members: seq<Member>, out: seq<Member>, tried: seq<string>, k: nat, dependent: string)
    requires DependencyOrder(members, out) && |tried| <= |out|
    requires forall i :: 0 <= i < |tried| ==> tried[i] == Ids(out)[|out| - 1 - i]
    requires k < |tried| && dependent in Dependencies(members)
    requires tried[k] in Dependencies(members)[dependent]
    ensures dependent in tried[..k]
  {
    hide Ids, Distinct, Ordered, Dependencies, Next;
    LookupFacts(members);
    assert dependent in Ids(out);
    var j :| 0 <= j < |out| && Ids(out)[j] == dependent;
    DependsMeansNext(Dependencies(members), dependent, tried[k]);
    StandsBefore(Dependencies(members), Ids(out), |out| - 1 - k, j);
    assert tried[|out| - 1 - j] == dependent;
  }

  lemma DependsMeansNext(g: Edges, v: string, d: string)
    requires v in g && d in g[v]
    ensures d in Next(g, v)
  {
  }

  // What a save accepts

  const MIN_WAIT_MS := 100
  const MAX_WAIT_MS := 600000

  datatype Command = Command(external: bool, expectedPorts: nat)

  datatype SaveError =
    | BlankId
    | DuplicateMember(id: string)
    | BadWaitFor(id: string)
    | BadWaitTimeout(id: string)
    | NoSuchCommand(id: string)
    | NothingToWaitFor(id: string)
    | UnknownDependency(id: string)
    | SelfDependency(id: string)
    | DuplicateDependency(id: string)
    | DependencyCycle(id: string)

  predicate FieldsFit(m: Member, commands: map<string, Command>) {
    && m.commandId != ""
    && (m.waitFor == "spawn" || m.waitFor == "ready" || m.waitFor == "exit")
    && MIN_WAIT_MS <= m.waitTimeoutMs <= MAX_WAIT_MS
    && m.commandId in commands
    && !(m.waitFor == "ready" && commands[m.commandId].external && commands[m.commandId].expectedPorts == 0)
  }

  function Cleaned(deps: seq<string>): seq<string> {
    if deps == [] then [] else Cleaned(deps[..|deps| - 1]) + [Trim(deps[|deps| - 1])]
  }

  predicate DependenciesFit(id: string, deps: seq<string>, ids: set<string>) {
    && Distinct(Cleaned(deps))
    && forall d :: d in Cleaned(deps) ==> d != "" && d in ids && d != id
  }

  function CleanMembers(ms: seq<Member>): seq<Member> {
    if ms == [] then []
    else
      CleanMembers(ms[..|ms| - 1]) + [ms[|ms| - 1].(dependsOn := Cleaned(ms[|ms| - 1].dependsOn))]
  }

  predicate AllFieldsFit(ms: seq<Member>, commands: map<string, Command>) {
    ms != [] ==> AllFieldsFit(ms[..|ms| - 1], commands) && FieldsFit(ms[|ms| - 1], commands)
  }

  predicate AllDependenciesFit(ms: seq<Member>, ids: set<string>) {
    ms != [] ==>
      && AllDependenciesFit(ms[..|ms| - 1], ids)
      && DependenciesFit(ms[|ms| - 1].commandId, ms[|ms| - 1].dependsOn, ids)
  }

  ghost predicate Admissible(ms: seq<Member>, commands: map<string, Command>) {
    && Distinct(Ids(ms))
    && AllFieldsFit(ms, commands)
    && AllDependenciesFit(ms, Elements(Ids(ms)))
    && Acyclic(Dependencies(CleanMembers(ms)))
  }

  lemma {:induction false} AllFieldsFitPrefix(ms: seq<Member>, commands: map<string, Command>, n: nat)
    requires AllFieldsFit(ms, commands) && n <= |ms|
    ensures AllFieldsFit(ms[..n], commands)
    ensures n < |ms| ==> FieldsFit(ms[n], commands)
  {
    if n < |ms| {
      AllFieldsFitPrefix(ms[..|ms| - 1], commands, n);
      assert ms[..|ms| - 1][..n] == ms[..n];
    } else {
      assert ms[..n] == ms;
    }
  }

  // What a save reports and returns

  ghost predicate Has(ms: seq<Member>, id: string) {
    exists m :: m in ms && m.commandId == id
  }

  /** A reported fault is there. */
  ghost predicate Explains(ms: seq<Member>, commands: map<string, Command>, e: SaveError) {
    match e
    case BlankId => Has(ms, "")
    case DuplicateMember(id) => exists i, j :: 0 <= i < j < |ms| && ms[i].commandId == id == ms[j].commandId
    case BadWaitFor(id) => exists m :: m in ms && m.commandId == id && m.waitFor != "spawn" && m.waitFor != "ready" && m.waitFor != "exit"
    case BadWaitTimeout(id) => exists m :: m in ms && m.commandId == id && !(MIN_WAIT_MS <= m.waitTimeoutMs <= MAX_WAIT_MS)
    case NoSuchCommand(id) => Has(ms, id) && id !in commands
    case NothingToWaitFor(id) =>
      exists m :: m in ms && m.commandId == id && m.waitFor == "ready" && id in commands && commands[id].external && commands[id].expectedPorts == 0
    case UnknownDependency(id) => exists m :: m in ms && m.commandId == id && exists d :: d in m.dependsOn && (Trim(d) == "" || !Has(ms, Trim(d)))
    case SelfDependency(id) => exists m :: m in ms && m.commandId == id && exists d :: d in m.dependsOn && Trim(d) == id
    case DuplicateDependency(id) => exists m :: m in ms && m.commandId == id && RepeatsDependency(m)
    case DependencyCycle(id) => Leads(Dependencies(CleanMembers(ms)), id, id)
  }

  ghost predicate RepeatsDependency(m: Member) {
    exists i, j :: 0 <= i < j < |m.dependsOn| && Trim(m.dependsOn[i]) == Trim(m.dependsOn[j])
  }

  /** The members as they came, but for white space around their dependencies. */
  predicate TrimsTo(ms: seq<Member>, out: seq<Member>) {
    |out| == |ms| && forall i :: 0 <= i < |ms| ==> TrimsMember(ms[i], out[i])
  }

  predicate TrimsMember(m: Member, n: Member) {
    && n == m.(dependsOn := n.dependsOn) && |n.dependsOn| == |m.dependsOn|
    && forall j :: 0 <= j < |m.dependsOn| ==> n.dependsOn[j] == Trim(m.dependsOn[j])
  }

  lemma {:induction false} CleanedTrims(deps: seq<string>)
    ensures |Cleaned(deps)| == |deps| && forall j :: 0 <= j < |deps| ==> Cleaned(deps)[j] == Trim(deps[j])
  {
    hide Trim;
    if deps != [] {
      CleanedTrims(deps[..|deps| - 1]);
    }
  }

  lemma {:induction false} CleanMembersTrim(ms: seq<Member>)
    ensures TrimsTo(ms, CleanMembers(ms))
  {
    hide Trim, Cleaned;
    if ms != [] {
      CleanMembersTrim(ms[..|ms| - 1]);
      CleanedTrims(ms[|ms| - 1].dependsOn);
    }
  }

  method CheckFields(ms: seq<Member>, commands: map<string, Command>) returns (error: Option<SaveError>, seen: set<string>)
    ensures error.None? <==> Distinct(Ids(ms)) && AllFieldsFit(ms, commands)
    ensures error.None? ==> seen == Elements(Ids(ms))
    ensures error.Some? ==> Explains(ms, commands, error.value)
  {
    hide Ids, AllFieldsFit, Distinct, FieldsFit, Dependencies, CleanMembers;
    seen := {};
    var ids := Ids(ms);
    NoFields(commands);
    NothingRepeats<string>();
    for i := 0 to |ms|
      invariant Distinct(ids[..i]) && AllFieldsFit(ms[..i], commands)
      invariant forall s :: s in seen <==> s in ids[..i]
    {
      var id := ms[i].commandId;
      assert ids[i] == id && ids[..i + 1] == ids[..i] + [id];
      RepeatedIsNotDistinct(ids, i);
      OneMoreMember(ms, commands, i);
      if id == "" {
        return Some(BlankId), seen;
      }
      if id in seen {
        return Some(DuplicateMember(id)), seen;
      }
      seen := seen + {id};
      var error := CheckMember(ms[i], commands);
      assert ms[i] in ms;
      if error.Some? {
        BlamesMember(ms, ms[i], commands, error.value);
        return error, seen;
      }
      DistinctGrows(ids[..i], id);
    }
    assert ids[..|ms|] == ids && ms[..|ms|] == ms;
    return None, seen;
  }

  lemma NoFields(commands: map<string, Command>)
    ensures AllFieldsFit([], commands)
  {
  }

  lemma OneMoreMember(ms: seq<Member>, commands: map<string, Command>, i: nat)
    requires i < |ms|
    ensures AllFieldsFit(ms, commands) ==> FieldsFit(ms[i], commands)
    ensures ms[i].commandId == "" ==> !FieldsFit(ms[i], commands)
    ensures AllFieldsFit(ms[..i], commands) && FieldsFit(ms[i], commands) ==> AllFieldsFit(ms[..i + 1], commands)
  {
    assert ms[..i + 1][..i] == ms[..i];
    if AllFieldsFit(ms, commands) {
      AllFieldsFitPrefix(ms, commands, i);
    }
  }

  method CheckMember(m: Member, commands: map<string, Command>) returns (error: Option<SaveError>)
    requires m.commandId != ""
    ensures error.None? <==> FieldsFit(m, commands)
    ensures error.Some? ==> Explains([m], commands, error.value)
    ensures error.Some? ==> error.value.BadWaitFor? || error.value.BadWaitTimeout? || error.value.NoSuchCommand? || error.value.NothingToWaitFor?
  {
    hide Dependencies, CleanMembers;
    assert m in [m];
    if m.waitFor != "spawn" && m.waitFor != "ready" && m.waitFor != "exit" {
      return Some(BadWaitFor(m.commandId));
    }
    if m.waitTimeoutMs < MIN_WAIT_MS || m.waitTimeoutMs > MAX_WAIT_MS {
      return Some(BadWaitTimeout(m.commandId));
    }
    if m.commandId !in commands {
      return Some(NoSuchCommand(m.commandId));
    }
    var command := commands[m.commandId];
    if m.waitFor == "ready" && command.external && command.expectedPorts == 0 {
      return Some(NothingToWaitFor(m.commandId));
    }
    return None;
  }

  /** What is wrong with one member alone is wrong with the list. */
  lemma BlamesMember(ms: seq<Member>, m: Member, commands: map<string, Command>, e: SaveError)
    requires m in ms && Explains([m], commands, e)
    requires e.BadWaitFor? || e.BadWaitTimeout? || e.NoSuchCommand? || e.NothingToWaitFor?
    ensures Explains(ms, commands, e)
  {
    hide Dependencies, CleanMembers;
    assert forall x :: x in [m] ==> x == m;
  }

  lemma {:induction false} CleanedPrefix(deps: seq<string>, n: nat)
    requires n <= |deps|
    ensures |Cleaned(deps)| == |deps| && Cleaned(deps)[..n] == Cleaned(deps[..n])
    ensures n < |deps| ==> Cleaned(deps)[n] == Trim(deps[n])
  {
    hide Trim;
    if n < |deps| {
      CleanedPrefix(deps[..|deps| - 1], n);
      assert deps[..|deps| - 1][..n] == deps[..n];
    } else {
      if n > 0 {
        CleanedPrefix(deps[..n - 1], n - 1);
      }
      assert deps[..n] == deps;
    }
  }

  ghost predicate BlamesDependencies(id: string, deps: seq<string>, ids: set<string>, e: SaveError) {
    || (e == UnknownDependency(id) && exists d :: d in deps && (Trim(d) == "" || Trim(d) !in ids))
    || (e == SelfDependency(id) && exists d :: d in deps && Trim(d) == id)
    || (e == DuplicateDependency(id) && exists i, j :: 0 <= i < j < |deps| && Trim(deps[i]) == Trim(deps[j]))
  }

  lemma BlamedDependencies(ms: seq<Member>, m: Member, commands: map<string, Command>, e: SaveError)
    requires m in ms && BlamesDependencies(m.commandId, m.dependsOn, Elements(Ids(ms)), e)
    ensures Explains(ms, commands, e)
  {
    hide Trim, Dependencies, CleanMembers;
    forall id | Has(ms, id) ensures id in Ids(ms) {
      var i :| 0 <= i < |ms| && ms[i].commandId == id;
      assert Ids(ms)[i] == id;
    }
  }

  method CleanDependencies(id: string, deps: seq<string>, ids: set<string>) returns (r: Result<seq<string>, SaveError>)
    ensures r.Ok? <==> DependenciesFit(id, deps, ids)
    ensures r.Ok? ==> r.value == Cleaned(deps)
    ensures r.Err? ==> BlamesDependencies(id, deps, ids, r.error)
  {
    hide Trim, Distinct;
    var unique: set<string> := {};
    var clean: seq<string> := [];
    NothingRepeats<string>();
    for i := 0 to |deps|
      invariant clean == Cleaned(deps[..i])
      invariant DependenciesFit(id, deps[..i], ids)
      invariant forall s :: s in unique <==> s in clean
    {
      CleanedPrefix(deps, i);
      assert deps[..i + 1][..i] == deps[..i];
      var dependency := Trim(deps[i]);
      assert Cleaned(deps)[i] == dependency && dependency in Cleaned(deps);
      if dependency == "" || dependency !in ids {
        return Err(UnknownDependency(id));
      }
      if dependency == id {
        return Err(SelfDependency(id));
      }
      if dependency in unique {
        RepeatedIsNotDistinct(Cleaned(deps), i);
        CleanedTrims(deps[..i]);
        ghost var k :| 0 <= k < i && clean[k] == dependency;
        assert Trim(deps[k]) == Trim(deps[i]);
        return Err(DuplicateDependency(id));
      }
      unique := unique + {dependency};
      DistinctGrows(clean, dependency);
      clean := clean + [dependency];
    }
    assert deps[..|deps|] == deps;
    return Ok(clean);
  }

  lemma {:induction false} AllDependenciesFitPrefix(ms: seq<Member>, ids: set<string>, n: nat)
    requires AllDependenciesFit(ms, ids) && n <= |ms|
    ensures AllDependenciesFit(ms[..n], ids)
    ensures n < |ms| ==> DependenciesFit(ms[n].commandId, ms[n].dependsOn, ids)
  {
    if n < |ms| {
      AllDependenciesFitPrefix(ms[..|ms| - 1], ids, n);
      assert ms[..|ms| - 1][..n] == ms[..n];
    } else {
      assert ms[..n] == ms;
    }
  }

  method CleanAll(ms: seq<Member>, ids: set<string>) returns (r: Result<seq<Member>, SaveError>, dependencies: Edges)
    ensures r.Ok? <==> AllDependenciesFit(ms, ids)
    ensures r.Ok? ==> r.value == CleanMembers(ms) && dependencies == Dependencies(r.value)
    ensures r.Err? ==> exists m :: m in ms && BlamesDependencies(m.commandId, m.dependsOn, ids, r.error)
  {
    hide DependenciesFit, BlamesDependencies;
    var clean: seq<Member> := [];
    dependencies := map[];
    for i := 0 to |ms|
      invariant AllDependenciesFit(ms[..i], ids)
      invariant clean == CleanMembers(ms[..i]) && dependencies == Dependencies(clean)
    {
      if AllDependenciesFit(ms, ids) {
        AllDependenciesFitPrefix(ms, ids, i);
      }
      var deps := CleanDependencies(ms[i].commandId, ms[i].dependsOn, ids);
      if deps.Err? {
        return Err(deps.error), dependencies;
      }
      assert ms[..i + 1][..i] == ms[..i];
      assert (clean + [ms[i].(dependsOn := deps.value)])[..|clean|] == clean;
      clean := clean + [ms[i].(dependsOn := deps.value)];
      dependencies := dependencies[ms[i].commandId := deps.value];
    }
    assert ms[..|ms|] == ms;
    return Ok(clean), dependencies;
  }

  /** One depth-first search over all members, entered in whatever order the map yields them. */
  method FindDependencyCycle(g: Edges) returns (found: string)
    requires forall v :: "" !in Next(g, v)
    ensures found == "" <==> Acyclic(g)
    ensures found != "" ==> Leads(g, found, found)
  {
    hide Reaches, Leads, IsPath, Ordered, Distinct;
    var search := new P.CycleSearch(g, "");
    var rest := g.Keys;
    while rest != {}
      invariant rest <= g.Keys && search.deps == g && search.universe == Nodes(g) + {""}
      invariant search.Sound() && search.Valid() && search.open == []
      invariant g.Keys - rest <= search.visited
      decreases rest
    {
      var id :| id in rest;
      rest := rest - {id};
      found := search.Visit(id);
      if found != "" {
        return;
      }
    }
    forall v ensures !Leads(g, v, v) {
      if Leads(g, v, v) {
        var _ := LeadsFirstStep(g, v, v);
        OrderedHasNoCycle(g, search.done, v);
      }
    }
    found := "";
  }

  method ValidateMembers(ms: seq<Member>, commands: map<string, Command>) returns (r: Result<seq<Member>, SaveError>)
    ensures r.Ok? <==> Admissible(ms, commands)
    ensures r.Ok? ==> r.value == CleanMembers(ms) && TrimsTo(ms, r.value)
    ensures r.Err? ==> Explains(ms, commands, r.error)
  {
    hide Distinct, AllFieldsFit, AllDependenciesFit, Ids, CleanMembers, Acyclic, Dependencies, Leads, BlamesDependencies, TrimsTo;
    var error, seen := CheckFields(ms, commands);
    if error.Some? {
      return Err(error.value);
    }
    var dependencies;
    r, dependencies := CleanAll(ms, seen);
    if r.Err? {
      ghost var m :| m in ms && BlamesDependencies(m.commandId, m.dependsOn, seen, r.error);
      BlamedDependencies(ms, m, commands, r.error);
      return;
    }
    CleanMembersTrim(ms);
    CleanIsClosed(ms, seen);
    assert forall v :: v in dependencies ==> "" !in dependencies[v];
    var found := FindDependencyCycle(dependencies);
    if found != "" {
      return Err(DependencyCycle(found));
    }
  }

  /** Every dependency is one of ids, and none is blank. */
  predicate TargetsAmong(g: Edges, ids: set<string>) {
    forall v :: v in g ==> forall d :: d in g[v] ==> d in ids && d != ""
  }

  lemma Append(ms: seq<Member>, m: Member)
    ensures Dependencies(ms + [m]) == Dependencies(ms)[m.commandId := m.dependsOn]
    ensures Ids(ms + [m]) == Ids(ms) + [m.commandId]
  {
    assert (ms + [m])[..|ms|] == ms;
  }

  lemma CleanGrows(ms: seq<Member>)
    requires ms != []
    ensures Dependencies(CleanMembers(ms)) ==
            Dependencies(CleanMembers(ms[..|ms| - 1]))[ms[|ms| - 1].commandId := Cleaned(ms[|ms| - 1].dependsOn)]
    ensures Ids(CleanMembers(ms)) == Ids(CleanMembers(ms[..|ms| - 1])) + [ms[|ms| - 1].commandId]
  {
    hide Cleaned, Dependencies, Ids;
    Append(CleanMembers(ms[..|ms| - 1]), ms[|ms| - 1].(dependsOn := Cleaned(ms[|ms| - 1].dependsOn)));
  }

  lemma {:induction false} CleanIsClosed(ms: seq<Member>, ids: set<string>)
    requires AllDependenciesFit(ms, ids)
    ensures Ids(CleanMembers(ms)) == Ids(ms)
    ensures TargetsAmong(Dependencies(CleanMembers(ms)), ids)
  {
    hide CleanMembers, Dependencies, Cleaned, Distinct;
    if ms != [] {
      CleanIsClosed(ms[..|ms| - 1], ids);
      CleanGrows(ms);
      assert Ids(ms) == Ids(ms[..|ms| - 1]) + [ms[|ms| - 1].commandId];
      assert DependenciesFit(ms[|ms| - 1].commandId, ms[|ms| - 1].dependsOn, ids);
    } else {
      NothingToClean();
    }
  }

  lemma NothingToClean()
    ensures CleanMembers([]) == [] && Dependencies([]) == map[]
  {
  }

  /** Whatever a save admits can be ordered, so a stop of an admitted stack never fails on its graph. */
  lemma AdmittedHasOrder(ms: seq<Member>, commands: map<string, Command>)
    requires Admissible(ms, commands)
    ensures Acyclic(Dependencies(CleanMembers(ms))) && Closed(Dependencies(CleanMembers(ms)))
    ensures Distinct(Ids(CleanMembers(ms)))
  {
    hide Ids, CleanMembers, Dependencies, Acyclic, Distinct, AllFieldsFit, AllDependenciesFit;
    CleanIsClosed(ms, Elements(Ids(ms)));
    LookupFacts(CleanMembers(ms));
  }
}
