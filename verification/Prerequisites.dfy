/**
 Prerequisites between stacks: normalization, the cycle search, the checks made
 before a stack is saved, and the stored table that must stay acyclic.
 */
module Prerequisites {
  import opened Digraph
  import opened Positions
  import opened Results
  import opened Text

  const DEFAULT_TIMEOUT_MS := 90000
  const MIN_TIMEOUT_MS := 100
  const MAX_TIMEOUT_MS := 600000

  datatype Edge = Edge(stackId: string, waitTimeoutMs: int)

  datatype Error =
    | SelfDependency
    | Duplicate(id: string)
    | BadTimeout(id: string)
    | Unknown(id: string)
    | Cycle(id: string)
    | HasChecks
    | NotFound

  // Normalization

  function Normalized(edges: seq<Edge>): seq<Edge> {
    if edges == [] then []
    else
      var e := edges[|edges| - 1];
      var before := Normalized(edges[..|edges| - 1]);
      if Trim(e.stackId) == "" then before
      else before + [Edge(Trim(e.stackId), if e.waitTimeoutMs == 0 then DEFAULT_TIMEOUT_MS else e.waitTimeoutMs)]
  }

  /** out has one edge for each edge with an id, taken from the positions at, with its id trimmed and its timeout filled in. */
  ghost predicate TakenFrom(edges: seq<Edge>, out: seq<Edge>, at: seq<nat>) {
    && |at| == |out| && Increasing(at)
    && (forall i: nat :: i in at <==> i < |edges| && Trim(edges[i].stackId) != "")
    && forall k :: 0 <= k < |out| ==>
         && at[k] in at
         && out[k].stackId == Trim(edges[at[k]].stackId)
         && out[k].waitTimeoutMs == if edges[at[k]].waitTimeoutMs == 0 then DEFAULT_TIMEOUT_MS else edges[at[k]].waitTimeoutMs
  }

  ghost predicate KeepsEdges(edges: seq<Edge>, out: seq<Edge>) {
    exists at: seq<nat> :: TakenFrom(edges, out, at)
  }

  lemma TakesNext(edges: seq<Edge>, out: seq<Edge>, at: seq<nat>, e: Edge)
    requires TakenFrom(edges, out, at)
    ensures Trim(e.stackId) == "" ==> TakenFrom(edges + [e], out, at)
    ensures Trim(e.stackId) != "" ==>
              TakenFrom(edges + [e],
                        out + [Edge(Trim(e.stackId), if e.waitTimeoutMs == 0 then DEFAULT_TIMEOUT_MS else e.waitTimeoutMs)],
                        at + [|edges|])
  {
    hide Trim;
  }

  method NormalizeStackPrerequisites(edges: seq<Edge>) returns (out: seq<Edge>)
    ensures out == Normalized(edges)
    ensures KeepsEdges(edges, out)
  {
    hide TakenFrom;
    out := [];
    ghost var at: seq<nat> := [];
    assert TakenFrom(edges[..0], out, at) by {
      NothingToTake();
    }
    for i := 0 to |edges|
      invariant out == Normalized(edges[..i])
      invariant TakenFrom(edges[..i], out, at)
    {
      TakesNext(edges[..i], out, at, edges[i]);
      assert edges[..i + 1] == edges[..i] + [edges[i]];
      assert edges[..i + 1][..i] == edges[..i];
      var id := Trim(edges[i].stackId);
      if id == "" {
        continue;
      }
      var wait := edges[i].waitTimeoutMs;
      if wait == 0 {
        wait := DEFAULT_TIMEOUT_MS;
      }
      out := out + [Edge(id, wait)];
      at := at + [i];
    }
    assert edges[..|edges|] == edges;
  }

  lemma NothingToTake()
    ensures TakenFrom([], [], [])
  {
  }

  predicate Clean(e: Edge) {
    e.stackId != "" && Trimmed(e.stackId) && e.waitTimeoutMs != 0
  }

  lemma {:induction false} NormalizedIsClean(edges: seq<Edge>)
    ensures forall e :: e in Normalized(edges) ==> Clean(e)
  {
    if edges != [] {
      NormalizedIsClean(edges[..|edges| - 1]);
      TrimTrims(edges[|edges| - 1].stackId);
    }
  }

  /** Normalizing leaves a list of clean edges alone, so it is idempotent. */
  lemma {:induction false} NormalizedKeepsClean(edges: seq<Edge>)
    requires forall e :: e in edges ==> Clean(e)
    ensures Normalized(edges) == edges
  {
    if edges != [] {
      var last := edges[|edges| - 1];
      assert last in edges;
      NormalizedKeepsClean(edges[..|edges| - 1]);
      TrimTrims(last.stackId);
      assert edges == edges[..|edges| - 1] + [last];
    }
  }

  function Targets(edges: seq<Edge>): (ids: seq<string>)
    ensures |ids| == |edges|
    ensures forall i :: 0 <= i < |ids| ==> ids[i] == edges[i].stackId
  {
    seq(|edges|, i requires 0 <= i < |edges| => edges[i].stackId)
  }

  lemma CleanTargets(edges: seq<Edge>)
    ensures "" !in Targets(Normalized(edges))
  {
    NormalizedIsClean(edges);
    var clean := Normalized(edges);
    forall i | 0 <= i < |clean| ensures Targets(clean)[i] != "" {
      assert clean[i] in clean;
    }
  }

  // Cycle search

  /** The state shared by one depth-first search: which calls are open and which are done. */
  class CycleSearch {
    const deps: Edges
    ghost const universe: set<string>
    var visiting: set<string>
    var visited: set<string>
    ghost var open: seq<string>   // the open calls, outermost first
    ghost var done: seq<string>   // the finished calls, in the order in which they finished

    ghost predicate Sound() {
      Nodes(deps) <= universe && forall v :: "" !in Next(deps, v)
    }

    ghost predicate Valid()
      reads this
    {
      Searching(deps, visiting, visited, open, done)
    }

    constructor (deps: Edges, ghost start: string)
      requires forall v :: "" !in Next(deps, v)
      ensures this.deps == deps && universe == Nodes(deps) + {start}
      ensures Sound() && Valid() && open == [] && visiting == {} && visited == {}
    {
      this.deps := deps;
      universe := Nodes(deps) + {start};
      visiting, visited, open, done := {}, {}, [], [];
    }

    method Visit(id: string) returns (found: string)
      requires Sound() && Valid() && id in universe
      requires open != [] ==> id in Next(deps, open[|open| - 1])
      modifies this
      ensures found == "" ==> Valid() && visiting == old(visiting) && open == old(open)
      ensures found == "" ==> old(visited) <= visited && id in visited
      ensures found != "" ==> Reaches(deps, id, found) && Leads(deps, found, found)
      decreases universe - visiting - visited
    {
      hide Reaches, Leads, IsPath, Ordered, Distinct;
      if id in visiting {
        ReentryIsCycle(deps, visiting, visited, open, done, id);
        SelfReach(deps, id);
        return id;
      }
      if id in visited {
        return "";
      }
      CallOpens(deps, visiting, visited, open, done, id);
      visiting := visiting + {id};
      open := open + [id];
      var next := Next(deps, id);
      for i := 0 to |next|
        invariant Valid() && open == old(open) + [id] && visiting == old(visiting) + {id}
        invariant old(visited) <= visited
        invariant forall j :: 0 <= j < i ==> next[j] in visited
      {
        assert next[i] in Nodes(deps);
        assert id in old(universe - visiting - visited) && id !in universe - visiting - visited;
        found := Visit(next[i]);
        if found != "" {
          StepThenReach(deps, id, next[i], found);
          return;
        }
      }
      CallCloses(deps, old(visiting), visited, old(open), done, id);
      visiting := visiting - {id};
      visited := visited + {id};
      open := old(open);
      done := done + [id];
      found := "";
    }
  }

  /** The graph with the prerequisites of start replaced by the candidate edges. */
  function Candidate(start: string, edges: seq<Edge>, graph: Edges): Edges {
    graph[start := Targets(edges)]
  }

  method StackPrerequisiteCycle(start: string, edges: seq<Edge>, graph: Edges) returns (found: string)
    requires forall e :: e in edges ==> e.stackId != ""
    requires forall v :: v in graph ==> "" !in graph[v]
    ensures found == "" <==>
            forall v :: Reaches(Candidate(start, edges, graph), start, v) ==> !Leads(Candidate(start, edges, graph), v, v)
    ensures found != "" ==>
              && Reaches(Candidate(start, edges, graph), start, found)
              && Leads(Candidate(start, edges, graph), found, found)
  {
    var ids: seq<string> := [];
    for i := 0 to |edges|
      invariant ids == Targets(edges[..i])
    {
      ids := ids + [edges[i].stackId];
    }
    assert edges[..|edges|] == edges;
    var deps := graph[start := ids];
    assert forall v :: "" !in Next(deps, v) by {
      assert forall id :: id in ids ==> exists i :: 0 <= i < |edges| && edges[i] in edges && edges[i].stackId == id;
    }
    assert deps == Candidate(start, edges, graph);
    var search := new CycleSearch(deps, start);
    found := search.Visit(start);
    if found == "" {
      forall v | Reaches(deps, start, v) ensures !Leads(deps, v, v) {
        OrderedIsClosed(deps, search.done, start, v);
        OrderedHasNoCycle(deps, search.done, v);
      }
    }
  }

  // The stored table

  type Table = map<string, seq<Edge>>

  /** The prerequisite graph of the stored stacks. */
  function GraphOf(stacks: Table): Edges {
    map id | id in stacks :: Targets(Normalized(stacks[id]))
  }

  /** What a caller may read off a list of edges before it asks for the cycle search. */
  predicate WellFormed(stacks: Table, id: string, edges: seq<Edge>) {
    && Distinct(Targets(edges))
    && forall e :: e in edges ==> EdgeFits(stacks, id, e)
  }

  predicate EdgeFits(stacks: Table, id: string, e: Edge) {
    && (id != "" ==> e.stackId != id)
    && MIN_TIMEOUT_MS <= e.waitTimeoutMs <= MAX_TIMEOUT_MS
    && e.stackId in stacks
  }

  ghost predicate Acceptable(stacks: Table, id: string, edges: seq<Edge>) {
    && WellFormed(stacks, id, Normalized(edges))
    && var h := Candidate(id, Normalized(edges), GraphOf(stacks));
       forall v :: Reaches(h, id, v) ==> !Leads(h, v, v)
  }

  lemma GraphHasNoBlank(stacks: Table)
    ensures forall v :: v in GraphOf(stacks) ==> "" !in GraphOf(stacks)[v]
  {
    forall v | v in stacks ensures "" !in GraphOf(stacks)[v] {
      CleanTargets(stacks[v]);
    }
  }

  /** A reported fault of a list of edges is there. */
  ghost predicate Explains(stacks: Table, id: string, edges: seq<Edge>, e: Error) {
    match e
    case SelfDependency => id != "" && exists x :: x in edges && x.stackId == id
    case Duplicate(d) => exists i, j :: 0 <= i < j < |edges| && edges[i].stackId == d == edges[j].stackId
    case BadTimeout(d) => exists x :: x in edges && x.stackId == d && !(MIN_TIMEOUT_MS <= x.waitTimeoutMs <= MAX_TIMEOUT_MS)
    case Unknown(d) => d !in stacks && exists x :: x in edges && x.stackId == d
    case Cycle(v) =>
      var h := Candidate(id, edges, GraphOf(stacks));
      Reaches(h, id, v) && Leads(h, v, v)
    case _ => false
  }

  method CheckEdges(stacks: Table, id: string, clean: seq<Edge>) returns (r: Result<seq<Edge>, Error>)
    ensures r.Ok? <==> WellFormed(stacks, id, clean)
    ensures r.Ok? ==> r.value == clean
    ensures r.Err? ==> Explains(stacks, id, clean, r.error)
  {
    hide Targets, Distinct, EdgeFits, GraphOf, Candidate;
    NothingRepeats<string>();
    var ids := Targets(clean);
    var seen: set<string> := {};
    for i := 0 to |clean|
      invariant forall j :: 0 <= j < i ==> EdgeFits(stacks, id, clean[j])
      invariant Distinct(ids[..i])
      invariant forall s :: s in seen <==> s in ids[..i]
    {
      var e := clean[i];
      assert e in clean && ids[i] == e.stackId;
      EdgeTests(stacks, id, e);
      RepeatedIsNotDistinct(ids, i);
      if id != "" && e.stackId == id {
        return Err(SelfDependency);
      }
      if e.stackId in seen {
        ghost var j :| 0 <= j < i && ids[j] == e.stackId;
        assert clean[j].stackId == clean[i].stackId;
        return Err(Duplicate(e.stackId));
      }
      seen := seen + {e.stackId};
      if e.waitTimeoutMs < MIN_TIMEOUT_MS || e.waitTimeoutMs > MAX_TIMEOUT_MS {
        return Err(BadTimeout(e.stackId));
      }
      if e.stackId !in stacks {
        return Err(Unknown(e.stackId));
      }
      DistinctGrows(ids[..i], e.stackId);
      assert ids[..i + 1] == ids[..i] + [e.stackId];
    }
    assert ids[..|ids|] == ids;
    return Ok(clean);
  }

  lemma EdgeTests(stacks: Table, id: string, e: Edge)
    ensures EdgeFits(stacks, id, e) <==>
            && !(id != "" && e.stackId == id) && MIN_TIMEOUT_MS <= e.waitTimeoutMs <= MAX_TIMEOUT_MS && e.stackId in stacks
  {
  }

  /** The graph of every stored stack but one. */
  method GraphWithout(stacks: Table, id: string) returns (graph: Edges)
    ensures graph == GraphOf(stacks) - {id}
  {
    graph := map[];
    var rest := stacks.Keys;
    while rest != {}
      invariant rest <= stacks.Keys
      invariant graph.Keys == stacks.Keys - rest - {id}
      invariant forall k :: k in graph ==> graph[k] == Targets(Normalized(stacks[k]))
      decreases rest
    {
      var k :| k in rest;
      rest := rest - {k};
      if k == id {
        continue;
      }
      var own := NormalizeStackPrerequisites(stacks[k]);
      graph := graph[k := Targets(own)];
    }
  }

  /** The stack's own edges in the graph do not matter to the search, which replaces them. */
  lemma CandidateWithout(stacks: Table, id: string, edges: seq<Edge>)
    ensures Candidate(id, edges, GraphOf(stacks) - {id}) == Candidate(id, edges, GraphOf(stacks))
  {
    hide GraphOf;
  }

  method ValidateStackPrerequisites(stacks: Table, id: string, edges: seq<Edge>) returns (r: Result<seq<Edge>, Error>)
    ensures r.Ok? <==> Acceptable(stacks, id, edges)
    ensures r.Ok? ==> r.value == Normalized(edges) && KeepsEdges(edges, r.value)
    ensures r.Err? ==> Explains(stacks, id, Normalized(edges), r.error)
  {
    hide KeepsEdges, Reaches, Leads, WellFormed, Normalized, GraphOf, Targets;
    var clean := NormalizeStackPrerequisites(edges);
    r := CheckEdges(stacks, id, clean);
    if r.Err? {
      return;
    }
    var graph := GraphWithout(stacks, id);
    NormalizedIsClean(edges);
    GraphHasNoBlank(stacks);
    CandidateWithout(stacks, id, clean);
    var found := StackPrerequisiteCycle(id, clean, graph);
    if found != "" {
      return Err(Cycle(found));
    }
  }

  method ValidateAppliedPrerequisiteGraph(stacks: Table) returns (cycle: string)
    ensures cycle == "" <==> Acyclic(GraphOf(stacks))
    ensures cycle != "" ==> Leads(GraphOf(stacks), cycle, cycle)
  {
    var graph := GraphOf(stacks);
    GraphHasNoBlank(stacks);
    var rest := stacks.Keys;
    while rest != {}
      invariant rest <= stacks.Keys
      invariant forall id :: id in stacks.Keys - rest ==> !Leads(graph, id, id)
      decreases rest
    {
      var id :| id in rest;
      rest := rest - {id};
      var own := NormalizeStackPrerequisites(stacks[id]);
      NormalizedIsClean(stacks[id]);
      assert Candidate(id, own, graph) == graph;
      cycle := StackPrerequisiteCycle(id, own, graph);
      if cycle != "" {
        return;
      }
      SelfReach(graph, id);
    }
    forall v ensures !Leads(graph, v, v) {
      if Leads(graph, v, v) {
        var _ := LeadsFirstStep(graph, v, v);
      }
    }
    cycle := "";
  }

  /** Overwrites rows one after the other, as the catalog's upserts do. */
  function Upsert(stacks: Table, rows: seq<(string, seq<Edge>)>): Table {
    if rows == [] then stacks
    else Upsert(stacks, rows[..|rows| - 1])[rows[|rows| - 1].0 := rows[|rows| - 1].1]
  }

  /** The last row with an id wins. */
  lemma {:induction false} LastRowWins(stacks: Table, rows: seq<(string, seq<Edge>)>, i: nat)
    requires i < |rows| && forall j :: i < j < |rows| ==> rows[j].0 != rows[i].0
    ensures rows[i].0 in Upsert(stacks, rows) && Upsert(stacks, rows)[rows[i].0] == rows[i].1
  {
    if i < |rows| - 1 {
      LastRowWins(stacks, rows[..|rows| - 1], i);
    }
  }

  /** Stacks without a row keep what is stored. */
  lemma {:induction false} OthersStay(stacks: Table, rows: seq<(string, seq<Edge>)>, id: string)
    requires forall i :: 0 <= i < |rows| ==> rows[i].0 != id
    ensures id in Upsert(stacks, rows) <==> id in stacks
    ensures id in stacks ==> Upsert(stacks, rows)[id] == stacks[id]
  {
    if rows != [] {
      OthersStay(stacks, rows[..|rows| - 1], id);
    }
  }

  /** The stored stacks, reduced to their prerequisites. Requests run one at a time. */
  class StackTable {
    var stacks: Table

    ghost predicate Valid()
      reads this
    {
      Acyclic(GraphOf(stacks))
    }

    constructor ()
      ensures Valid() && stacks == map[]
    {
      stacks := map[];
      new;
      forall v ensures !Leads(GraphOf(stacks), v, v) {
        if Leads(GraphOf(stacks), v, v) {
          var _ := LeadsFirstStep(GraphOf(stacks), v, v);
        }
      }
    }

    /** A stack is created or updated; the search starts at the saved stack only. */
    method Save(id: string, edges: seq<Edge>) returns (r: Result<seq<Edge>, Error>)
      requires Valid() && id != ""
      modifies this
      ensures Valid()
      ensures r.Ok? <==> Acceptable(old(stacks), id, edges)
      ensures stacks == if r.Ok? then old(stacks)[id := Normalized(edges)] else old(stacks)
      ensures r.Ok? ==> r.value == stacks[id] && KeepsEdges(edges, stacks[id])
      ensures r.Err? ==> Explains(stacks, id, Normalized(edges), r.error)
    {
      hide KeepsEdges;
      r := ValidateStackPrerequisites(stacks, id, edges);
      if r.Ok? {
        var before := stacks;
        stacks := stacks[id := r.value];
        SavedGraph(before, id, edges);
      }
    }

    /** checks counts the checks attached to the stack. Edges that point at a deleted stack stay behind and lead nowhere. */
    method Delete(id: string, checks: nat) returns (error: Option<Error>)
      requires Valid()
      modifies this
      ensures Valid()
      ensures error.None? <==> checks == 0 && id in old(stacks)
      ensures stacks == if error.None? then old(stacks) - {id} else old(stacks)
    {
      if checks > 0 {
        return Some(HasChecks);
      }
      if id !in stacks {
        return Some(NotFound);
      }
      FewerEdges(GraphOf(stacks), GraphOf(stacks - {id}));
      stacks := stacks - {id};
      return None;
    }

    /** The stack rows of one catalog bundle, written in a transaction. */
    method Apply(rows: seq<(string, seq<Edge>)>, dryRun: bool) returns (conflict: string)
      requires Valid()
      modifies this
      ensures Valid()
      ensures conflict == "" <==> Acyclic(GraphOf(Upsert(old(stacks), rows)))
      ensures stacks == if conflict == "" && !dryRun then Upsert(old(stacks), rows) else old(stacks)
    {
      var tx := stacks;
      for i := 0 to |rows|
        invariant tx == Upsert(stacks, rows[..i])
      {
        assert rows[..i + 1][..i] == rows[..i];
        tx := tx[rows[i].0 := rows[i].1];
      }
      assert rows[..|rows|] == rows;
      conflict := ValidateAppliedPrerequisiteGraph(tx);
      if conflict == "" && !dryRun {
        stacks := tx;
      }
    }
  }

  /** Although the search starts at the saved stack only, the whole graph stays acyclic. */
  lemma SavedGraph(stacks: Table, id: string, edges: seq<Edge>)
    requires Acyclic(GraphOf(stacks)) && Acceptable(stacks, id, edges)
    ensures Acyclic(GraphOf(stacks[id := Normalized(edges)]))
  {
    hide Reaches, Leads, Normalized, Clean;
    NormalizedIsClean(edges);
    NormalizedKeepsClean(Normalized(edges));
    var h := Candidate(id, Normalized(edges), GraphOf(stacks));
    assert GraphOf(stacks[id := Normalized(edges)]) == h;
    OnlyCyclesThroughChanged(GraphOf(stacks), id, Targets(Normalized(edges)), h);
  }

  lemma NoPrerequisitesAreAcceptable(stacks: Table, id: string)
    ensures Normalized([]) == [] && Acceptable(stacks, id, [])
  {
    hide Reaches, Leads;
    assert Targets([]) == [];
    NothingReachesCycle(Candidate(id, [], GraphOf(stacks)), id);
  }

  lemma NothingReachesCycle(h: Edges, b: string)
    requires Next(h, b) == []
    ensures forall v :: Reaches(h, b, v) ==> !Leads(h, v, v)
  {
    hide Reaches, Leads;
    forall v | Reaches(h, b, v) ensures !Leads(h, v, v) {
      ClosedContainsReach(h, {b}, b, v);
      if Leads(h, v, v) {
        var _ := LeadsFirstStep(h, v, v);
      }
    }
  }

  lemma SelfLoopIsCycle(g: Edges, a: string)
    requires a in Next(g, a)
    ensures !Acyclic(g)
  {
    hide Reaches, Leads;
    SelfReach(g, a);
    StepThenReach(g, a, a, a);
  }

  lemma OwnPrerequisite(stacks: Table, a: string)
    requires a in stacks && stacks[a] == [Edge(a, MIN_TIMEOUT_MS)] && a != "" && Trimmed(a)
    ensures a in Next(GraphOf(stacks), a)
  {
    NormalizedKeepsClean(stacks[a]);
    assert Targets(stacks[a])[0] == a;
  }

  /** Without the whole-graph premise the search from the saved stack would not be enough. */
  lemma LocalSearchAloneIsBlind(a: string, b: string) returns (stacks: Table)
    requires a != b && a != "" && Trimmed(a)
    ensures Acceptable(stacks, b, [])
    ensures !Acyclic(GraphOf(stacks[b := Normalized([])]))
  {
    hide Acceptable, GraphOf, Acyclic, Normalized;
    stacks := map[a := [Edge(a, MIN_TIMEOUT_MS)]];
    NoPrerequisitesAreAcceptable(stacks, b);
    OwnPrerequisite(stacks[b := []], a);
    SelfLoopIsCycle(GraphOf(stacks[b := []]), a);
  }
}
