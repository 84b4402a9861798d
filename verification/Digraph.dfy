/**
 Finite directed graphs over string ids, as adjacency lists. An id that is not a
 key has no outgoing edges, which is how a lookup in the program's maps behaves.
 */
module Digraph {

  type Edges = map<string, seq<string>>

  function Next(g: Edges, v: string): seq<string> {
    if v in g then g[v] else []
  }

  /** Every id the graph mentions. */
  function Nodes(g: Edges): set<string> {
    g.Keys + set k, i | k in g && 0 <= i < |g[k]| :: g[k][i]
  }

  ghost predicate IsPath(g: Edges, p: seq<string>) {
    p != [] && (|p| > 1 ==> p[1] in Next(g, p[0]) && IsPath(g, p[1..]))
  }

  ghost predicate Joins(g: Edges, a: string, p: seq<string>, b: string) {
    IsPath(g, p) && p[0] == a && p[|p| - 1] == b
  }

  /** b is reachable from a over zero or more edges. */
  ghost predicate Reaches(g: Edges, a: string, b: string) {
    exists p :: Joins(g, a, p, b)
  }

  /** b is reachable from a over one or more edges. */
  ghost predicate Leads(g: Edges, a: string, b: string) {
    exists p :: |p| >= 2 && Joins(g, a, p, b)
  }

  ghost predicate Acyclic(g: Edges) {
    forall v :: !Leads(g, v, v)
  }

  /** Every dependency of an entry stands somewhere before it. */
  predicate Ordered(g: Edges, order: seq<string>) {
    order == [] ||
    var (before, last) := (order[..|order| - 1], order[|order| - 1]);
    Ordered(g, before) && forall d :: d in Next(g, last) ==> d in before
  }

  predicate Distinct<T(==)>(s: seq<T>) {
    s != [] ==> Distinct(s[..|s| - 1]) && s[|s| - 1] !in s[..|s| - 1]
  }

  function Elements<T>(s: seq<T>): set<T> {
    set x | x in s
  }

  lemma {:induction false} DistinctAt<T>(s: seq<T>, i: nat, j: nat)
    requires Distinct(s) && i < j < |s|
    ensures s[i] != s[j]
  {
    if j < |s| - 1 {
      DistinctAt(s[..|s| - 1], i, j);
    }
  }

  lemma NothingRepeats<T>()
    ensures Distinct<T>([])
  {
  }

  lemma RepeatedIsNotDistinct(ids: seq<string>, i: nat)
    requires i < |ids|
    ensures ids[i] in ids[..i] ==> !Distinct(ids)
  {
    hide Distinct;
    if ids[i] in ids[..i] && Distinct(ids) {
      var j :| 0 <= j < i && ids[j] == ids[i];
      DistinctAt(ids, j, i);
    }
  }

  lemma DistinctGrows<T>(s: seq<T>, x: T)
    requires Distinct(s) && x !in s
    ensures Distinct(s + [x])
  {
    assert (s + [x])[..|s|] == s;
  }

  lemma {:induction false} DistinctPrefix<T>(s: seq<T>, n: nat)
    requires Distinct(s) && n <= |s|
    ensures Distinct(s[..n])
  {
    if n < |s| {
      DistinctPrefix(s[..|s| - 1], n);
      assert s[..|s| - 1][..n] == s[..n];
    } else {
      assert s[..n] == s;
    }
  }

  // Paths

  lemma SelfReach(g: Edges, v: string)
    ensures Reaches(g, v, v)
  {
    assert Joins(g, v, [v], v);
  }

  lemma {:induction false} Glue(g: Edges, a: string, p: seq<string>, b: string, q: seq<string>, c: string)
    requires Joins(g, a, p, b) && Joins(g, b, q, c)
    ensures Joins(g, a, p + q[1..], c)
    decreases |p|
  {
    var r := p + q[1..];
    if |p| > 1 {
      Glue(g, p[1], p[1..], b, q, c);
      assert r[1..] == p[1..] + q[1..];
    } else {
      assert r == q;
    }
  }

  lemma {:induction false} Suffix(g: Edges, p: seq<string>, k: nat)
    requires IsPath(g, p) && k < |p|
    ensures IsPath(g, p[k..])
  {
    if k > 0 {
      Suffix(g, p[1..], k - 1);
      assert p[1..][k - 1..] == p[k..];
    } else {
      assert p[0..] == p;
    }
  }

  lemma ReachesTransitive(g: Edges, a: string, b: string, c: string)
    requires Reaches(g, a, b) && Reaches(g, b, c)
    ensures Reaches(g, a, c)
  {
    var p :| Joins(g, a, p, b);
    var q :| Joins(g, b, q, c);
    Glue(g, a, p, b, q, c);
  }

  /** An edge followed by a walk is a walk of at least one edge. */
  lemma StepThenReach(g: Edges, a: string, b: string, c: string)
    requires b in Next(g, a) && Reaches(g, b, c)
    ensures Leads(g, a, c) && Reaches(g, a, c)
  {
    var q :| Joins(g, b, q, c);
    assert Joins(g, a, [a] + q, c);
  }

  lemma ReachThenStep(g: Edges, a: string, b: string, c: string)
    requires Reaches(g, a, b) && c in Next(g, b)
    ensures Leads(g, a, c)
  {
    var p :| Joins(g, a, p, b);
    assert Joins(g, b, [b, c], c);
    Glue(g, a, p, b, [b, c], c);
  }

  /** The first edge of a non-trivial walk. */
  lemma LeadsFirstStep(g: Edges, a: string, c: string) returns (b: string)
    requires Leads(g, a, c)
    ensures b in Next(g, a) && Reaches(g, b, c)
  {
    var p :| |p| >= 2 && Joins(g, a, p, c);
    b := p[1];
    assert Joins(g, b, p[1..], c);
  }

  lemma ReachesCases(g: Edges, a: string, c: string)
    requires Reaches(g, a, c)
    ensures a == c || Leads(g, a, c)
  {
    var p :| Joins(g, a, p, c);
  }

  lemma LeadsReaches(g: Edges, a: string, b: string)
    requires Leads(g, a, b)
    ensures Reaches(g, a, b)
  {
    var p :| |p| >= 2 && Joins(g, a, p, b);
  }

  /** Whatever contains a and is closed under the edges contains all that a reaches. */
  lemma ClosedContainsReach(g: Edges, s: set<string>, a: string, b: string)
    requires a in s && Reaches(g, a, b)
    requires forall v, d :: v in s && d in Next(g, v) ==> d in s
    ensures b in s
  {
    var p :| Joins(g, a, p, b);
    ClosedContainsPath(g, s, p);
  }

  lemma {:induction false} ClosedContainsPath(g: Edges, s: set<string>, p: seq<string>)
    requires IsPath(g, p) && p[0] in s
    requires forall v, d :: v in s && d in Next(g, v) ==> d in s
    ensures p[|p| - 1] in s
  {
    if |p| > 1 {
      ClosedContainsPath(g, s, p[1..]);
    }
  }

  // Orders certify that there is no cycle

  lemma OrderedGrows(g: Edges, order: seq<string>, v: string)
    requires Ordered(g, order)
    requires forall d :: d in Next(g, v) ==> d in order
    ensures Ordered(g, order + [v])
  {
    assert (order + [v])[..|order|] == order;
  }

  lemma PathGrows(g: Edges, p: seq<string>, v: string)
    requires p != [] ==> IsPath(g, p) && v in Next(g, p[|p| - 1])
    ensures IsPath(g, p + [v])
  {
    if p != [] {
      var last := p[|p| - 1];
      assert Joins(g, last, [last, v], v);
      Glue(g, p[0], p, last, [last, v], v);
    }
  }

  lemma {:induction false} OrderedAt(g: Edges, order: seq<string>, i: nat)
    requires Ordered(g, order) && i < |order|
    ensures Ordered(g, order[..i])
    ensures forall d :: d in Next(g, order[i]) ==> d in order[..i]
  {
    var before := order[..|order| - 1];
    if i < |before| {
      OrderedAt(g, before, i);
      assert before[..i] == order[..i];
    }
  }

  /** In an order without repetition a dependency stands before its dependent. */
  lemma StandsBefore(g: Edges, order: seq<string>, i: nat, j: nat)
    requires Ordered(g, order) && Distinct(order) && i < |order| && j < |order|
    requires order[i] in Next(g, order[j])
    ensures i < j
  {
    hide Ordered, Distinct, Next;
    OrderedAt(g, order, j);
    var k :| 0 <= k < j && order[..j][k] == order[i];
    if k < i {
      DistinctAt(order, k, i);
    } else if i < k {
      DistinctAt(order, i, k);
    }
  }

  /** A walk of one edge or more from an entry ends strictly before that entry. */
  lemma {:induction false} OrderedPathGoesBack(g: Edges, order: seq<string>, i: nat, p: seq<string>)
    requires Ordered(g, order) && i < |order|
    requires IsPath(g, p) && |p| >= 2 && p[0] == order[i]
    ensures p[|p| - 1] in order[..i]
    decreases |p|
  {
    OrderedAt(g, order, i);
    var j :| 0 <= j < i && order[j] == p[1];
    if |p| > 2 {
      OrderedPathGoesBack(g, order, j, p[1..]);
    }
  }

  lemma OrderedHasNoCycle(g: Edges, order: seq<string>, v: string)
    requires Ordered(g, order) && v in order
    ensures !Leads(g, v, v)
  {
    if Leads(g, v, v) {
      var p :| |p| >= 2 && Joins(g, v, p, v);
      var i := FirstIndex(order, v);
      OrderedPathGoesBack(g, order, i, p);
    }
  }

  lemma OrderedIsClosed(g: Edges, order: seq<string>, v: string, u: string)
    requires Ordered(g, order) && v in order && Reaches(g, v, u)
    ensures u in order
  {
    forall w, d | w in Elements(order) && d in Next(g, w) ensures d in Elements(order) {
      var i :| 0 <= i < |order| && order[i] == w;
      OrderedAt(g, order, i);
      assert d in order[..i];
    }
    ClosedContainsReach(g, Elements(order), v, u);
  }

  lemma {:induction false} FirstIndex(s: seq<string>, v: string) returns (i: nat)
    requires v in s
    ensures i < |s| && s[i] == v && v !in s[..i]
  {
    i := 0;
    while s[i] != v
      invariant i < |s| && v !in s[..i] && v in s[i..]
      decreases |s| - i
    {
      i := i + 1;
    }
  }

  // Depth-first search

  /**
   The bookkeeping of a depth-first search: `open` lists the calls in progress, outermost
   first, and `done` the finished ones in the order in which they finished.
   */
  ghost predicate Searching(g: Edges, visiting: set<string>, visited: set<string>, open: seq<string>, done: seq<string>) {
    && (open != [] ==> IsPath(g, open))
    && (forall v :: v in visiting <==> v in open)
    && (forall v :: v in visited <==> v in done)
    && visiting !! visited
    && Ordered(g, done)
    && Distinct(done)
  }

  lemma CallOpens(g: Edges, visiting: set<string>, visited: set<string>, open: seq<string>, done: seq<string>, id: string)
    requires Searching(g, visiting, visited, open, done)
    requires id !in visiting && id !in visited
    requires open != [] ==> id in Next(g, open[|open| - 1])
    ensures Searching(g, visiting + {id}, visited, open + [id], done)
  {
    PathGrows(g, open, id);
  }

  lemma CallCloses(g: Edges, visiting: set<string>, visited: set<string>, open: seq<string>, done: seq<string>, id: string)
    requires Searching(g, visiting + {id}, visited, open + [id], done)
    requires id !in visiting && (open != [] ==> IsPath(g, open)) && (forall v :: v in visiting <==> v in open)
    requires forall d :: d in Next(g, id) ==> d in visited
    ensures Searching(g, visiting, visited + {id}, open, done + [id])
  {
    OrderedGrows(g, done, id);
    DistinctGrows(done, id);
  }

  /** A call for an id whose own call is still open has found a cycle through that id. */
  lemma ReentryIsCycle(g: Edges, visiting: set<string>, visited: set<string>, open: seq<string>, done: seq<string>, id: string)
    requires Searching(g, visiting, visited, open, done)
    requires id in visiting && id in Next(g, open[|open| - 1])
    ensures Leads(g, id, id)
  {
    var k :| 0 <= k < |open| && open[k] == id;
    Suffix(g, open, k);
    assert Joins(g, id, open[k..], open[|open| - 1]);
    ReachThenStep(g, id, open[|open| - 1], id);
  }

  // Acyclic graphs have a rank: the set of ids that can still be reached

  ghost function Reach(g: Edges, v: string): set<string> {
    set u | u in Nodes(g) + {v} && Reaches(g, v, u)
  }

  lemma ReachesStaysInside(g: Edges, v: string, u: string)
    requires Reaches(g, v, u)
    ensures u in Nodes(g) + {v}
  {
    ClosedContainsReach(g, Nodes(g) + {v}, v, u);
  }

  lemma ReachShrinks(g: Edges, v: string, w: string)
    requires Acyclic(g) && w in Next(g, v)
    ensures Reach(g, w) < Reach(g, v)
  {
    SelfReach(g, v);
    forall u | u in Reach(g, w) ensures u in Reach(g, v) && u != v {
      StepThenReach(g, v, w, u);
      ReachesStaysInside(g, v, u);
    }
    assert v in Reach(g, v) && v !in Reach(g, w);
  }

  /** In an acyclic graph every non-empty finite set has a member with no edge back into the set. */
  lemma {:induction false} MinimalMember(g: Edges, s: set<string>, start: string) returns (m: string)
    requires Acyclic(g) && start in s
    ensures m in s && forall d :: d in Next(g, m) ==> d !in s
    decreases Reach(g, start)
  {
    if d :| d in Next(g, start) && d in s {
      ReachShrinks(g, start, d);
      m := MinimalMember(g, s, d);
    } else {
      m := start;
    }
  }

  // Changing the edges of one id

  /** A walk outside s does not notice that the edges out of s changed. */
  lemma {:induction false} WalkOutside(g: Edges, h: Edges, s: set<string>, p: seq<string>)
    requires IsPath(h, p) && forall w :: w in p ==> w !in s
    requires forall w :: w !in s ==> Next(g, w) == Next(h, w)
    ensures IsPath(g, p)
  {
    if |p| > 1 {
      assert p[0] in p && forall w :: w in p[1..] ==> w in p;
      WalkOutside(g, h, s, p[1..]);
    }
  }

  /** A cycle in the changed graph is an old one, or it runs into the ids whose edges changed. */
  lemma CycleOldOrThroughChanged(g: Edges, h: Edges, s: set<string>, u: string)
    requires Leads(h, u, u)
    requires forall w :: w !in s ==> Next(g, w) == Next(h, w)
    ensures Leads(g, u, u) || exists v :: v in s && Reaches(h, u, v) && Reaches(h, v, u)
  {
    var p :| |p| >= 2 && Joins(h, u, p, u);
    if k :| 0 <= k < |p| && p[k] in s {
      Suffix(h, p, k);
      Prefix(h, p, k);
      assert Joins(h, p[k], p[k..], u) && Joins(h, u, p[..k + 1], p[k]);
      assert Reaches(h, u, p[k]) && Reaches(h, p[k], u);
    } else {
      WalkOutside(g, h, s, p);
      assert Joins(g, u, p, u);
    }
  }

  lemma {:induction false} Prefix(g: Edges, p: seq<string>, k: nat)
    requires IsPath(g, p) && k < |p|
    ensures IsPath(g, p[..k + 1])
  {
    if k > 0 {
      Prefix(g, p[1..], k - 1);
      assert p[..k + 1][1..] == p[1..][..k];
    }
  }

  lemma NewCycleThroughChanged(g: Edges, v: string, ids: seq<string>, h: Edges, u: string)
    requires h == g[v := ids] && Leads(h, u, u)
    ensures Leads(g, u, u) || (Reaches(h, v, u) && Reaches(h, u, v))
  {
    CycleOldOrThroughChanged(g, h, {v}, u);
  }

  /** New edges to ids that did not reach v before cannot close a cycle. */
  lemma HarmlessEdges(g: Edges, v: string, ids: seq<string>, h: Edges)
    requires Acyclic(g) && h == g[v := ids]
    requires forall d :: d in ids ==> !Reaches(g, d, v)
    ensures Acyclic(h)
  {
    forall u ensures !Leads(h, u, u) {
      if Leads(h, u, u) {
        NewCycleThroughChanged(g, v, ids, h, u);
        BackToChanged(h, v, u);
        var d := LeadsFirstStep(h, v, v);
        ReachesBeforeChange(g, v, ids, h, d);
      }
    }
  }

  lemma BackToChanged(h: Edges, v: string, u: string)
    requires Leads(h, u, u) && Reaches(h, v, u) && Reaches(h, u, v)
    ensures Leads(h, v, v)
  {
    if u != v {
      ReachesCases(h, v, u);
      var b := LeadsFirstStep(h, v, u);
      ReachesTransitive(h, b, u, v);
      StepThenReach(h, v, b, v);
    }
  }

  /** The way to v, up to its first arrival there, does not use the edges out of v. */
  lemma ReachesBeforeChange(g: Edges, v: string, ids: seq<string>, h: Edges, a: string)
    requires h == g[v := ids] && Reaches(h, a, v)
    ensures Reaches(g, a, v)
  {
    var p :| Joins(h, a, p, v);
    var k := FirstIndex(p, v);
    if k == 0 {
      SelfReach(g, v);
    } else {
      Prefix(h, p, k - 1);
      WalkOutside(g, h, {v}, p[..k]);
      assert Joins(g, a, p[..k], p[k - 1]);
      StepOf(h, p, k - 1);
      ReachThenStep(g, a, p[k - 1], v);
      LeadsReaches(g, a, v);
    }
  }

  lemma {:induction false} StepOf(g: Edges, p: seq<string>, i: nat)
    requires IsPath(g, p) && i + 1 < |p|
    ensures p[i + 1] in Next(g, p[i])
  {
    if i > 0 {
      StepOf(g, p[1..], i - 1);
    }
  }

  lemma OnlyCyclesThroughChanged(g: Edges, v: string, ids: seq<string>, h: Edges)
    requires Acyclic(g) && h == g[v := ids]
    requires forall u :: Reaches(h, v, u) ==> !Leads(h, u, u)
    ensures Acyclic(h)
  {
    forall u ensures !Leads(h, u, u) {
      if Leads(h, u, u) {
        NewCycleThroughChanged(g, v, ids, h, u);
      }
    }
  }

  lemma {:induction false} PathWithMoreEdges(g: Edges, h: Edges, p: seq<string>)
    requires IsPath(h, p)
    requires forall v, d :: d in Next(h, v) ==> d in Next(g, v)
    ensures IsPath(g, p)
  {
    if |p| > 1 {
      PathWithMoreEdges(g, h, p[1..]);
    }
  }

  lemma LeadsWithMoreEdges(g: Edges, h: Edges, a: string, b: string)
    requires Leads(h, a, b)
    requires forall v, d :: d in Next(h, v) ==> d in Next(g, v)
    ensures Leads(g, a, b)
  {
    var p :| |p| >= 2 && Joins(h, a, p, b);
    PathWithMoreEdges(g, h, p);
    assert Joins(g, a, p, b);
  }

  lemma FewerEdges(g: Edges, h: Edges)
    requires Acyclic(g)
    requires forall v, d :: d in Next(h, v) ==> d in Next(g, v)
    ensures Acyclic(h)
  {
    forall u ensures !Leads(h, u, u) {
      if Leads(h, u, u) {
        LeadsWithMoreEdges(g, h, u, u);
      }
    }
  }
}
