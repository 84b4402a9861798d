/** Parent pointers of HTTP folders and catalog collections: every request keeps them a forest. */
module ParentForest {
  import opened Digraph
  import opened Results

  /** A row with a parent pointer; the empty string stands for no parent. */
  datatype Node = Node(project: string, parent: string)

  type Table = map<string, Node>

  function ParentOf(n: Node): seq<string> {
    if n.parent == "" then [] else [n.parent]
  }

  function Parents(t: Table): Edges {
    map id | id in t :: ParentOf(t[id])
  }

  /** No blank id, no pointer to a missing row, no row above itself. */
  ghost predicate Forest(t: Table) {
    && "" !in t
    && (forall id :: id in t && t[id].parent != "" ==> t[id].parent in t)
    && Acyclic(Parents(t))
  }

  /** above is an ancestor of id, at any distance. */
  ghost predicate Above(t: Table, above: string, id: string) {
    Leads(Parents(t), id, above)
  }

  datatype Error = OwnParent | NoSuchParent | OtherProject | ParentCycle | NotFound | Referenced

  /** What a pointer from id to parent must satisfy. */
  ghost predicate Allowed(t: Table, id: string, project: string, parent: string) {
    parent != "" ==>
      && parent != id && parent in t && t[parent].project == project
      && !Above(t, id, parent)
  }

  lemma ParentStep(t: Table, id: string)
    requires Forest(t) && id in t && t[id].parent != ""
    ensures t[id].parent in Next(Parents(t), id) && t[id].parent in t
    ensures Reach(Parents(t), t[id].parent) < Reach(Parents(t), id)
    ensures forall v :: Above(t, v, id) <==> v == t[id].parent || Above(t, v, t[id].parent)
  {
    hide Reaches, Leads, Reach, Acyclic;
    var g, p := Parents(t), t[id].parent;
    assert Next(g, id) == [p];
    ReachShrinks(g, id, p);
    forall v ensures Above(t, v, id) <==> v == p || Above(t, v, p) {
      if Above(t, v, id) {
        var b := LeadsFirstStep(g, id, v);
        ReachesCases(g, p, v);
      }
      if v == p || Above(t, v, p) {
        SelfReach(g, p);
        if v != p {
          LeadsReaches(g, p, v);
        }
        StepThenReach(g, id, p, v);
      }
    }
  }

  lemma RootHasNoneAbove(t: Table, id: string)
    requires id in t && t[id].parent == ""
    ensures forall v :: !Above(t, v, id)
  {
    forall v ensures !Above(t, v, id) {
      if Above(t, v, id) {
        var _ := LeadsFirstStep(Parents(t), id, v);
      }
    }
  }

  /** The folder validator: walks up from the new parent until it meets the folder or a root. */
  method ValidateHTTPFolderParent(t: Table, id: string, project: string, parentId: string) returns (error: Option<Error>)
    requires Forest(t) && id != ""
    ensures error.None? <==> Allowed(t, id, project, parentId)
  {
    hide Forest, Above;
    if parentId == "" {
      return None;
    }
    if parentId == id {
      return Some(OwnParent);
    }
    if parentId !in t {
      return Some(NoSuchParent);
    }
    if t[parentId].project != project {
      return Some(OtherProject);
    }
    var at := parentId;
    while t[at].parent != ""
      invariant at in t && at != id
      invariant Above(t, id, parentId) <==> Above(t, id, at)
      decreases Reach(Parents(t), at)
    {
      ParentStep(t, at);
      if t[at].parent == id {
        return Some(ParentCycle);
      }
      at := t[at].parent;
      if at == id {
        return Some(ParentCycle);
      }
    }
    RootHasNoneAbove(t, at);
    return None;
  }

  /** The collection validator, after its checks on name, order and owning project. */
  method ValidateCollectionParent(t: Table, id: string, project: string, parentId: string) returns (error: Option<Error>)
    requires Forest(t) && id != ""
    ensures error.None? <==> Allowed(t, id, project, parentId)
  {
    hide Forest, Above;
    if parentId == id {
      return Some(OwnParent);
    }
    if parentId != "" {
      if parentId !in t {
        return Some(NoSuchParent);
      }
      if t[parentId].project != project {
        return Some(OtherProject);
      }
      var at := parentId;
      while t[at].parent != ""
        invariant at in t
        invariant Above(t, id, parentId) <==> Above(t, id, at)
        decreases Reach(Parents(t), at)
      {
        ParentStep(t, at);
        if t[at].parent == id {
          return Some(ParentCycle);
        }
        at := t[at].parent;
      }
      RootHasNoneAbove(t, at);
    }
    return None;
  }

  /** A pointer that the validators allow keeps the table a forest, for a new row as for an old one. */
  lemma SaveKeepsForest(t: Table, id: string, node: Node)
    requires Forest(t) && id != "" && Allowed(t, id, node.project, node.parent)
    ensures Forest(t[id := node])
  {
    hide Reaches, Leads, Acyclic;
    var g, h := Parents(t), Parents(t[id := node]);
    assert h == g[id := ParentOf(node)];
    forall d | d in ParentOf(node) ensures !Reaches(g, d, id) {
      if Reaches(g, d, id) {
        ReachesCases(g, d, id);
      }
    }
    HarmlessEdges(g, id, ParentOf(node), h);
  }

  // Deleting a folder

  function Reparented(n: Node, from: string, to: string): Node {
    if n.parent == from then n.(parent := to) else n
  }

  /** The children of a deleted folder move to its own parent. */
  function WithoutFolder(t: Table, id: string): Table
    requires id in t
  {
    map x | x in t && x != id :: Reparented(t[x], id, t[id].parent)
  }

  /** A walk after the deletion is a walk before it, perhaps through the deleted folder. */
  lemma {:induction false} LiftedWalk(t: Table, id: string, p: seq<string>)
    requires id in t && id != "" && IsPath(Parents(WithoutFolder(t, id)), p)
    ensures |p| > 1 ==> Leads(Parents(t), p[0], p[|p| - 1])
  {
    var g, h := Parents(t), Parents(WithoutFolder(t, id));
    if |p| > 1 {
      hide Reaches, Leads;
      LiftedWalk(t, id, p[1..]);
      SelfReach(g, p[1]);
      if |p| > 2 {
        LeadsReaches(g, p[1], p[|p| - 1]);
      }
      assert p[1] in Next(h, p[0]);
      if t[p[0]].parent == id {
        StepThenReach(g, id, p[1], p[|p| - 1]);
        StepThenReach(g, p[0], id, p[|p| - 1]);
      } else {
        StepThenReach(g, p[0], p[1], p[|p| - 1]);
      }
    }
  }

  lemma DeleteFolderKeepsForest(t: Table, id: string)
    requires Forest(t) && id in t
    ensures Forest(WithoutFolder(t, id))
  {
    var h := Parents(WithoutFolder(t, id));
    forall u ensures !Leads(h, u, u) {
      if Leads(h, u, u) {
        var p :| |p| >= 2 && Joins(h, u, p, u);
        LiftedWalk(t, id, p);
      }
    }
    if t[id].parent == id {
      ParentStep(t, id);
    }
  }

  /** The HTTP folders. */
  class FolderTable {
    var folders: Table

    ghost predicate Valid()
      reads this
    {
      Forest(folders)
    }

    constructor ()
      ensures Valid() && folders == map[]
    {
      folders := map[];
      new;
      EmptyForest();
    }

    /** Creates a folder under a new id, or changes the project and parent of an old one. */
    method Save(id: string, project: string, parentId: string) returns (error: Option<Error>)
      requires Valid() && id != ""
      modifies this
      ensures Valid()
      ensures error.None? <==> Allowed(old(folders), id, project, parentId)
      ensures folders == if error.None? then old(folders)[id := Node(project, parentId)] else old(folders)
    {
      error := ValidateHTTPFolderParent(folders, id, project, parentId);
      if error.None? {
        SaveKeepsForest(folders, id, Node(project, parentId));
        folders := folders[id := Node(project, parentId)];
      }
    }

    method Delete(id: string) returns (error: Option<Error>)
      requires Valid()
      modifies this
      ensures Valid()
      ensures error.None? <==> id in old(folders)
      ensures folders == if error.None? then WithoutFolder(old(folders), id) else old(folders)
      ensures error.None? ==> folders.Keys == old(folders).Keys - {id}
      ensures error.None? ==> forall x :: x in folders ==>
                && folders[x].project == old(folders)[x].project
                && folders[x].parent == if old(folders)[x].parent == id then old(folders)[id].parent else old(folders)[x].parent
    {
      if id !in folders {
        return Some(NotFound);
      }
      var to := folders[id].parent;
      DeleteFolderKeepsForest(folders, id);
      folders := map x | x in folders :: Reparented(folders[x], id, to);
      folders := folders - {id};
      assert folders == WithoutFolder(old(folders), id);
      return None;
    }
  }

  lemma EmptyForest()
    ensures Forest(map[])
  {
    forall v ensures !Leads(Parents(map[]), v, v) {
      if Leads(Parents(map[]), v, v) {
        var _ := LeadsFirstStep(Parents(map[]), v, v);
      }
    }
  }

  // Collections of a catalog bundle

  datatype Item = Item(key: string, parentKey: string)

  function Keys(items: seq<Item>): seq<string> {
    if items == [] then [] else Keys(items[..|items| - 1]) + [items[|items| - 1].key]
  }

  function KeyGraph(items: seq<Item>): Edges {
    if items == [] then map[]
    else
      var i := items[|items| - 1];
      KeyGraph(items[..|items| - 1])[i.key := if i.parentKey == "" then [] else [i.parentKey]]
  }

  /** Every parent key is in the bundle, and no chain of parent keys returns to its start. */
  ghost predicate Resolvable(items: seq<Item>) {
    && Acyclic(KeyGraph(items))
    && forall k, d :: k in KeyGraph(items) && d in KeyGraph(items)[k] ==> d in KeyGraph(items)
  }

  /** What the bundle's keys must satisfy before it is applied. */
  predicate GoodKeys(items: seq<Item>) {
    Distinct(Keys(items)) && "" !in Keys(items)
  }

  lemma {:induction false} KeyGraphKeys(items: seq<Item>, k: string)
    ensures k in KeyGraph(items) <==> k in Keys(items)
  {
    if items != [] {
      KeyGraphKeys(items[..|items| - 1], k);
    }
  }

  lemma {:induction false} KeyGraphAt(items: seq<Item>, i: Item)
    requires Distinct(Keys(items)) && i in items
    ensures i.key in KeyGraph(items) && KeyGraph(items)[i.key] == if i.parentKey == "" then [] else [i.parentKey]
  {
    hide Distinct;
    var before, last := items[..|items| - 1], items[|items| - 1];
    if i != last {
      LastKeyIsNew(items);
      KeyGraphAt(before, i);
      ItemKey(before, i);
    }
  }

  lemma LastKeyIsNew(items: seq<Item>)
    requires items != [] && Distinct(Keys(items))
    ensures Distinct(Keys(items[..|items| - 1])) && items[|items| - 1].key !in Keys(items[..|items| - 1])
  {
    assert Keys(items)[..|Keys(items)| - 1] == Keys(items[..|items| - 1]);
  }

  /** Resolved keys with their ids; each was resolved after its parent. */
  ghost predicate Resolving(g: Edges, idOf: string -> string, ids: map<string, string>, order: seq<string>) {
    && Ordered(g, order)
    && (forall k :: k in ids <==> k in order)
    && (forall k :: k in ids ==> k in g && k != "" && ids[k] == idOf(k))
  }

  function RowOf(g: Edges, idOf: string -> string, project: string, key: string): Node {
    Node(project, if Next(g, key) == [] then "" else idOf(Next(g, key)[0]))
  }

  /** The table after the rows of the given keys were written one after the other. */
  function Written(t: Table, g: Edges, idOf: string -> string, project: string, order: seq<string>): Table {
    if order == [] then t
    else
      var key := order[|order| - 1];
      Written(t, g, idOf, project, order[..|order| - 1])[idOf(key) := RowOf(g, idOf, project, key)]
  }

  predicate FitsGraph(item: Item, g: Edges) {
    item.key != "" && item.key in g && g[item.key] == if item.parentKey == "" then [] else [item.parentKey]
  }

  lemma ItemsFit(items: seq<Item>)
    requires GoodKeys(items)
    ensures forall i :: i in items ==> FitsGraph(i, KeyGraph(items))
    ensures forall k :: k in KeyGraph(items) <==> k in Keys(items)
  {
    hide KeyGraph, Keys, Distinct;
    forall k ensures k in KeyGraph(items) <==> k in Keys(items) {
      KeyGraphKeys(items, k);
    }
    forall i | i in items ensures FitsGraph(i, KeyGraph(items)) {
      KeyGraphAt(items, i);
      ItemKey(items, i);
    }
  }

  lemma {:induction false} ItemKey(items: seq<Item>, i: Item)
    requires i in items
    ensures i.key in Keys(items)
  {
    if i != items[|items| - 1] {
      ItemKey(items[..|items| - 1], i);
    }
  }

  lemma {:induction false} KeyHasItem(items: seq<Item>, k: string) returns (i: Item)
    requires k in Keys(items)
    ensures i in items && i.key == k
  {
    i := items[|items| - 1];
    if i.key != k {
      i := KeyHasItem(items[..|items| - 1], k);
    }
  }

  /** From k the chain of parent keys leaves the bundle or runs in a circle. */
  ghost predicate NeverResolves(items: seq<Item>, k: string) {
    exists s: set<string> :: k in s && StuckSet(items, s)
  }

  /** Each key of s has a parent key, which is not in the bundle or is in s itself. */
  ghost predicate StuckSet(items: seq<Item>, s: set<string>) {
    forall k :: k in s ==> k in KeyGraph(items) && KeyGraph(items)[k] != [] &&
                           forall d :: d in KeyGraph(items)[k] ==> d !in KeyGraph(items) || d in s
  }

  lemma StuckMeans(items: seq<Item>, ids: map<string, string>, order: seq<string>, idOf: string -> string, next: seq<Item>)
    requires GoodKeys(items) && next != [] && forall i :: i in next ==> i in items && i.parentKey != "" && i.parentKey !in ids
    requires forall i :: i in items ==> i in next || i.key in ids
    requires Resolving(KeyGraph(items), idOf, ids, order)
    ensures !Resolvable(items) && forall i :: i in next ==> NeverResolves(items, i.key)
  {
    hide KeyGraph, GoodKeys, Acyclic, Ordered;
    var g, s := KeyGraph(items), set i | i in next :: i.key;
    ItemsFit(items);
    forall k | k in s ensures k in g && g[k] != [] && forall d :: d in g[k] ==> d !in g || d in s {
      var i :| i in next && i.key == k;
      assert FitsGraph(i, g);
      if i.parentKey in g {
        var p := KeyHasItem(items, i.parentKey);
      }
    }
    assert StuckSet(items, s);
    assert forall k :: k in s ==> g[k][0] in g[k];
    if Resolvable(items) {
      var start := next[0].key;
      assert next[0] in next && start in s;
      var m := MinimalMember(g, s, start);
    }
  }

  /** A resolved key stands in no stuck set, for its chain was followed to its end. */
  lemma ResolvedIsNotStuck(items: seq<Item>, ids: map<string, string>, order: seq<string>, idOf: string -> string)
    requires Resolving(KeyGraph(items), idOf, ids, order)
    ensures forall k :: k in ids ==> !NeverResolves(items, k)
  {
    hide KeyGraph, Ordered;
    forall k | k in ids ensures !NeverResolves(items, k) {
      if s: set<string> :| k in s && StuckSet(items, s) {
        var i :| 0 <= i < |order| && order[i] == k;
        NoStuckEntry(items, order, i, s);
      }
    }
  }

  lemma {:induction false} NoStuckEntry(items: seq<Item>, order: seq<string>, i: nat, s: set<string>)
    requires Ordered(KeyGraph(items), order) && i < |order| && StuckSet(items, s)
    requires forall j :: 0 <= j <= i ==> order[j] in KeyGraph(items)
    ensures order[i] !in s
    decreases i
  {
    hide KeyGraph, Ordered;
    if order[i] in s {
      var d := KeyGraph(items)[order[i]][0];
      assert d in Next(KeyGraph(items), order[i]);
      OrderedAt(KeyGraph(items), order, i);
      var j :| 0 <= j < i && order[..i][j] == d;
      NoStuckEntry(items, order, j, s);
    }
  }

  lemma AllWritten(items: seq<Item>, ids: map<string, string>, order: seq<string>, idOf: string -> string)
    requires GoodKeys(items) && forall i :: i in items ==> i.key in ids
    requires Resolving(KeyGraph(items), idOf, ids, order)
    ensures Resolvable(items) && forall k :: k in ids <==> k in Keys(items)
  {
    hide KeyGraph, GoodKeys, Ordered;
    var g := KeyGraph(items);
    ItemsFit(items);
    forall k | k in g ensures k in order {
      var i := KeyHasItem(items, k);
    }
    forall v ensures !Leads(g, v, v) {
      if Leads(g, v, v) {
        var _ := LeadsFirstStep(g, v, v);
        OrderedHasNoCycle(g, order, v);
      }
    }
    forall k, d | k in g && d in g[k] ensures d in g {
      SelfReach(g, d);
      StepThenReach(g, k, d, d);
      OrderedIsClosed(g, order, k, d);
    }
  }

  // The table after a bundle

  predicate Injective(idOf: string -> string, keys: set<string>) {
    && (forall k :: k in keys ==> idOf(k) != "")
    && (forall a, b :: a in keys && b in keys && idOf(a) == idOf(b) ==> a == b)
  }

  lemma {:induction false} WrittenRows(t: Table, g: Edges, idOf: string -> string, project: string, order: seq<string>)
    requires Injective(idOf, Elements(order))
    ensures var r := Written(t, g, idOf, project, order);
            && (forall k :: k in order ==> idOf(k) in r && r[idOf(k)] == RowOf(g, idOf, project, k))
            && (forall id :: id in r <==> id in t || exists k :: k in order && idOf(k) == id)
            && (forall id :: id in t && (forall k :: k in order ==> idOf(k) != id) ==> id in r && r[id] == t[id])
  {
    hide RowOf;
    if order != [] {
      var before, last := order[..|order| - 1], order[|order| - 1];
      assert order == before + [last];
      WrittenRows(t, g, idOf, project, before);
    }
  }

  function Mapped(idOf: string -> string, order: seq<string>): seq<string> {
    if order == [] then [] else Mapped(idOf, order[..|order| - 1]) + [idOf(order[|order| - 1])]
  }

  lemma {:induction false} MappedHas(idOf: string -> string, order: seq<string>, k: string)
    requires k in order
    ensures idOf(k) in Mapped(idOf, order)
  {
    if k != order[|order| - 1] {
      MappedHas(idOf, order[..|order| - 1], k);
    }
  }

  /** In h the ids of the keys point to the ids of their parent keys. */
  predicate MapsParents(g: Edges, h: Edges, idOf: string -> string, order: seq<string>) {
    order != [] ==>
      && MapsParents(g, h, idOf, order[..|order| - 1])
      && var k := order[|order| - 1];
         Next(h, idOf(k)) == if Next(g, k) == [] then [] else [idOf(Next(g, k)[0])]
  }

  lemma {:induction false} AllMapParents(g: Edges, h: Edges, idOf: string -> string, order: seq<string>)
    requires forall k :: k in order ==> Next(h, idOf(k)) == if Next(g, k) == [] then [] else [idOf(Next(g, k)[0])]
    ensures MapsParents(g, h, idOf, order)
  {
    if order != [] {
      assert order[|order| - 1] in order;
      AllMapParents(g, h, idOf, order[..|order| - 1]);
    }
  }

  /** The ids of a resolved bundle are ordered by parents, as its keys are. */
  lemma {:induction false} MappedIsOrdered(g: Edges, h: Edges, idOf: string -> string, order: seq<string>)
    requires Ordered(g, order) && MapsParents(g, h, idOf, order)
    ensures Ordered(h, Mapped(idOf, order))
  {
    if order != [] {
      var before, last := order[..|order| - 1], order[|order| - 1];
      MappedIsOrdered(g, h, idOf, before);
      if Next(g, last) != [] {
        assert Next(g, last)[0] in Next(g, last);
        MappedHas(idOf, before, Next(g, last)[0]);
      }
      OrderedGrows(h, Mapped(idOf, before), idOf(last));
    }
  }

  lemma BundleOrder(t: Table, g: Edges, idOf: string -> string, project: string, order: seq<string>)
    requires Ordered(g, order) && Injective(idOf, Elements(order))
    requires forall k :: k in order ==> |Next(g, k)| <= 1
    ensures var h := Parents(Written(t, g, idOf, project, order));
            && Ordered(h, Mapped(idOf, order))
            && forall w :: (forall k :: k in order ==> idOf(k) != w) ==> Next(Parents(t), w) == Next(h, w)
  {
    hide Ordered, Written, Mapped, MapsParents;
    var r := Written(t, g, idOf, project, order);
    WrittenRows(t, g, idOf, project, order);
    forall k | k in order ensures Next(Parents(r), idOf(k)) == if Next(g, k) == [] then [] else [idOf(Next(g, k)[0])] {
      assert r[idOf(k)] == RowOf(g, idOf, project, k);
      if Next(g, k) != [] {
        ParentsComeEarlier(g, order, k);
        assert Next(g, k)[0] in Next(g, k) && Next(g, k)[0] in Elements(order);
      }
    }
    AllMapParents(g, Parents(r), idOf, order);
    MappedIsOrdered(g, Parents(r), idOf, order);
  }

  /** Writing a resolved bundle into a forest gives a forest, whatever parents its rows had before. */
  lemma BundleKeepsForest(t: Table, g: Edges, idOf: string -> string, project: string, ids: map<string, string>, order: seq<string>)
    requires Forest(t) && Resolving(g, idOf, ids, order) && Injective(idOf, Elements(order))
    requires forall k :: k in order ==> |Next(g, k)| <= 1
    ensures Forest(Written(t, g, idOf, project, order))
  {
    hide Reaches, Leads, Ordered, Written, Acyclic, Mapped, Parents;
    var r := Written(t, g, idOf, project, order);
    BundleOrder(t, g, idOf, project, order);
    WrittenRows(t, g, idOf, project, order);
    var h := Parents(r);
    forall u ensures !Leads(h, u, u) {
      if Leads(h, u, u) {
        NoBundleCycle(Parents(t), h, idOf, order, u);
      }
    }
    AcyclicFrom(h);
    forall id | id in r && r[id].parent != "" ensures r[id].parent in r {
      if k :| k in order && idOf(k) == id {
        ParentsComeEarlier(g, order, k);
        assert r[id] == RowOf(g, idOf, project, k);
        assert Next(g, k)[0] in Next(g, k);
      }
    }
  }

  /** Rows of the bundle lie on no cycle, and any other cycle would be an old one. */
  lemma NoBundleCycle(g: Edges, h: Edges, idOf: string -> string, order: seq<string>, u: string)
    requires Acyclic(g) && Ordered(h, Mapped(idOf, order))
    requires forall w :: (forall k :: k in order ==> idOf(k) != w) ==> Next(g, w) == Next(h, w)
    ensures !Leads(h, u, u)
  {
    hide Reaches, Leads, Ordered, Mapped;
    if Leads(h, u, u) {
      var s := set k | k in order :: idOf(k);
      CycleOldOrThroughChanged(g, h, s, u);
      if v :| v in s && Reaches(h, u, v) && Reaches(h, v, u) {
        BackToChanged(h, v, u);
        var k :| k in order && idOf(k) == v;
        MappedHas(idOf, order, k);
        OrderedHasNoCycle(h, Mapped(idOf, order), v);
      }
    }
  }

  lemma AcyclicFrom(h: Edges)
    requires forall u :: !Leads(h, u, u)
    ensures Acyclic(h)
  {
  }

  lemma ParentsComeEarlier(g: Edges, order: seq<string>, k: string)
    requires Ordered(g, order) && k in order
    ensures forall d :: d in Next(g, k) ==> d in order
  {
    var i :| 0 <= i < |order| && order[i] == k;
    OrderedAt(g, order, i);
  }

  /** The catalog collections. */
  class CollectionTable {
    var collections: Table

    ghost predicate Valid()
      reads this
    {
      Forest(collections)
    }

    constructor ()
      ensures Valid() && collections == map[]
    {
      collections := map[];
      new;
      EmptyForest();
    }

    method Save(id: string, project: string, parentId: string) returns (error: Option<Error>)
      requires Valid() && id != ""
      modifies this
      ensures Valid()
      ensures error.None? <==> Allowed(old(collections), id, project, parentId)
      ensures collections == if error.None? then old(collections)[id := Node(project, parentId)] else old(collections)
    {
      error := ValidateCollectionParent(collections, id, project, parentId);
      if error.None? {
        SaveKeepsForest(collections, id, Node(project, parentId));
        collections := collections[id := Node(project, parentId)];
      }
    }

    /** members counts the commands and stacks in the collection; a referenced collection stays. */
    method Delete(id: string, members: nat) returns (error: Option<Error>)
      requires Valid() && id != ""
      modifies this
      ensures Valid()
      ensures error.None? <==> id in old(collections) && members == 0 && forall x :: x in old(collections) ==> old(collections)[x].parent != id
      ensures collections == if error.None? then old(collections) - {id} else old(collections)
    {
      var children := set x | x in collections && collections[x].parent == id;
      if |children| + members > 0 {
        assert children != {} || members > 0;
        return Some(Referenced);
      }
      assert children == {};
      assert forall x :: x in collections && collections[x].parent == id ==> x in children;
      if id !in collections {
        return Some(NotFound);
      }
      FewerEdges(Parents(collections), Parents(collections - {id}));
      collections := collections - {id};
      return None;
    }
  }

  lemma BundleFacts(t: Table, items: seq<Item>, idOf: string -> string, project: string, ids: map<string, string>, order: seq<string>)
    requires Forest(t) && GoodKeys(items) && Injective(idOf, Elements(Keys(items)))
    requires Resolving(KeyGraph(items), idOf, ids, order) && forall k :: k in ids <==> k in Keys(items)
    ensures var r := Written(t, KeyGraph(items), idOf, project, order);
            && Forest(r)
            && (forall i :: i in items ==> idOf(i.key) in r && r[idOf(i.key)] ==
                                           Node(project, if i.parentKey == "" then "" else idOf(i.parentKey)))
            && (forall id :: id in t && (forall i :: i in items ==> idOf(i.key) != id) ==> id in r && r[id] == t[id])
            && (forall id :: id in r ==> id in t || exists i :: i in items && idOf(i.key) == id)
  {
    hide Forest, GoodKeys, KeyGraph, Ordered, Written, Keys;
    var g := KeyGraph(items);
    ItemsFit(items);
    forall k | k in order ensures |Next(g, k)| <= 1 {
      var i := KeyHasItem(items, k);
    }
    BundleKeepsForest(t, g, idOf, project, ids, order);
    WrittenRows(t, g, idOf, project, order);
    forall i | i in items ensures i.key in order && RowOf(g, idOf, project, i.key) == Node(project, if i.parentKey == "" then "" else idOf(i.parentKey)) {
      ItemKey(items, i);
      assert FitsGraph(i, g);
    }
    forall k | k in order ensures exists i :: i in items && i.key == k {
      var i := KeyHasItem(items, k);
    }
  }
}
