/** The collections of a bundle keep the parent pointers of the collection table a forest. */
module CatalogForest {
  import opened Catalog
  import opened CatalogOrder
  import opened CatalogRows
  import opened Digraph
  import opened Results
  import F = ParentForest

  function NodeOf(c: Content): F.Node {
    if c.CollectionRow? then F.Node(c.projectId, c.parentId) else F.Node("", "")
  }

  /** The collection rows, reduced to their parent pointers. */
  function TreeOf(t: Table): F.Table {
    if t == [] then map[] else TreeOf(t[1..])[t[0].id := NodeOf(t[0].content)]
  }

  lemma {:induction false} TreeGrows(t: Table, row: Row)
    ensures TreeOf(Upsert(t, row)) == TreeOf(t)[row.id := NodeOf(row.content)]
  {
    if t != [] && t[0].id != row.id {
      TreeGrows(t[1..], row);
    }
  }

  function IdIn(project: string): string -> string {
    key => CatalogId("collection", project, key)
  }

  lemma IdsDiffer(project: string, a: string, b: string)
    requires IdIn(project)(a) == IdIn(project)(b)
    ensures a == b
  {
    var front := "collection_#collection\0" + project + "\0";
    assert IdIn(project)(a) == front + a && IdIn(project)(b) == front + b;
    assert (front + a)[|front|..] == a && (front + b)[|front|..] == b;
  }

  lemma IdsAreInjective(project: string, keys: set<string>)
    ensures F.Injective(IdIn(project), keys)
  {
    forall a, b | a in keys && b in keys && IdIn(project)(a) == IdIn(project)(b) ensures a == b {
      IdsDiffer(project, a, b);
    }
  }

  lemma {:induction false} IdsAreDerived(project: string, order: seq<CollectionItem>)
    ensures forall k :: k in CollectionIds(project, order) <==> k in KeysOf(order)
    ensures forall k :: k in CollectionIds(project, order) ==> CollectionIds(project, order)[k] == IdIn(project)(k)
  {
    IdsOfOrder(project, order);
    if order != [] {
      IdsAreDerived(project, order[..|order| - 1]);
    }
  }

  lemma CollectionPut(t: Table, project: string, ids: map<string, string>, item: CollectionItem, now: int)
    ensures var w := CollectionWrite(project, ids, item); var put := Put(t, w, now);
            put.Ok? && TreeOf(put.value.0) == TreeOf(t)[IdIn(project)(item.key) := F.Node(project, Get(ids, item.parentKey))]
  {
    var w := CollectionWrite(project, ids, item);
    var row := Incoming(w, Find(t, w.search).value, now);
    if Lookup(t, w.search.main).Some? {
      LookupMatches(t, w.search.main);
    }
    hide Upsert, Lookup;
    TreeGrows(t, row);
  }

  lemma {:induction false} TreeOfBatch(t: Table, project: string, g: Edges, order: seq<CollectionItem>, now: int)
    requires Ordered(g, KeyList(order)) && forall i :: i in order ==> F.FitsGraph(Shape(i), g)
    ensures TreeOf(PutCollections(t, project, order, now).rows) == F.Written(TreeOf(t), g, IdIn(project), project, KeyList(order))
  {
    if order != [] {
      var before, last := order[..|order| - 1], order[|order| - 1];
      assert last in order && order == before + [last];
      assert KeyList(order) == KeyList(before) + [last.key] && KeyList(order)[..|before|] == KeyList(before);
      TreeOfBatch(t, project, g, before, now);
      ParentIsWritten(project, g, before, last);
      hide Ordered, Put, PutAll;
      CollectionsKeyless(project, before);
      KeylessNeverConflicts(t, CollectionWrites(project, before), now);
      CollectionsKeyless(project, order);
      KeylessNeverConflicts(t, CollectionWrites(project, order), now);
      var w := CollectionWrite(project, CollectionIds(project, before), last);
      PutAllGrows(t, CollectionWrites(project, before), w, now);
      CollectionPut(PutCollections(t, project, before, now).rows, project, CollectionIds(project, before), last, now);
    }
  }

  /** The parent key of an item that follows its parent resolves to the parent's id. */
  lemma ParentIsWritten(project: string, g: Edges, before: seq<CollectionItem>, item: CollectionItem)
    requires Ordered(g, KeyList(before) + [item.key]) && F.FitsGraph(Shape(item), g)
    requires forall i :: i in before ==> F.FitsGraph(Shape(i), g)
    ensures F.Node(project, Get(CollectionIds(project, before), item.parentKey)) == F.RowOf(g, IdIn(project), project, item.key)
  {
    var keys := KeyList(before) + [item.key];
    assert keys[..|keys| - 1] == KeyList(before);
    IdsAreDerived(project, before);
    KeysInList(before);
    forall i | i in before ensures i.key != "" {
      assert F.FitsGraph(Shape(i), g);
    }
    assert item.parentKey != "" ==> item.parentKey in Next(g, item.key);
  }

  /** The collections of a bundle with distinct keys keep a forest, and each then points to the row of its parent. */
  lemma CollectionsKeepForest(t: Table, project: string, items: seq<CollectionItem>, now: int)
    requires F.Forest(TreeOf(t)) && F.GoodKeys(Shapes(items)) && WriteOrder(items, {}).Ok?
    ensures var tree := TreeOf(PutCollections(t, project, WriteOrder(items, {}).value, now).rows); var idOf := IdIn(project);
            && F.Forest(tree)
            && (forall i :: i in items ==> idOf(i.key) in tree && tree[idOf(i.key)] ==
                                           F.Node(project, if i.parentKey == "" then "" else idOf(i.parentKey)))
            && (forall id :: id in TreeOf(t) && (forall i :: i in items ==> idOf(i.key) != id) ==> id in tree && tree[id] == TreeOf(t)[id])
            && (forall id :: id in tree ==> id in TreeOf(t) || exists i :: i in items && idOf(i.key) == id)
  {
    hide F.Forest, F.GoodKeys, F.KeyGraph, F.Written, Ordered, WriteOrder, F.Resolvable, F.NeverResolves, PutCollections, F.Resolving, F.FitsGraph, TreeOf, F.Injective;
    var all, order := Shapes(items), WriteOrder(items, {}).value;
    var g := F.KeyGraph(all);
    PassesAreExact(items);
    assert [] + order == order;
    ShapesFit(all, items);
    TreeOfBatch(t, project, g, order, now);
    IdsAreInjective(project, Elements(F.Keys(all)));
    var ids := OrderResolvesWith(all, order, IdIn(project));
    KeysOfShapes(items);
    KeysInList(order);
    F.BundleFacts(TreeOf(t), all, IdIn(project), project, ids, KeyList(order));
    ShapesOnly(items);
  }

  lemma OrderResolvesWith(items: seq<F.Item>, order: seq<CollectionItem>, idOf: string -> string) returns (ids: map<string, string>)
    requires Ordered(F.KeyGraph(items), KeyList(order)) && forall i :: i in order ==> F.FitsGraph(Shape(i), F.KeyGraph(items))
    ensures F.Resolving(F.KeyGraph(items), idOf, ids, KeyList(order))
    ensures forall k :: k in ids <==> k in KeysOf(order)
  {
    hide Ordered;
    ids := map k | k in KeysOf(order) :: idOf(k);
    KeysInList(order);
    forall k | k in KeysOf(order) ensures k in F.KeyGraph(items) && k != "" {
      var i :| i in order && i.key == k;
      assert F.FitsGraph(Shape(i), F.KeyGraph(items));
    }
  }

  lemma {:induction false} KeysOfShapes(items: seq<CollectionItem>)
    ensures forall k :: k in F.Keys(Shapes(items)) <==> k in KeysOf(items)
  {
    if items != [] {
      KeysOfShapes(items[..|items| - 1]);
      assert items == items[..|items| - 1] + [items[|items| - 1]];
    }
  }
}
