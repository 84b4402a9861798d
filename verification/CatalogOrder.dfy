/** When the passes of ApplyCatalog get to all collections of a bundle. */
module CatalogOrder {
  import opened Catalog
  import opened Digraph
  import opened Results
  import F = ParentForest

  function Shape(item: CollectionItem): F.Item {
    F.Item(item.key, item.parentKey)
  }

  function Shapes(items: seq<CollectionItem>): (s: seq<F.Item>)
    ensures |s| == |items| && forall i :: i in items ==> Shape(i) in s
  {
    if items == [] then [] else Shapes(items[..|items| - 1]) + [Shape(items[|items| - 1])]
  }

  lemma {:induction false} ShapesFit(all: seq<F.Item>, items: seq<CollectionItem>)
    requires F.GoodKeys(all) && forall s :: s in Shapes(items) ==> s in all
    ensures forall i :: i in items ==> F.FitsGraph(Shape(i), F.KeyGraph(all))
  {
    F.ItemsFit(all);
  }

  /** Whatever a pass writes stands after its parent; a pass without progress has nothing else to write. */
  lemma {:induction false} PassKeepsOrder(g: Edges, order: seq<CollectionItem>, pending: seq<CollectionItem>)
    requires Ordered(g, KeyList(order)) && forall i :: i in pending ==> F.FitsGraph(Shape(i), g)
    ensures var (written, next) := Pass(pending, KeysOf(order));
            && Ordered(g, KeyList(order + written))
            && (forall i :: i in pending <==> i in written || i in next)
            && (written == [] ==> next == pending && forall i :: i in pending ==> i.parentKey != "" && i.parentKey !in KeysOf(order))
    decreases |pending|
  {
    hide Ordered, KeyList, KeysOf, F.FitsGraph;
    if pending == [] {
      assert order + [] == order;
    } else {
      var item, rest := pending[0], pending[1..];
      assert pending == [item] + rest;
      if item.parentKey != "" && item.parentKey !in KeysOf(order) {
        PassKeepsOrder(g, order, rest);
      } else {
        OrderTakes(g, order, item);
        PassKeepsOrder(g, order + [item], rest);
        var written := Pass(rest, KeysOf(order + [item])).0;
        assert order + ([item] + written) == (order + [item]) + written;
      }
    }
  }

  lemma OrderTakes(g: Edges, order: seq<CollectionItem>, item: CollectionItem)
    requires Ordered(g, KeyList(order)) && F.FitsGraph(Shape(item), g)
    requires item.parentKey == "" || item.parentKey in KeysOf(order)
    ensures Ordered(g, KeyList(order + [item])) && KeysOf(order + [item]) == KeysOf(order) + {item.key}
  {
    hide Ordered;
    assert KeyList(order + [item]) == KeyList(order) + [item.key];
    KeysInList(order);
    OrderedGrows(g, KeyList(order), item.key);
  }

  lemma KeysInList(order: seq<CollectionItem>)
    ensures forall k :: k in KeysOf(order) <==> k in KeyList(order)
  {
    forall k ensures k in KeysOf(order) <==> k in KeyList(order) {
      if k in KeysOf(order) {
        var i :| 0 <= i < |order| && order[i].key == k;
        assert KeyList(order)[i] == k;
      }
      if k in KeyList(order) {
        var i :| 0 <= i < |order| && KeyList(order)[i] == k;
        assert order[i] in order;
      }
    }
  }

  /** The written keys, in the terms of the parent forest. */
  lemma OrderResolves(items: seq<F.Item>, order: seq<CollectionItem>) returns (ids: map<string, string>, idOf: string -> string)
    requires Ordered(F.KeyGraph(items), KeyList(order)) && forall i :: i in order ==> F.FitsGraph(Shape(i), F.KeyGraph(items))
    ensures F.Resolving(F.KeyGraph(items), idOf, ids, KeyList(order))
    ensures forall k :: k in ids <==> k in KeysOf(order)
  {
    hide Ordered;
    idOf := (k: string) => "id";
    ids := map k | k in KeysOf(order) :: "id";
    KeysInList(order);
    forall k | k in KeysOf(order) ensures k in F.KeyGraph(items) && k != "" {
      var i :| i in order && i.key == k;
      assert F.FitsGraph(Shape(i), F.KeyGraph(items));
    }
  }

  /** What the passes come to: an order in which every item follows its parent, or exactly the items that never resolve. */
  ghost predicate Outcome(items: seq<CollectionItem>, order: seq<CollectionItem>, r: Result<seq<CollectionItem>, Failure>) {
    var all := Shapes(items);
    && (r.Ok? <==> F.Resolvable(all))
    && (r.Ok? ==>
          && Ordered(F.KeyGraph(all), KeyList(order + r.value))
          && forall i :: i in order + r.value <==> i in items)
    && (r.Err? ==>
          && r.error.StuckCollections?
          && forall i :: i in items ==> (i.key in r.error.keys <==> F.NeverResolves(all, i.key)))
  }

  lemma {:induction false} OrderMeans(items: seq<CollectionItem>, order: seq<CollectionItem>, pending: seq<CollectionItem>)
    requires F.GoodKeys(Shapes(items)) && Ordered(F.KeyGraph(Shapes(items)), KeyList(order))
    requires forall i :: i in items <==> i in order || i in pending
    ensures Outcome(items, order, WriteOrder(pending, KeysOf(order)))
    decreases |pending|
  {
    hide Ordered, F.GoodKeys, F.KeyGraph, F.FitsGraph, Pass, Outcome, Shapes;
    var all, g := Shapes(items), F.KeyGraph(Shapes(items));
    ShapesFit(all, items);
    if pending == [] {
      EverythingWritten(items, order);
    } else {
      PassKeepsOrder(g, order, pending);
      var (written, next) := Pass(pending, KeysOf(order));
      if written == [] {
        NothingWritten(items, order, next);
      } else {
        OrderMeans(items, order + written, next);
        assert KeysOf(order + written) == KeysOf(order) + KeysOf(written);
        OutcomeBefore(items, order, written, WriteOrder(next, KeysOf(order + written)));
      }
    }
  }

  lemma OutcomeBefore(items: seq<CollectionItem>, order: seq<CollectionItem>, written: seq<CollectionItem>, rest: Result<seq<CollectionItem>, Failure>)
    requires Outcome(items, order + written, rest)
    ensures Outcome(items, order, Prepended(written, rest))
  {
    hide Ordered, F.KeyGraph, F.Resolvable, F.NeverResolves, Shapes;
    if rest.Ok? {
      assert order + (written + rest.value) == (order + written) + rest.value;
    }
  }

  lemma EverythingWritten(items: seq<CollectionItem>, order: seq<CollectionItem>)
    requires F.GoodKeys(Shapes(items)) && Ordered(F.KeyGraph(Shapes(items)), KeyList(order))
    requires forall i :: i in items <==> i in order
    ensures Outcome(items, order, Ok([]))
  {
    hide Ordered, F.GoodKeys, F.KeyGraph, F.Resolvable, F.NeverResolves, F.Resolving, F.FitsGraph;
    var all := Shapes(items);
    ShapesFit(all, items);
    ShapesOnly(items);
    var ids, idOf := OrderResolves(all, order);
    F.AllWritten(all, ids, KeyList(order), idOf);
    assert order + [] == order;
  }

  lemma NothingWritten(items: seq<CollectionItem>, order: seq<CollectionItem>, next: seq<CollectionItem>)
    requires F.GoodKeys(Shapes(items)) && Ordered(F.KeyGraph(Shapes(items)), KeyList(order)) && next != []
    requires forall i :: i in items <==> i in order || i in next
    requires forall i :: i in next ==> i.parentKey != "" && i.parentKey !in KeysOf(order)
    ensures Outcome(items, order, Err(StuckCollections(KeyList(next))))
  {
    hide Ordered, F.GoodKeys, F.KeyGraph, F.Resolvable, F.NeverResolves, F.Resolving, F.FitsGraph, KeyList;
    var all := Shapes(items);
    ShapesFit(all, items);
    ShapesOnly(next);
    forall s | s in Shapes(next) ensures s in all {
      var i :| i in next && Shape(i) == s;
    }
    ShapesOnly(items);
    var ids, idOf := OrderResolves(all, order);
    F.StuckMeans(all, ids, KeyList(order), idOf, Shapes(next));
    F.ResolvedIsNotStuck(all, ids, KeyList(order), idOf);
    NamedExactly(items, order, next, ids);
  }

  lemma NamedExactly(items: seq<CollectionItem>, order: seq<CollectionItem>, next: seq<CollectionItem>, ids: map<string, string>)
    requires forall i :: i in items <==> i in order || i in next
    requires forall k :: k in ids <==> k in KeysOf(order)
    requires forall s :: s in Shapes(next) ==> F.NeverResolves(Shapes(items), s.key)
    requires forall k :: k in ids ==> !F.NeverResolves(Shapes(items), k)
    ensures forall i :: i in items ==> (i.key in KeyList(next) <==> F.NeverResolves(Shapes(items), i.key))
  {
    hide F.NeverResolves, KeyList;
    KeysInList(next);
    forall i | i in items ensures i.key in KeyList(next) <==> F.NeverResolves(Shapes(items), i.key) {
      if i.key in KeyList(next) {
        var n :| n in next && n.key == i.key;
        assert Shape(n) in Shapes(next);
      } else {
        assert i in order && i.key in KeysOf(order);
      }
    }
  }

  lemma {:induction false} ShapesOnly(items: seq<CollectionItem>)
    ensures forall s :: s in Shapes(items) ==> exists i :: i in items && Shape(i) == s
  {
    if items != [] {
      ShapesOnly(items[..|items| - 1]);
    }
  }

  /** The passes write every collection exactly when no parent key is missing and none lies on a cycle, and else name those that never resolve. */
  lemma PassesAreExact(items: seq<CollectionItem>)
    requires F.GoodKeys(Shapes(items))
    ensures Outcome(items, [], WriteOrder(items, {}))
  {
    hide F.GoodKeys, F.KeyGraph, Outcome, WriteOrder;
    assert KeyList([]) == [] && KeysOf([]) == {};
    OrderMeans(items, [], items);
  }
}
