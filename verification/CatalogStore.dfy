/** The catalog store and its one transaction. */
module CatalogStore {
  import opened Catalog
  import opened CatalogContents
  import opened CatalogForest
  import opened CatalogOrder
  import opened CatalogReapply
  import opened CatalogRows
  import opened Results
  import F = ParentForest
  import G = Digraph
  import P = Prerequisites

  lemma StuckExactly(items: seq<CollectionItem>)
    requires F.GoodKeys(Shapes(items))
    ensures var order := WriteOrder(items, {});
            && (order.Err? <==> !F.Resolvable(Shapes(items)))
            && (order.Err? ==>
                  && order.error.StuckCollections?
                  && forall i :: i in items ==> (i.key in order.error.keys <==> F.NeverResolves(Shapes(items), i.key)))
  {
    hide F.GoodKeys, F.Resolvable, F.NeverResolves, WriteOrder, Shapes;
    PassesAreExact(items);
  }

  lemma StackPhaseFailsByKey(t: Table, commands: Table, project: string, collectionIds: map<string, string>, commandIds: map<string, string>,
                             items: seq<StackItem>, now: int)
    ensures var r := PutStacks(t, commands, project, collectionIds, commandIds, items, now); r.Err? ==> r.error.UnknownCommand?
  {
    hide StackWrites, PutAll;
    StacksFailByKey(commands, project, collectionIds, commandIds, items);
  }

  class Store {
    var db: Db

    ghost predicate Valid()
      reads this
    {
      UniqueDb(db) && NoPrerequisiteCycle(db) && F.Forest(TreeOf(db.collections))
    }

    constructor ()
      ensures Valid() && db == Db([], [], [], [])
    {
      db := Db([], [], [], []);
      new;
      forall v ensures !G.Leads(map[], v, v) {
        if G.Leads(map[], v, v) {
          var _ := G.LeadsFirstStep(map[], v, v);
        }
      }
      assert P.GraphOf(PrerequisitesOf([])) == map[];
      F.EmptyForest();
    }

    /**
     The callers of ApplyCatalog see to it that the collection keys of a bundle are distinct and
     not blank. tx is the state inside the transaction, which only a commit makes the
     store's own.
     */
    method ApplyCatalog(b: Bundle, now: int, dryRun: bool) returns (r: Result<Report, Failure>)
      requires Valid() && F.GoodKeys(Shapes(b.collections))
      modifies this
      ensures Valid()
      ensures r.Err? && r.error.StuckCollections? <==> !F.Resolvable(Shapes(b.collections))
      ensures r.Err? && r.error.StuckCollections? ==>
                forall i :: i in b.collections ==> (i.key in r.error.keys <==> F.NeverResolves(Shapes(b.collections), i.key))
      ensures r.Ok? <==> Applied(old(db), b, now).Ok? && NoPrerequisiteCycle(Applied(old(db), b, now).value.0)
      ensures r.Ok? ==> r.value == Applied(old(db), b, now).value.1
      ensures db == if r.Ok? && !dryRun then Applied(old(db), b, now).value.0 else old(db)
      ensures r.Ok? && !dryRun ==> Stores(db, b, r.value)
    {
      hide Put, PutAll, PutCollections, PutStacks, UniqueDb, WriteOrder, CommandIds, CommandWrites, StackWrites;
      hide F.GoodKeys, F.Resolvable, F.NeverResolves, F.Forest, TreeOf, Shapes, Stores;
      var tx := db;
      StuckExactly(b.collections);
      var projects, project := ApplyProject(tx.projects, b.project, now);
      var collections := ApplyCollections(tx.collections, project.id, b.collections, now);
      if collections.Err? {
        return Err(collections.error);
      }
      var commands := ApplyCommands(tx.commands, project.id, collections.value.1, b.commands, now);
      if commands.Err? {
        return Err(commands.error);
      }
      var stacks := ApplyStacks(tx.stacks, commands.value.0.rows, project.id, collections.value.1, commands.value.1, b.stacks, now);
      if stacks.Err? {
        StackPhaseFailsByKey(tx.stacks, commands.value.0.rows, project.id, collections.value.1, commands.value.1, b.stacks, now);
        return Err(stacks.error);
      }
      tx := Db(projects, collections.value.0.rows, commands.value.0.rows, stacks.value.rows);
      var cycle := P.ValidateAppliedPrerequisiteGraph(PrerequisitesOf(tx.stacks));
      if cycle != "" {
        return Err(PrerequisiteCycle(cycle));
      }
      AppliedKeepsUnique(db, b, now);
      AppliedStores(db, b, now);
      CollectionsKeepForest(db.collections, project.id, b.collections, now);
      if !dryRun {
        db := tx;
      }
      return Ok(Report(project, collections.value.0.slots, commands.value.0.slots, stacks.value.slots));
    }
  }
}
