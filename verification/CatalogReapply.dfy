/** Applying a catalog bundle once more: when every row is reused, and how to tell beforehand. */
module CatalogReapply {
  import opened Catalog
  import opened CatalogRows
  import opened CatalogSettling
  import opened Results

  predicate SameDb(a: Db, b: Db) {
    Same(a.projects, b.projects) && Same(a.collections, b.collections) && Same(a.commands, b.commands) && Same(a.stacks, b.stacks)
  }

  function AllReused(r: Report): Report {
    Report(Slot(r.project.id, Reused), AsReused(r.collections), AsReused(r.commands), AsReused(r.stacks))
  }

  /** No two items of a kind went to the same row. */
  predicate DistinctRows(r: Report) {
    DistinctIds(r.collections) && DistinctIds(r.commands) && DistinctIds(r.stacks)
  }

  lemma ProjectAgain(t: Table, p: ProjectItem, now: int, later: int)
    requires Unique(t, Id)
    ensures var once := Put(t, ProjectWrite(p), now).value; var twice := Put(once.0, ProjectWrite(p), later);
            twice.Ok? && twice.value.1 == Slot(once.1.id, Reused) && Same(once.0, twice.value.0)
  {
    hide Shaped, Settled, Unique, Same, Upsert, Lookup;
    var w, once := ProjectWrite(p), Put(t, ProjectWrite(p), now).value;
    ProjectShaped(p);
    PutSettles(t, w, StableKey, ProjectColumn(p), now);
    PutKeepsIds(t, w, now);
    SameSelf(once.0);
    SettledIsReused(once.0, once.0, w, once.1.id, later);
  }

  lemma CollectionsAgain(t: Table, project: string, order: seq<CollectionItem>, now: int, later: int)
    requires Unique(t, Id)
    ensures var once := PutCollections(t, project, order, now); var twice := PutCollections(once.rows, project, order, later);
            && (twice.slots == AsReused(once.slots) <==> SharedAlike(CollectionWrites(project, order), once.slots))
            && (SharedAlike(CollectionWrites(project, order), once.slots) ==> Same(once.rows, twice.rows))
  {
    hide PutAll, Unique, Same, SharedAlike, Shaped, CollectionWrites;
    CollectionsShaped(project, order);
    CollectionsKeyless(project, order);
    KeylessNeverConflicts(t, CollectionWrites(project, order), now);
    KeylessNeverConflicts(PutCollections(t, project, order, now).rows, CollectionWrites(project, order), later);
    BatchSettlesExactly(t, CollectionWrites(project, order), RootPath, Id, now, later);
  }

  lemma StacksAgain(t: Table, commands: Table, again: Table, project: string, collectionIds: map<string, string>, commandIds: map<string, string>,
                    items: seq<StackItem>, now: int, later: int)
    requires Unique(t, Id) && Same(commands, again)
    requires PutStacks(t, commands, project, collectionIds, commandIds, items, now).Ok?
    ensures var ws := StackWrites(commands, project, collectionIds, commandIds, items);
            var once := PutStacks(t, commands, project, collectionIds, commandIds, items, now).value;
            var twice := PutStacks(once.rows, again, project, collectionIds, commandIds, items, later);
            && ws.Ok? && twice.Ok?
            && (twice.value.slots == AsReused(once.slots) <==> SharedAlike(ws.value, once.slots))
            && (SharedAlike(ws.value, once.slots) ==> Same(once.rows, twice.value.rows))
  {
    hide PutAll, Unique, Same, SharedAlike, Shaped, StackWrites;
    var ws := StackWrites(commands, project, collectionIds, commandIds, items).value;
    StackWritesSame(commands, again, project, collectionIds, commandIds, items);
    StacksShaped(commands, project, collectionIds, commandIds, items);
    StacksKeyless(commands, project, collectionIds, commandIds, items);
    KeylessNeverConflicts(t, ws, now);
    KeylessNeverConflicts(PutAll(t, ws, now).value.rows, ws, later);
    BatchSettlesExactly(t, ws, RootPath, StableKey, now, later);
  }

  lemma {:induction false} ResolvedSame(a: Table, b: Table, project: string, commandIds: map<string, string>, specs: seq<MemberItem>, resolved: map<string, string>)
    requires Same(a, b)
    ensures Resolved(a, project, commandIds, specs, resolved) == Resolved(b, project, commandIds, specs, resolved)
    decreases specs
  {
    hide Same, Lookup;
    if specs != [] {
      LookupSame(a, b, Query(StableKey, [project, specs[0].commandKey]));
      ResolvedSame(a, b, project, commandIds, specs[1..], resolved[specs[0].commandKey := CommandOf(a, project, commandIds, specs[0].commandKey)]);
    }
  }

  lemma {:induction false} StackWritesSame(a: Table, b: Table, project: string, collectionIds: map<string, string>, commandIds: map<string, string>, items: seq<StackItem>)
    requires Same(a, b)
    ensures StackWrites(a, project, collectionIds, commandIds, items) == StackWrites(b, project, collectionIds, commandIds, items)
    decreases items
  {
    hide Same, Resolved;
    if items != [] {
      ResolvedSame(a, b, project, commandIds, Specs(items[0]), map[]);
      StackWritesSame(a, b, project, collectionIds, commandIds, items[1..]);
    }
  }

  lemma {:induction false} CommandIdsSame(items: seq<CommandItem>, slots: seq<Slot>)
    requires |items| == |slots|
    ensures CommandIds(items, AsReused(slots)) == CommandIds(items, slots)
  {
    if items != [] {
      var n := |items| - 1;
      CommandIdsSame(items[..n], slots[..n]);
      assert AsReused(slots)[..n] == AsReused(slots[..n]);
    }
  }

  lemma {:induction false} PrerequisitesSame(a: Table, b: Table)
    requires Same(a, b)
    ensures PrerequisitesOf(a) == PrerequisitesOf(b)
  {
    if a != [] {
      PrerequisitesSame(a[1..], b[1..]);
    }
  }

  /** Items of a kind that went to one row brought one content. */
  predicate ItemsAgree(b: Bundle, once: Db, r: Report) {
    var order, project := WriteOrder(b.collections, {}), r.project.id;
    && order.Ok? && |b.commands| == |r.commands|
    && var collectionIds := CollectionIds(project, order.value);
       && SharedAlike(CollectionWrites(project, order.value), r.collections)
       && SharedAlike(CommandWrites(project, collectionIds, b.commands), r.commands)
       && var stacks := StackWrites(once.commands, project, collectionIds, CommandIds(b.commands, r.commands), b.stacks);
          stacks.Ok? && SharedAlike(stacks.value, r.stacks)
  }

  /** A bundle applied again reuses every row if and only if items that went to one row agree; then only update times change. */
  lemma ReapplyReusesExactly(db: Db, b: Bundle, now: int, later: int)
    requires UniqueDb(db) && Applied(db, b, now).Ok?
    ensures var once := Applied(db, b, now).value; var twice := Applied(once.0, b, later);
            && (twice.Ok? && twice.value.1 == AllReused(once.1) <==> ItemsAgree(b, once.0, once.1))
            && (ItemsAgree(b, once.0, once.1) ==>
                  SameDb(once.0, twice.value.0) && (NoPrerequisiteCycle(once.0) ==> NoPrerequisiteCycle(twice.value.0)))
  {
    hide Put, PutAll, Unique, Same, PutCollections, PutStacks, CommandWrites, CommandIds, CollectionIds, WriteOrder, SharedAlike, StackWrites, CollectionWrites;
    ProjectNeverConflicts(db.projects, b.project, now);
    ProjectAgain(db.projects, b.project, now, later);
    var project := Put(db.projects, ProjectWrite(b.project), now).value.1.id;
    var order := WriteOrder(b.collections, {}).value;
    var collectionIds := CollectionIds(project, order);
    CollectionsAgain(db.collections, project, order, now, later);
    CommandsShaped(project, collectionIds, b.commands);
    var ws := CommandWrites(project, collectionIds, b.commands);
    BatchSettlesExactly(db.commands, ws, StableKey, Fingerprint, now, later);
    var commands := PutAll(db.commands, ws, now).value;
    PutAllLength(db.commands, ws, now);
    CommandIdsSame(b.commands, commands.slots);
    var again := PutAll(commands.rows, ws, later);
    if SharedAlike(ws, commands.slots) {
      StacksAgain(db.stacks, commands.rows, again.value.rows, project, collectionIds, CommandIds(b.commands, commands.slots), b.stacks, now, later);
    }
    if ItemsAgree(b, Applied(db, b, now).value.0, Applied(db, b, now).value.1) {
      PrerequisitesSame(Applied(db, b, now).value.0.stacks, Applied(Applied(db, b, now).value.0, b, later).value.0.stacks);
    }
  }

  // A condition on the bundle and the tables alone

  /** The stack items without their members, which play no part in the search. */
  function StackShells(project: string, collectionIds: map<string, string>, items: seq<StackItem>): (ws: seq<Write>)
    ensures |ws| == |items|
  {
    if items == [] then []
    else [StackWrite(project, collectionIds, items[0], [])] + StackShells(project, collectionIds, items[1..])
  }

  /** No two items of a kind have a key or a fingerprint in common, or want the same row. */
  predicate Separable(db: Db, b: Bundle) {
    var project, order := Target(db.projects, ProjectWrite(b.project)), WriteOrder(b.collections, {});
    && order.Ok?
    && var collectionIds := CollectionIds(project, order.value);
       && Separate(db.collections, CollectionWrites(project, order.value))
       && Separate(db.commands, CommandWrites(project, collectionIds, b.commands))
       && Separate(db.stacks, StackShells(project, collectionIds, b.stacks))
  }

  predicate SameSearches(a: seq<Write>, b: seq<Write>) {
    |a| == |b| && forall i :: 0 <= i < |a| ==> a[i].search == b[i].search && a[i].newId == b[i].newId
  }

  lemma {:induction false} SeparateBySearch(t: Table, a: seq<Write>, b: seq<Write>)
    requires SameSearches(a, b) && Separate(t, a)
    ensures Separate(t, b)
  {
    hide Find;
    if a != [] {
      SeparateBySearch(t, a[1..], b[1..]);
      forall w | w in b[1..] ensures Apart(t, b[0], w) {
        var i :| 0 <= i < |b| - 1 && b[1..][i] == w;
        assert Apart(t, a[0], a[1..][i]);
      }
    }
  }

  lemma SearchesGrow(x: Write, y: Write, a: seq<Write>, b: seq<Write>)
    requires SameSearches(a, b) && x.search == y.search && x.newId == y.newId
    ensures SameSearches([x] + a, [y] + b)
  {
  }

  lemma ShellSearch(project: string, collectionIds: map<string, string>, item: StackItem, members: seq<Member>)
    ensures var shell, w := StackWrite(project, collectionIds, item, []), StackWrite(project, collectionIds, item, members);
            shell.search == w.search && shell.newId == w.newId
  {
  }

  lemma {:induction false} ShellsSearchAlike(commands: Table, project: string, collectionIds: map<string, string>, commandIds: map<string, string>, items: seq<StackItem>)
    ensures var ws := StackWrites(commands, project, collectionIds, commandIds, items);
            ws.Ok? ==> SameSearches(StackShells(project, collectionIds, items), ws.value)
  {
    hide Members, StackWrite, SameSearches;
    if items == [] {
      NoSearches();
    } else {
      ShellsSearchAlike(commands, project, collectionIds, commandIds, items[1..]);
      var members := Members(commands, project, commandIds, items[0]);
      var rest := StackWrites(commands, project, collectionIds, commandIds, items[1..]);
      if members.Ok? && rest.Ok? {
        ShellSearch(project, collectionIds, items[0], members.value);
        SearchesGrow(StackWrite(project, collectionIds, items[0], []), StackWrite(project, collectionIds, items[0], members.value),
                     StackShells(project, collectionIds, items[1..]), rest.value);
      }
    }
  }

  lemma NoSearches()
    ensures SameSearches([], [])
  {
  }

  lemma SeparableParts(db: Db, b: Bundle, now: int)
    requires Separable(db, b)
    ensures Put(db.projects, ProjectWrite(b.project), now).value.1.id == Target(db.projects, ProjectWrite(b.project))
    ensures PutAll(db.commands, CommandWrites(Target(db.projects, ProjectWrite(b.project)),
                                              CollectionIds(Target(db.projects, ProjectWrite(b.project)), WriteOrder(b.collections, {}).value), b.commands), now).Ok?
  {
    hide Separate, CommandWrites, PutAll, CollectionIds, WriteOrder;
    var project := Target(db.projects, ProjectWrite(b.project));
    var collectionIds := CollectionIds(project, WriteOrder(b.collections, {}).value);
    ProjectNeverConflicts(db.projects, b.project, now);
    PutGoesToTarget(db.projects, ProjectWrite(b.project), now);
    CommandsShaped(project, collectionIds, b.commands);
    SeparateItemsGoApart(db.commands, CommandWrites(project, collectionIds, b.commands), StableKey, Fingerprint, now);
  }

  lemma {:induction false} ResolvingFailsByKey(commands: Table, project: string, commandIds: map<string, string>, specs: seq<MemberItem>, resolved: map<string, string>)
    ensures var r := Resolved(commands, project, commandIds, specs, resolved); r.Err? ==> r.error.UnknownCommand?
    decreases specs
  {
    hide CommandOf;
    if specs != [] {
      ResolvingFailsByKey(commands, project, commandIds, specs[1..], resolved[specs[0].commandKey := CommandOf(commands, project, commandIds, specs[0].commandKey)]);
    }
  }

  lemma {:induction false} DependenciesFailByKey(resolved: map<string, string>, keys: seq<string>)
    ensures Dependencies(resolved, keys).Err? ==> Dependencies(resolved, keys).error.UnknownCommand?
  {
    if keys != [] {
      DependenciesFailByKey(resolved, keys[1..]);
    }
  }

  lemma {:induction false} MembersFailByKey(resolved: map<string, string>, specs: seq<MemberItem>, position: nat)
    requires position <= |specs|
    ensures MembersFrom(resolved, specs, position).Err? ==> MembersFrom(resolved, specs, position).error.UnknownCommand?
    decreases |specs| - position
  {
    if position < |specs| {
      DependenciesFailByKey(resolved, specs[position].dependsOnKeys);
      MembersFailByKey(resolved, specs, position + 1);
    }
  }

  lemma {:induction false} StacksFailByKey(commands: Table, project: string, collectionIds: map<string, string>, commandIds: map<string, string>, items: seq<StackItem>)
    ensures var r := StackWrites(commands, project, collectionIds, commandIds, items); r.Err? ==> r.error.UnknownCommand?
  {
    hide Resolved, MembersFrom;
    if items != [] {
      var specs := Specs(items[0]);
      ResolvingFailsByKey(commands, project, commandIds, specs, map[]);
      var resolved := Resolved(commands, project, commandIds, specs, map[]);
      if resolved.Ok? {
        MembersFailByKey(resolved.value, specs, 0);
      }
      StacksFailByKey(commands, project, collectionIds, commandIds, items[1..]);
    }
  }

  /** A separable bundle meets no conflict: only an unknown command key can make it fail. */
  lemma SeparableNeverConflicts(db: Db, b: Bundle, now: int)
    requires Separable(db, b) && Applied(db, b, now).Err?
    ensures Applied(db, b, now).error.UnknownCommand?
  {
    SeparableParts(db, b, now);
    hide Put, PutAll, CommandWrites, CollectionIds, CommandIds, PutCollections, Separate, Target, StackWrites, WriteOrder;
    ProjectNeverConflicts(db.projects, b.project, now);
    var project := Put(db.projects, ProjectWrite(b.project), now).value.1.id;
    var collectionIds := CollectionIds(project, WriteOrder(b.collections, {}).value);
    var commands := PutAll(db.commands, CommandWrites(project, collectionIds, b.commands), now).value;
    PutAllLength(db.commands, CommandWrites(project, collectionIds, b.commands), now);
    StacksFailByKey(commands.rows, project, collectionIds, CommandIds(b.commands, commands.slots), b.stacks);
  }

  lemma SeparateBatch(t: Table, ws: seq<Write>, key: Column, main: Column, now: int)
    requires Separate(t, ws) && forall w :: w in ws ==> Shaped(w, key, main)
    ensures PutAll(t, ws, now).Ok? && DistinctIds(PutAll(t, ws, now).value.slots)
    ensures SharedAlike(ws, PutAll(t, ws, now).value.slots)
  {
    hide Shaped, Separate, PutAll, DistinctIds, SharedAlike;
    SeparateItemsGoApart(t, ws, key, main, now);
    PutAllLength(t, ws, now);
    DistinctAgree(ws, PutAll(t, ws, now).value.slots);
  }

  lemma SeparableAgrees(db: Db, b: Bundle, now: int)
    requires Separable(db, b) && Applied(db, b, now).Ok?
    ensures var once := Applied(db, b, now).value; DistinctRows(once.1) && ItemsAgree(b, once.0, once.1)
  {
    SeparableParts(db, b, now);
    hide Put, PutAll, CommandWrites, CollectionIds, CommandIds, CollectionWrites, Separate, Target, StackWrites, StackShells, WriteOrder, SharedAlike, DistinctIds, Shaped;
    ProjectNeverConflicts(db.projects, b.project, now);
    var project := Put(db.projects, ProjectWrite(b.project), now).value.1.id;
    var order := WriteOrder(b.collections, {}).value;
    var collectionIds := CollectionIds(project, order);
    CollectionsShaped(project, order);
    SeparateBatch(db.collections, CollectionWrites(project, order), RootPath, Id, now);
    CommandsShaped(project, collectionIds, b.commands);
    var ws := CommandWrites(project, collectionIds, b.commands);
    SeparateBatch(db.commands, ws, StableKey, Fingerprint, now);
    var commands := PutAll(db.commands, ws, now).value;
    PutAllLength(db.commands, ws, now);
    var commandIds := CommandIds(b.commands, commands.slots);
    ShellsSearchAlike(commands.rows, project, collectionIds, commandIds, b.stacks);
    var stacks := StackWrites(commands.rows, project, collectionIds, commandIds, b.stacks).value;
    StacksShaped(commands.rows, project, collectionIds, commandIds, b.stacks);
    SeparateBySearch(db.stacks, StackShells(project, collectionIds, b.stacks), stacks);
    SeparateBatch(db.stacks, stacks, RootPath, StableKey, now);
  }

  /** The items of a separable bundle go to rows of their own, and the bundle settles at once. */
  lemma SeparableSettles(db: Db, b: Bundle, now: int, later: int)
    requires UniqueDb(db) && Separable(db, b) && Applied(db, b, now).Ok?
    ensures DistinctRows(Applied(db, b, now).value.1)
    ensures var once := Applied(db, b, now).value; var twice := Applied(once.0, b, later);
            twice.Ok? && twice.value.1 == AllReused(once.1) && SameDb(once.0, twice.value.0)
  {
    hide Applied, Separable, ItemsAgree, DistinctRows, UniqueDb;
    SeparableAgrees(db, b, now);
    ReapplyReusesExactly(db, b, now, later);
  }
}
