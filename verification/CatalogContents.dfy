/** What a bundle leaves in the tables, item by item. */
module CatalogContents {
  import opened Catalog
  import opened CatalogForest
  import opened CatalogOrder
  import opened CatalogRows
  import opened CatalogSettling
  import opened Results
  import opened Text
  import F = ParentForest
  import G = Digraph

  /** No later item went to the row of item i. */
  predicate LastOfRow(slots: seq<Slot>, i: nat) {
    i < |slots| && forall j :: i < j < |slots| ==> slots[j].id != slots[i].id
  }

  lemma PutHolds(t: Table, w: Write, now: int)
    requires Put(t, w, now).Ok?
    ensures Holds(Put(t, w, now).value.0, Put(t, w, now).value.1.id, w.content)
  {
    hide Find, Upsert;
    var row := Incoming(w, Find(t, w.search).value, now);
    if Lookup(t, QueryAt(Id, row)).Some? {
      LookupMatches(t, QueryAt(Id, row));
    }
    hide Lookup;
    UpsertFinds(t, row, QueryAt(Id, row));
  }

  lemma {:induction false} UpsertTimes(t: Table, row: Row)
    ensures var before, after := Lookup(t, Query(Id, [row.id])), Lookup(Upsert(t, row), Query(Id, [row.id]));
            && after.Some? && after.value.updatedAt == row.updatedAt && after.value.content == row.content
            && after.value.createdAt == if before.Some? then before.value.createdAt else row.createdAt
  {
    if t != [] && t[0].id != row.id {
      UpsertTimes(t[1..], row);
    }
  }

  /** A write touches one row; it updates the time of the change and keeps that of the creation. */
  lemma PutTouchesOneRow(t: Table, w: Write, now: int)
    requires Put(t, w, now).Ok?
    ensures var (after, slot) := Put(t, w, now).value; var old_, new_ := Lookup(t, Query(Id, [slot.id])), Lookup(after, Query(Id, [slot.id]));
            && new_.Some? && new_.value.content == w.content && new_.value.updatedAt == now
            && new_.value.createdAt == (if old_.Some? then old_.value.createdAt else if w.createdAt == 0 then now else w.createdAt)
            && forall id :: id != slot.id ==> Lookup(after, Query(Id, [id])) == Lookup(t, Query(Id, [id]))
  {
    hide Lookup, Upsert;
    var found := Find(t, w.search).value;
    var row := Incoming(w, found, now);
    UpsertTimes(t, row);
    if found.Some? {
      FoundIsStored(t, w.search);
    }
    forall id | id != row.id ensures Lookup(Upsert(t, row), Query(Id, [id])) == Lookup(t, Query(Id, [id])) {
      if Lookup(t, Query(Id, [id])).Some? {
        LookupMatches(t, Query(Id, [id]));
      }
      UpsertElsewhere(t, row, Query(Id, [id]));
    }
  }

  lemma FoundIsStored(t: Table, s: Search)
    requires Find(t, s).Ok? && Find(t, s).value.Some?
    ensures Lookup(t, Query(Id, [Find(t, s).value.value.id])).Some?
  {
    hide Lookup, CommandFingerprint;
    if s.key.Some? && Lookup(t, s.key.value).Some? {
      LookupMatches(t, s.key.value);
    } else if Lookup(t, s.main).Some? {
      LookupMatches(t, s.main);
    } else {
      LookupMatches(t, s.legacy.value);
    }
  }

  lemma HoldsStill(t: Table, w: Write, now: int, id: string, content: Content)
    requires Holds(t, id, content) && Put(t, w, now).Ok? && Put(t, w, now).value.1.id != id
    ensures Holds(Put(t, w, now).value.0, id, content)
  {
    hide Find, Upsert;
    LookupMatches(t, Query(Id, [id]));
    hide Lookup;
    UpsertElsewhere(t, Incoming(w, Find(t, w.search).value, now), Query(Id, [id]));
  }

  lemma {:induction false} HoldsThrough(t: Table, ws: seq<Write>, now: int, id: string, content: Content)
    requires Holds(t, id, content) && PutAll(t, ws, now).Ok?
    requires forall s :: s in PutAll(t, ws, now).value.slots ==> s.id != id
    ensures Holds(PutAll(t, ws, now).value.rows, id, content)
    decreases ws
  {
    hide Holds, Put;
    if ws != [] {
      var first, all := Put(t, ws[0], now).value, PutAll(t, ws, now).value;
      assert all.slots[0] == first.1 && all.slots[1..] == PutAll(first.0, ws[1..], now).value.slots;
      assert first.1 in all.slots;
      HoldsStill(t, ws[0], now, id, content);
      HoldsThrough(first.0, ws[1..], now, id, content);
    }
  }

  lemma FirstSlot(t: Table, ws: seq<Write>, now: int)
    requires ws != [] && PutAll(t, ws, now).Ok?
    ensures Put(t, ws[0], now).Ok?
    ensures var first, all := Put(t, ws[0], now).value, PutAll(t, ws, now).value;
            var rest := PutAll(first.0, ws[1..], now);
            && rest.Ok? && all.rows == rest.value.rows && all.slots == [first.1] + rest.value.slots
  {
    hide Put;
  }

  /** The last item that goes to a row leaves its content there. */
  lemma {:induction false} LastWriteHolds(t: Table, ws: seq<Write>, now: int, i: nat)
    requires PutAll(t, ws, now).Ok? && LastOfRow(PutAll(t, ws, now).value.slots, i)
    ensures i < |ws|
    ensures Holds(PutAll(t, ws, now).value.rows, PutAll(t, ws, now).value.slots[i].id, ws[i].content)
    decreases ws
  {
    hide Holds, Put, PutAll;
    PutAllLength(t, ws, now);
    FirstSlot(t, ws, now);
    var first := Put(t, ws[0], now).value;
    var all, rest := PutAll(t, ws, now).value, PutAll(first.0, ws[1..], now).value;
    if i == 0 {
      PutHolds(t, ws[0], now);
      forall s | s in rest.slots ensures s.id != first.1.id {
        var j :| 0 <= j < |rest.slots| && rest.slots[j] == s;
        assert all.slots[j + 1] == s;
      }
      HoldsThrough(first.0, ws[1..], now, first.1.id, ws[0].content);
    } else {
      assert forall j :: 0 <= j < |rest.slots| ==> rest.slots[j] == all.slots[j + 1];
      LastWriteHolds(first.0, ws[1..], now, i - 1);
    }
  }

  lemma {:induction false} CreatedIds(t: Table, ws: seq<Write>, now: int, i: nat)
    requires PutAll(t, ws, now).Ok? && i < |PutAll(t, ws, now).value.slots|
    ensures i < |ws| && (PutAll(t, ws, now).value.slots[i].action == Created ==> PutAll(t, ws, now).value.slots[i].id == ws[i].newId)
    decreases ws
  {
    hide Put, PutAll;
    PutAllLength(t, ws, now);
    FirstSlot(t, ws, now);
    if i == 0 {
      CreatedId(t, ws[0], now);
    } else {
      CreatedIds(Put(t, ws[0], now).value.0, ws[1..], now, i - 1);
    }
  }

  lemma CreatedId(t: Table, w: Write, now: int)
    requires Put(t, w, now).Ok?
    ensures Put(t, w, now).value.1.action == Created ==> Put(t, w, now).value.1.id == w.newId
  {
    hide Find, Upsert;
  }

  // Ids by key

  /** The ids by which the stacks of a bundle know its commands: for each key, where the last command with it went. */
  ghost predicate NamesCommands(items: seq<CommandItem>, slots: seq<Slot>, ids: map<string, string>) {
    && |items| == |slots|
    && (forall i :: 0 <= i < |items| && items[i].key != "" ==> items[i].key in ids)
    && forall key :: key in ids ==> key != "" && LastWithKey(items, slots, key, ids[key])
  }

  ghost predicate LastWithKey(items: seq<CommandItem>, slots: seq<Slot>, key: string, id: string)
    requires |items| == |slots|
  {
    exists i :: 0 <= i < |items| && items[i].key == key && slots[i].id == id && forall j :: i < j < |items| ==> items[j].key != key
  }

  lemma LastWithKeyGrows(items: seq<CommandItem>, slots: seq<Slot>, item: CommandItem, slot: Slot, key: string, id: string)
    requires |items| == |slots|
    ensures item.key == key && slot.id == id ==> LastWithKey(items + [item], slots + [slot], key, id)
    ensures item.key != key && LastWithKey(items, slots, key, id) ==> LastWithKey(items + [item], slots + [slot], key, id)
  {
    var more := items + [item];
    if item.key == key {
      assert more[|items|] == item;
    } else if LastWithKey(items, slots, key, id) {
      var i :| 0 <= i < |items| && items[i].key == key && slots[i].id == id && forall j :: i < j < |items| ==> items[j].key != key;
      assert more[i] == items[i] && (slots + [slot])[i] == slots[i];
    }
  }

  lemma NamesGrow(items: seq<CommandItem>, slots: seq<Slot>, ids: map<string, string>, item: CommandItem, slot: Slot)
    requires NamesCommands(items, slots, ids)
    ensures NamesCommands(items + [item], slots + [slot], if item.key != "" then ids[item.key := slot.id] else ids)
  {
    hide LastWithKey;
    var next := if item.key != "" then ids[item.key := slot.id] else ids;
    forall key | key in next ensures key != "" && LastWithKey(items + [item], slots + [slot], key, next[key]) {
      LastWithKeyGrows(items, slots, item, slot, key, next[key]);
    }
  }

  lemma {:induction false} CommandIdsName(items: seq<CommandItem>, slots: seq<Slot>)
    requires |items| == |slots|
    ensures NamesCommands(items, slots, CommandIds(items, slots))
  {
    if items != [] {
      hide NamesCommands;
      var n := |items| - 1;
      CommandIdsName(items[..n], slots[..n]);
      NamesGrow(items[..n], slots[..n], CommandIds(items[..n], slots[..n]), items[n], slots[n]);
      assert items == items[..n] + [items[n]] && slots == slots[..n] + [slots[n]];
    }
  }

  /** The row of the collection with the key; blank if the bundle has none. */
  predicate InCollection(project: string, items: seq<CollectionItem>, key: string, id: string) {
    id == if exists i :: i in items && i.key == key then CatalogId("collection", project, key) else ""
  }

  lemma CollectionIdsName(project: string, items: seq<CollectionItem>, order: seq<CollectionItem>, key: string)
    requires forall i :: i in items <==> i in order
    ensures InCollection(project, items, key, Get(CollectionIds(project, order), key))
  {
    hide CatalogId;
    IdsAreDerived(project, order);
  }

  // The rows

  function Stored(t: Table, id: string): Option<Content> {
    var found := Lookup(t, Query(Id, [id]));
    if found.Some? then Some(found.value.content) else None
  }

  ghost predicate CollectionStored(project: string, t: Table, i: CollectionItem) {
    Stored(t, CatalogId("collection", project, i.key)) ==
    Some(CollectionRow(project, i.name, if i.parentKey == "" then "" else CatalogId("collection", project, i.parentKey), i.sortOrder))
  }

  /** Under this id a command item is stored: with its white space trimmed off the directory, and with its fingerprint. */
  ghost predicate CommandStored(project: string, collections: seq<CollectionItem>, t: Table, id: string, i: CommandItem) {
    var c := Stored(t, id);
    && c.Some? && c.value.CommandRow?
    && c.value.projectId == project && InCollection(project, collections, i.collectionKey, c.value.collectionId)
    && c.value.launch == i.launch.(cwd := Trim(i.launch.cwd)) && c.value.command == i.details
    && c.value.stableKey == i.key && c.value.fingerprint == CommandFingerprint(project, c.value.launch)
  }

  /** Under this id a stack item is stored: with its members wired, and with its edges as they come. */
  ghost predicate StackStored(project: string, collections: seq<CollectionItem>, commands: Table, ids: map<string, string>, t: Table, id: string, i: StackItem) {
    var c := Stored(t, id);
    && c.Some? && c.value.StackRow?
    && c.value.projectId == project && InCollection(project, collections, i.collectionKey, c.value.collectionId)
    && Wired(commands, project, ids, i, c.value.members)
    && (i.key != "" ==> c.value.stableKey == i.key) && (i.key == "" ==> c.value.stableKey == Lower(Trim(i.details.name)))
    && c.value.stack == i.details && c.value.dependsOnStacks == i.dependsOnStacks
    && (Trim(i.environment) != "" ==> c.value.environment == i.environment)
    && (Trim(i.environment) == "" ==> c.value.environment == DEFAULT_ENVIRONMENT)
  }

  /** A row that an item creates gets an id that is derived from the key of the item. */
  predicate Named(prefix: string, project: string, key: string, slot: Slot) {
    slot.action == Created ==> slot.id == CatalogId(prefix, project, key)
  }

  ghost predicate NamesRows(b: Bundle, r: Report) {
    && |r.commands| == |b.commands| && |r.stacks| == |b.stacks|
    && (r.project.action == Created ==>
          r.project.id == if b.project.id != "" then b.project.id else CatalogId("project", b.project.rootPath, ""))
    && (forall i :: 0 <= i < |b.commands| ==>
          var c := b.commands[i];
          Named("command", r.project.id, OrDefault(c.key, CommandFingerprint(r.project.id, c.launch.(cwd := Trim(c.launch.cwd)))), r.commands[i]))
    && (forall i :: 0 <= i < |b.stacks| ==>
          var s := b.stacks[i]; Named("stack", r.project.id, OrDefault(s.key, Lower(Trim(s.details.name))), r.stacks[i]))
  }

  /** Every item of a bundle is stored in the row that it went to, unless a later item went there, too. */
  ghost predicate Stores(db: Db, b: Bundle, r: Report) {
    && NamesRows(b, r)
    && Stored(db.projects, r.project.id) == Some(ProjectRow(b.project.name, b.project.rootPath))
    && (forall i :: i in b.collections ==> CollectionStored(r.project.id, db.collections, i))
    && (forall i :: 0 <= i < |b.commands| && LastOfRow(r.commands, i) ==>
          CommandStored(r.project.id, b.collections, db.commands, r.commands[i].id, b.commands[i]))
    && exists ids :: NamesCommands(b.commands, r.commands, ids) && StacksStored(db, b, r, ids)
  }

  ghost predicate StacksStored(db: Db, b: Bundle, r: Report, ids: map<string, string>) {
    forall i :: 0 <= i < |b.stacks| && i < |r.stacks| && LastOfRow(r.stacks, i) ==>
      StackStored(r.project.id, b.collections, db.commands, ids, db.stacks, r.stacks[i].id, b.stacks[i])
  }

  // Proofs, table by table

  lemma ProjectIsStored(t: Table, p: ProjectItem, now: int)
    ensures var put := Put(t, ProjectWrite(p), now);
            && put.Ok? && Stored(put.value.0, put.value.1.id) == Some(ProjectRow(p.name, p.rootPath))
            && (put.value.1.action == Created ==> put.value.1.id == if p.id != "" then p.id else CatalogId("project", p.rootPath, ""))
  {
    ProjectNeverConflicts(t, p, now);
    CreatedId(t, ProjectWrite(p), now);
    PutHolds(t, ProjectWrite(p), now);
  }

  lemma {:induction false} TreeTells(t: Table, id: string)
    ensures id in TreeOf(t) <==> Stored(t, id).Some?
    ensures id in TreeOf(t) ==> TreeOf(t)[id] == NodeOf(Stored(t, id).value)
  {
    if t != [] {
      TreeTells(t[1..], id);
    }
  }

  lemma {:induction false} CollectionWritesAt(project: string, order: seq<CollectionItem>, p: nat)
    requires p < |order|
    ensures |CollectionWrites(project, order)| == |order|
    ensures var c := CollectionWrites(project, order)[p].content;
            c.CollectionRow? && c.name == order[p].name && c.sortOrder == order[p].sortOrder
  {
    hide CollectionIds, CatalogId;
    if p < |order| - 1 {
      CollectionWritesAt(project, order[..|order| - 1], p);
    } else if |order| > 1 {
      CollectionWritesAt(project, order[..|order| - 1], 0);
    }
  }

  lemma CollectionSlot(t: Table, project: string, ids: map<string, string>, item: CollectionItem, now: int)
    ensures var put := Put(t, CollectionWrite(project, ids, item), now); put.Ok? && put.value.1.id == CatalogId("collection", project, item.key)
  {
    var w := CollectionWrite(project, ids, item);
    if Lookup(t, w.search.main).Some? {
      LookupMatches(t, w.search.main);
    }
  }

  lemma {:induction false} CollectionSlots(t: Table, project: string, order: seq<CollectionItem>, now: int)
    ensures var slots := PutCollections(t, project, order, now).slots;
            |slots| == |order| && forall p :: 0 <= p < |order| ==> slots[p].id == CatalogId("collection", project, order[p].key)
  {
    hide Put, PutAll, CatalogId;
    CollectionsKeyless(project, order);
    KeylessNeverConflicts(t, CollectionWrites(project, order), now);
    if order == [] {
      EmptyBatch(t, project, now, Ok([]));
    } else {
      var before, last := order[..|order| - 1], order[|order| - 1];
      CollectionSlots(t, project, before, now);
      CollectionsKeyless(project, before);
      KeylessNeverConflicts(t, CollectionWrites(project, before), now);
      var w := CollectionWrite(project, CollectionIds(project, before), last);
      PutAllGrows(t, CollectionWrites(project, before), w, now);
      CollectionSlot(PutCollections(t, project, before, now).rows, project, CollectionIds(project, before), last, now);
    }
  }

  lemma CollectionsAreStored(t: Table, project: string, items: seq<CollectionItem>, now: int)
    requires F.Forest(TreeOf(t)) && F.GoodKeys(Shapes(items)) && WriteOrder(items, {}).Ok?
    ensures forall i :: i in items ==> CollectionStored(project, PutCollections(t, project, WriteOrder(items, {}).value, now).rows, i)
    ensures forall i :: i in items <==> i in WriteOrder(items, {}).value
  {
    hide F.Forest, F.KeyGraph, F.Resolvable, F.NeverResolves, F.Keys, G.Distinct, G.Ordered, WriteOrder, TreeOf, PutAll, CollectionWrites, CatalogId, Shapes;
    var order := WriteOrder(items, {}).value;
    PassesAreExact(items);
    assert [] + order == order;
    CollectionsKeepForest(t, project, items, now);
    var done := PutCollections(t, project, order, now);
    forall i | i in items ensures CollectionStored(project, done.rows, i) {
      var p := LastPosition(order, i.key);
      KeyTells(items, order[p], i);
      CollectionIsStored(t, project, order, p, now);
      TreeTells(done.rows, IdIn(project)(i.key));
    }
  }

  lemma LastKeyIsNew(before: seq<CollectionItem>, last: CollectionItem)
    requires G.Distinct(F.Keys(Shapes(before + [last])))
    ensures G.Distinct(F.Keys(Shapes(before))) && last.key !in KeysOf(before)
  {
    hide KeysOf;
    var keys := F.Keys(Shapes(before));
    assert (before + [last])[..|before|] == before && (keys + [last.key])[..|keys|] == keys;
    assert Shapes(before + [last]) == Shapes(before) + [Shape(last)] && Shapes(before + [last])[..|before|] == Shapes(before);
    assert F.Keys(Shapes(before + [last])) == keys + [last.key];
    KeysOfShapes(before);
  }

  lemma {:induction false} KeyTells(items: seq<CollectionItem>, a: CollectionItem, b: CollectionItem)
    requires G.Distinct(F.Keys(Shapes(items))) && a in items && b in items && a.key == b.key
    ensures a == b
  {
    hide F.Keys, Shapes, G.Distinct;
    var before, last := items[..|items| - 1], items[|items| - 1];
    assert items == before + [last];
    LastKeyIsNew(before, last);
    if a in before && b in before {
      KeyTells(before, a, b);
    }
  }

  function LastPosition(order: seq<CollectionItem>, key: string): (p: nat)
    requires exists i :: i in order && i.key == key
    ensures p < |order| && order[p].key == key && forall j :: p < j < |order| ==> order[j].key != key
  {
    if order[|order| - 1].key == key then |order| - 1
    else
      assert order == order[..|order| - 1] + [order[|order| - 1]];
      LastPosition(order[..|order| - 1], key)
  }

  lemma CollectionIsStored(t: Table, project: string, order: seq<CollectionItem>, p: nat, now: int)
    requires p < |order| && forall j :: p < j < |order| ==> order[j].key != order[p].key
    ensures var c := Stored(PutCollections(t, project, order, now).rows, CatalogId("collection", project, order[p].key));
            c.Some? && c.value.CollectionRow? && c.value.name == order[p].name && c.value.sortOrder == order[p].sortOrder
  {
    hide PutAll, CollectionWrites, CatalogId;
    var slots := PutCollections(t, project, order, now).slots;
    CollectionSlots(t, project, order, now);
    forall j | p < j < |slots| ensures slots[j].id != slots[p].id {
      if slots[j].id == slots[p].id {
        IdsDiffer(project, order[j].key, order[p].key);
      }
    }
    CollectionsKeyless(project, order);
    KeylessNeverConflicts(t, CollectionWrites(project, order), now);
    LastWriteHolds(t, CollectionWrites(project, order), now, p);
    CollectionWritesAt(project, order, p);
  }

  lemma CommandsAreStored(t: Table, project: string, items: seq<CollectionItem>, order: seq<CollectionItem>, commands: seq<CommandItem>, now: int)
    requires forall i :: i in items <==> i in order
    requires PutAll(t, CommandWrites(project, CollectionIds(project, order), commands), now).Ok?
    ensures var done := PutAll(t, CommandWrites(project, CollectionIds(project, order), commands), now).value;
            && |done.slots| == |commands|
            && forall i :: 0 <= i < |commands| && LastOfRow(done.slots, i) ==>
                 CommandStored(project, items, done.rows, done.slots[i].id, commands[i])
    ensures var done := PutAll(t, CommandWrites(project, CollectionIds(project, order), commands), now).value;
            forall i :: 0 <= i < |commands| && i < |done.slots| ==>
              var launch := commands[i].launch.(cwd := Trim(commands[i].launch.cwd));
              Named("command", project, OrDefault(commands[i].key, CommandFingerprint(project, launch)), done.slots[i])
  {
    hide PutAll, CollectionIds, InCollection, LastOfRow, CommandFingerprint, CatalogId, OrDefault, Trim;
    var ws := CommandWrites(project, CollectionIds(project, order), commands);
    var done := PutAll(t, ws, now).value;
    PutAllLength(t, ws, now);
    forall i | 0 <= i < |commands| && LastOfRow(done.slots, i)
      ensures CommandStored(project, items, done.rows, done.slots[i].id, commands[i])
    {
      LastWriteHolds(t, ws, now, i);
      CollectionIdsName(project, items, order, commands[i].collectionKey);
    }
    forall i | 0 <= i < |commands|
      ensures var launch := commands[i].launch.(cwd := Trim(commands[i].launch.cwd));
              Named("command", project, OrDefault(commands[i].key, CommandFingerprint(project, launch)), done.slots[i])
    {
      CreatedIds(t, ws, now, i);
    }
  }

  lemma {:induction false} StackWritesAt(commands: Table, project: string, collectionIds: map<string, string>, ids: map<string, string>, items: seq<StackItem>, i: nat)
    requires StackWrites(commands, project, collectionIds, ids, items).Ok?
    ensures |StackWrites(commands, project, collectionIds, ids, items).value| == |items|
    ensures i < |items| ==>
              var members := Members(commands, project, ids, items[i]);
              members.Ok? && StackWrites(commands, project, collectionIds, ids, items).value[i] == StackWrite(project, collectionIds, items[i], members.value)
    decreases items
  {
    hide Members, StackWrite;
    if items != [] {
      StackWritesAt(commands, project, collectionIds, ids, items[1..], if i == 0 then 0 else i - 1);
    }
  }

  lemma StackIsStored(project: string, items: seq<CollectionItem>, order: seq<CollectionItem>, commands: Table, ids: map<string, string>,
                      t: Table, id: string, i: StackItem)
    requires forall c :: c in items <==> c in order
    requires Members(commands, project, ids, i).Ok?
    requires Holds(t, id, StackWrite(project, CollectionIds(project, order), i, Members(commands, project, ids, i).value).content)
    ensures StackStored(project, items, commands, ids, t, id, i)
  {
    hide Members, Wired, CollectionIds, InCollection, Lower, Trim, Lookup;
    MembersAreWired(commands, project, ids, i);
    CollectionIdsName(project, items, order, i.collectionKey);
  }

  lemma StackIsNamed(project: string, collectionIds: map<string, string>, item: StackItem, members: seq<Member>, slot: Slot)
    requires slot.action == Created ==> slot.id == StackWrite(project, collectionIds, item, members).newId
    ensures Named("stack", project, OrDefault(item.key, Lower(Trim(item.details.name))), slot)
  {
    hide CatalogId, OrDefault, Lower, Trim;
  }

  /** The prerequisites that the check of a bundle reads are those of the stored rows. */
  lemma {:induction false} PrerequisitesAreStored(t: Table, id: string)
    ensures id in PrerequisitesOf(t) <==> Stored(t, id).Some?
    ensures id in PrerequisitesOf(t) ==>
              PrerequisitesOf(t)[id] == if Stored(t, id).value.StackRow? then Stored(t, id).value.dependsOnStacks else []
  {
    if t != [] {
      PrerequisitesAreStored(t[1..], id);
    }
  }

  lemma StacksAreStored(t: Table, commands: Table, project: string, items: seq<CollectionItem>, order: seq<CollectionItem>, ids: map<string, string>,
                        stacks: seq<StackItem>, now: int)
    requires forall i :: i in items <==> i in order
    requires PutStacks(t, commands, project, CollectionIds(project, order), ids, stacks, now).Ok?
    ensures var done := PutStacks(t, commands, project, CollectionIds(project, order), ids, stacks, now).value;
            && |done.slots| == |stacks|
            && forall i :: 0 <= i < |stacks| && LastOfRow(done.slots, i) ==>
                 StackStored(project, items, commands, ids, done.rows, done.slots[i].id, stacks[i])
    ensures var done := PutStacks(t, commands, project, CollectionIds(project, order), ids, stacks, now).value;
            forall i :: 0 <= i < |stacks| && i < |done.slots| ==>
              Named("stack", project, OrDefault(stacks[i].key, Lower(Trim(stacks[i].details.name))), done.slots[i])
  {
    hide PutAll, StackWrites, StackWrite, Members, CollectionIds, LastOfRow, StackStored, Holds, Named;
    var ws := StackWrites(commands, project, CollectionIds(project, order), ids, stacks).value;
    StacksKeyless(commands, project, CollectionIds(project, order), ids, stacks);
    KeylessNeverConflicts(t, ws, now);
    var done := PutAll(t, ws, now).value;
    PutAllLength(t, ws, now);
    StackWritesAt(commands, project, CollectionIds(project, order), ids, stacks, 0);
    forall i | 0 <= i < |stacks| && LastOfRow(done.slots, i)
      ensures StackStored(project, items, commands, ids, done.rows, done.slots[i].id, stacks[i])
    {
      LastWriteHolds(t, ws, now, i);
      StackWritesAt(commands, project, CollectionIds(project, order), ids, stacks, i);
      StackIsStored(project, items, order, commands, ids, done.rows, done.slots[i].id, stacks[i]);
    }
    forall i | 0 <= i < |stacks|
      ensures Named("stack", project, OrDefault(stacks[i].key, Lower(Trim(stacks[i].details.name))), done.slots[i])
    {
      CreatedIds(t, ws, now, i);
      StackWritesAt(commands, project, CollectionIds(project, order), ids, stacks, i);
      StackIsNamed(project, CollectionIds(project, order), stacks[i], Members(commands, project, ids, stacks[i]).value, done.slots[i]);
    }
  }

  /** What ApplyCatalog stores, said of the bundle and of the tables. */
  lemma AppliedStores(db: Db, b: Bundle, now: int)
    requires F.Forest(TreeOf(db.collections)) && F.GoodKeys(Shapes(b.collections)) && Applied(db, b, now).Ok?
    ensures Stores(Applied(db, b, now).value.0, b, Applied(db, b, now).value.1)
  {
    hide Put, PutAll, PutCollections, PutStacks, CommandWrites, CommandIds, CollectionIds, WriteOrder, TreeOf, Shapes, F.Forest, F.GoodKeys;
    hide NamesCommands, Stored, CollectionStored, CommandStored, StackStored, LastOfRow;
    ProjectIsStored(db.projects, b.project, now);
    var project := Put(db.projects, ProjectWrite(b.project), now).value.1.id;
    var order := WriteOrder(b.collections, {}).value;
    var collectionIds := CollectionIds(project, order);
    CollectionsAreStored(db.collections, project, b.collections, now);
    CommandsAreStored(db.commands, project, b.collections, order, b.commands, now);
    var commands := PutAll(db.commands, CommandWrites(project, collectionIds, b.commands), now).value;
    CommandIdsName(b.commands, commands.slots);
    var ids := CommandIds(b.commands, commands.slots);
    StacksAreStored(db.stacks, commands.rows, project, b.collections, order, ids, b.stacks, now);
    var done := Applied(db, b, now).value;
    assert StacksStored(done.0, b, done.1, ids);
  }
}
