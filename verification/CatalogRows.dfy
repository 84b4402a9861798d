/**
 The four catalog tables and the lookup-then-upsert step that ApplyCatalog runs on
 them. A table lists its rows in the order of their insertion; a query finds the
 first row that matches.
 */
module CatalogRows {
  import opened Results
  import opened Text
  import P = Prerequisites

  // Rows

  /** What the fingerprint of a command looks at, besides its project. */
  datatype Launch = Launch(
    command: string, cwd: string, shell: string, kind: string,
    lifecycleMode: string, stopCommand: string, restartCommand: string)

  datatype CommandDetails = CommandDetails(
    name: string, description: string, concurrencyPolicy: string, env: map<string, string>,
    expectedPorts: seq<int>, tags: seq<string>, favorite: bool, createdBy: string,
    createdFromRunId: string, discoverySource: string, parameters: seq<string>)

  datatype StackDetails = StackDetails(
    name: string, description: string, startStrategy: string, failurePolicy: string,
    favorite: bool, env: map<string, map<string, string>>)

  datatype Member = Member(
    commandId: string, position: nat, dependsOn: seq<string>, waitFor: string,
    waitTimeoutMs: int, environment: string, env: map<string, string>)

  /** All that a row stores besides its id and its times, which is what the comparables compare. */
  datatype Content =
    | ProjectRow(name: string, rootPath: string)
    | CollectionRow(projectId: string, name: string, parentId: string, sortOrder: int)
    | CommandRow(projectId: string, collectionId: string, launch: Launch, command: CommandDetails,
                 stableKey: string, fingerprint: string)
    | StackRow(projectId: string, collectionId: string, stableKey: string, stack: StackDetails,
               members: seq<Member>, dependsOnStacks: seq<P.Edge>, environment: string)

  datatype Row = Row(id: string, content: Content, createdAt: int, updatedAt: int)

  type Table = seq<Row>

  /** Stands for SHA-256; the proofs use no more of it than that it is never blank. */
  function Digest(s: string): (d: string)
    ensures d != ""
  {
    "#" + s
  }

  function CatalogId(prefix: string, a: string, b: string): (id: string)
    ensures id != ""
  {
    prefix + "_" + Digest(prefix + "\0" + a + "\0" + b)
  }

  function OrDefault(s: string, default: string): string {
    if s == "" then default else s
  }

  function CommandFingerprint(projectId: string, launch: Launch): (digest: string)
    ensures digest != ""
  {
    Digest(Join([
      Trim(projectId), Trim(launch.cwd), OrDefault(Trim(launch.shell), "/bin/sh"),
      Join(Fields(launch.command), " "), OrDefault(Trim(launch.kind), "service"), Trim(launch.lifecycleMode),
      Join(Fields(launch.stopCommand), " "), Join(Fields(launch.restartCommand), " ")], "\0"))
  }

  // Queries

  datatype Column = Id | RootPath | StableKey | Fingerprint | Relaunched

  datatype Query = Query(column: Column, value: seq<string>)

  /** Relaunched compares the fingerprint computed from a row, not the one it stores. */
  function Value(column: Column, row: Row): seq<string> {
    match column
    case Id => [row.id]
    case RootPath => if row.content.ProjectRow? then [row.content.rootPath] else []
    case StableKey =>
      if row.content.CommandRow? || row.content.StackRow? then [row.content.projectId, row.content.stableKey] else []
    case Fingerprint => if row.content.CommandRow? then [row.content.fingerprint] else []
    case Relaunched =>
      if row.content.CommandRow?
      then [row.content.projectId, CommandFingerprint(row.content.projectId, row.content.launch)]
      else []
  }

  predicate Matches(q: Query, row: Row) {
    Value(q.column, row) == q.value
  }

  function QueryAt(column: Column, row: Row): Query {
    Query(column, Value(column, row))
  }

  /** The unique indexes leave out rows without a stable key or fingerprint. */
  predicate Blank(column: Column, row: Row) {
    var v := Value(column, row);
    v == [] || (v[|v| - 1] == "" && column != Id)
  }

  function Lookup(t: Table, q: Query): Option<Row> {
    if t == [] then None else if Matches(q, t[0]) then Some(t[0]) else Lookup(t[1..], q)
  }

  /** A conflicting id keeps its place and its creation time. */
  function Upsert(t: Table, row: Row): Table {
    if t == [] then [row]
    else if t[0].id == row.id then [row.(createdAt := t[0].createdAt)] + t[1..]
    else [t[0]] + Upsert(t[1..], row)
  }

  predicate Unique(t: Table, column: Column) {
    t != [] ==>
      && Unique(t[1..], column)
      && (Blank(column, t[0]) || Lookup(t[1..], QueryAt(column, t[0])).None?)
  }

  lemma {:induction false} LookupMatches(t: Table, q: Query)
    requires Lookup(t, q).Some?
    ensures Matches(q, Lookup(t, q).value)
    ensures Lookup(t, QueryAt(Id, Lookup(t, q).value)).Some?
  {
    if !Matches(q, t[0]) {
      LookupMatches(t[1..], q);
    }
  }

  lemma {:induction false} LookupById(t: Table, q: Query)
    requires Unique(t, Id) && Lookup(t, q).Some?
    ensures Lookup(t, QueryAt(Id, Lookup(t, q).value)) == Lookup(t, q)
  {
    hide CommandFingerprint;
    if !Matches(q, t[0]) {
      LookupById(t[1..], q);
    }
  }

  lemma {:induction false} UpsertFinds(t: Table, w: Row, q: Query)
    requires Matches(q, w) && (Lookup(t, q).Some? ==> Lookup(t, q).value.id == w.id)
    ensures Lookup(Upsert(t, w), q).Some?
    ensures Lookup(Upsert(t, w), q).value.id == w.id && Lookup(Upsert(t, w), q).value.content == w.content
    ensures Lookup(Upsert(t, w), q) == Lookup(Upsert(t, w), QueryAt(Id, w))
  {
    hide CommandFingerprint;
    if t != [] && t[0].id != w.id {
      UpsertFinds(t[1..], w, q);
    }
  }

  lemma {:induction false} UpsertElsewhere(t: Table, w: Row, q: Query)
    requires !Matches(q, w) && (Lookup(t, q).Some? ==> Lookup(t, q).value.id != w.id)
    ensures Lookup(Upsert(t, w), q) == Lookup(t, q)
  {
    hide CommandFingerprint;
    if t != [] && t[0].id != w.id && !Matches(q, t[0]) {
      UpsertElsewhere(t[1..], w, q);
    }
  }

  /** A row whose column value only a row with its own id holds can be written. */
  lemma {:induction false} UpsertKeepsUnique(t: Table, w: Row, c: Column)
    requires Unique(t, c) && Unique(t, Id)
    requires Blank(c, w) || (Lookup(t, QueryAt(c, w)).Some? ==> Lookup(t, QueryAt(c, w)).value.id == w.id)
    ensures Unique(Upsert(t, w), c)
  {
    hide CommandFingerprint;
    if t != [] {
      if t[0].id == w.id {
        if Lookup(t[1..], QueryAt(c, w)).Some? {
          LookupMatches(t[1..], QueryAt(c, w));
        }
      } else {
        UpsertKeepsUnique(t[1..], w, c);
        if !Blank(c, t[0]) {
          UpsertElsewhere(t[1..], w, QueryAt(c, t[0]));
        }
      }
    }
  }

  // Tables that differ in update times only

  predicate Alike(a: Row, b: Row) {
    a.(updatedAt := b.updatedAt) == b
  }

  predicate Same(t: Table, u: Table) {
    |t| == |u| && (t != [] ==> Alike(t[0], u[0]) && Same(t[1..], u[1..]))
  }

  predicate SameFound(a: Option<Row>, b: Option<Row>) {
    a.Some? == b.Some? && (a.Some? ==> Alike(a.value, b.value))
  }

  lemma {:induction false} SameSelf(t: Table)
    ensures Same(t, t)
  {
    if t != [] {
      SameSelf(t[1..]);
    }
  }

  lemma {:induction false} LookupSame(t: Table, u: Table, q: Query)
    requires Same(t, u)
    ensures SameFound(Lookup(t, q), Lookup(u, q))
  {
    hide CommandFingerprint;
    if t != [] {
      LookupSame(t[1..], u[1..], q);
    }
  }

  lemma {:induction false} UpsertSame(t: Table, u: Table, w: Row)
    requires Same(t, u) && Lookup(u, QueryAt(Id, w)).Some? && Lookup(u, QueryAt(Id, w)).value.content == w.content
    ensures Same(t, Upsert(u, w))
  {
    if u[0].id != w.id {
      UpsertSame(t[1..], u[1..], w);
    }
  }

  // One item

  datatype Action = Created | Reused | Updated

  datatype Conflict = Conflict

  /** How the row of an item is searched for. */
  datatype Search = Search(key: Option<Query>, main: Query, legacy: Option<Query>)

  /** An item on its way into a table; newId is the id of a new row. */
  datatype Write = Write(search: Search, newId: string, content: Content, createdAt: int)

  datatype Slot = Slot(id: string, action: Action)

  datatype Batch = Batch(rows: Table, slots: seq<Slot>)

  function Find(t: Table, s: Search): Result<Option<Row>, Conflict> {
    var byKey := if s.key.Some? then Lookup(t, s.key.value) else None;
    var byMain := Lookup(t, s.main);
    if byKey.Some? then
      if byMain.Some? && byMain.value.id != byKey.value.id then Err(Conflict) else Ok(byKey)
    else if byMain.Some? || s.legacy.None? then Ok(byMain)
    else Ok(Lookup(t, s.legacy.value))
  }

  /** The row that an item writes once its search has answered. */
  function Incoming(w: Write, found: Option<Row>, now: int): Row {
    match found
    case Some(r) => Row(r.id, w.content, r.createdAt, now)
    case None => Row(w.newId, w.content, if w.createdAt == 0 then now else w.createdAt, now)
  }

  function ActionOf(w: Write, found: Option<Row>): Action {
    match found
    case Some(r) => if r.content == w.content then Reused else Updated
    case None => Created
  }

  function Put(t: Table, w: Write, now: int): Result<(Table, Slot), Conflict> {
    var found := Find(t, w.search);
    if found.Err? then Err(found.error)
    else
      var row := Incoming(w, found.value, now);
      Ok((Upsert(t, row), Slot(row.id, ActionOf(w, found.value))))
  }

  function PutAll(t: Table, ws: seq<Write>, now: int): Result<Batch, Conflict>
    decreases ws
  {
    if ws == [] then Ok(Batch(t, []))
    else
      var first := Put(t, ws[0], now);
      if first.Err? then Err(first.error)
      else
        var rest := PutAll(first.value.0, ws[1..], now);
        if rest.Err? then rest else Ok(Batch(rest.value.rows, [first.value.1] + rest.value.slots))
  }

  lemma {:induction false} PutAllGrows(t: Table, ws: seq<Write>, w: Write, now: int)
    requires PutAll(t, ws, now).Ok?
    ensures var before, last := PutAll(t, ws, now).value, Put(PutAll(t, ws, now).value.rows, w, now);
            PutAll(t, ws + [w], now) ==
            if last.Err? then Err(last.error) else Ok(Batch(last.value.0, before.slots + [last.value.1]))
    decreases ws
  {
    hide Put;
    if ws == [] {
      assert ([] + [w])[1..] == [] && [] + [w] == [w];
      var last := Put(t, w, now);
      if last.Ok? {
        assert [last.value.1] + [] == [] + [last.value.1];
      }
    } else {
      var first := Put(t, ws[0], now);
      PutAllGrows(first.value.0, ws[1..], w, now);
      assert (ws + [w])[1..] == ws[1..] + [w];
      var rest := PutAll(first.value.0, ws[1..], now).value;
      assert forall s: Slot :: [first.value.1] + (rest.slots + [s]) == ([first.value.1] + rest.slots) + [s];
    }
  }

  /** Without a key there is one lookup, and nothing it could contradict. */
  lemma {:induction false} KeylessNeverConflicts(t: Table, ws: seq<Write>, now: int)
    requires forall w :: w in ws ==> w.search.key.None?
    ensures PutAll(t, ws, now).Ok?
    decreases ws
  {
    if ws != [] {
      KeylessNeverConflicts(Put(t, ws[0], now).value.0, ws[1..], now);
    }
  }

  lemma {:induction false} PutAllLength(t: Table, ws: seq<Write>, now: int)
    requires PutAll(t, ws, now).Ok?
    ensures |PutAll(t, ws, now).value.slots| == |ws|
    decreases ws
  {
    if ws != [] {
      PutAllLength(Put(t, ws[0], now).value.0, ws[1..], now);
    }
  }

  // What the items of one table have in common

  /** An item is searched for by what it will store: by its key column, unless blank, and by the main one. */
  predicate Shaped(w: Write, key: Column, main: Column) {
    && key != Id && w.search.main.column == main
    && (if main == Fingerprint
        then w.search.legacy == Some(QueryAt(Relaunched, Row(w.newId, w.content, 0, 0)))
        else w.search.legacy.None?)
    && Matches(w.search.main, Row(w.newId, w.content, 0, 0))
    && (if w.search.key.Some?
        then main != Id && w.search.key.value == QueryAt(key, Row(w.newId, w.content, 0, 0)) && !Blank(key, Row(w.newId, w.content, 0, 0))
        else Blank(key, Row(w.newId, w.content, 0, 0)))
  }

  lemma SameColumns(a: Row, b: Row)
    requires a.content == b.content
    ensures forall c: Column :: c != Id ==> Value(c, a) == Value(c, b)
  {
    hide CommandFingerprint;
  }

  /** The written row answers the queries of its own item. */
  lemma IncomingMatches(t: Table, w: Write, key: Column, main: Column, now: int)
    requires Shaped(w, key, main) && Find(t, w.search).Ok?
    ensures var row := Incoming(w, Find(t, w.search).value, now);
            && w.search.main == QueryAt(main, row)
            && (w.search.key.Some? ==> w.search.key.value == QueryAt(key, row))
            && (w.search.key.None? ==> Blank(key, row))
            && (w.search.legacy.Some? ==> w.search.legacy.value == QueryAt(Relaunched, row))
  {
    hide CommandFingerprint, Lookup;
    var found := Find(t, w.search).value;
    if main == Id {
      if found.Some? {
        LookupMatches(t, w.search.main);
      }
    } else {
      SameColumns(Row(w.newId, w.content, 0, 0), Incoming(w, found, now));
    }
  }

  /** Both lookups lead to one row, which stores what the item brings. */
  predicate Settled(t: Table, w: Write, id: string) {
    var byMain := Lookup(t, w.search.main);
    && byMain.Some? && byMain.value.id == id && byMain.value.content == w.content
    && (w.search.key.Some? ==> Lookup(t, w.search.key.value) == byMain)
  }

  lemma FoundIsTheOnly(t: Table, w: Write, key: Column, main: Column, now: int)
    requires Shaped(w, key, main) && Find(t, w.search).Ok?
    ensures var row := Incoming(w, Find(t, w.search).value, now);
            && (Lookup(t, w.search.main).Some? ==> Lookup(t, w.search.main).value.id == row.id)
            && (w.search.key.Some? && Lookup(t, w.search.key.value).Some? ==> Lookup(t, w.search.key.value).value.id == row.id)
  {
  }

  lemma PutKeepsIds(t: Table, w: Write, now: int)
    requires Unique(t, Id) && Put(t, w, now).Ok?
    ensures Unique(Put(t, w, now).value.0, Id)
  {
    hide CommandFingerprint, Find;
    var row := Incoming(w, Find(t, w.search).value, now);
    if Lookup(t, QueryAt(Id, row)).Some? {
      LookupMatches(t, QueryAt(Id, row));
    }
    UpsertKeepsUnique(t, row, Id);
  }

  /** A unique index on a searched column admits the write whenever the search reports no conflict. */
  lemma PutKeepsUnique(t: Table, w: Write, key: Column, main: Column, column: Column, now: int)
    requires Unique(t, Id) && Unique(t, column) && (column == key || column == main)
    requires Shaped(w, key, main) && Put(t, w, now).Ok?
    ensures Unique(Put(t, w, now).value.0, column)
  {
    hide CommandFingerprint, Find, Shaped, Unique, Value;
    IncomingMatches(t, w, key, main, now);
    FoundIsTheOnly(t, w, key, main, now);
    UpsertKeepsUnique(t, Incoming(w, Find(t, w.search).value, now), column);
  }

  lemma {:induction false} PutAllKeepsUnique(t: Table, ws: seq<Write>, key: Column, main: Column, column: Column, now: int)
    requires Unique(t, Id) && Unique(t, column) && (column == key || column == main)
    requires (forall w :: w in ws ==> Shaped(w, key, main)) && PutAll(t, ws, now).Ok?
    ensures Unique(PutAll(t, ws, now).value.rows, column)
    decreases ws
  {
    hide Shaped, Unique, Put;
    if ws != [] {
      PutKeepsUnique(t, ws[0], key, main, column, now);
      PutKeepsIds(t, ws[0], now);
      PutAllKeepsUnique(Put(t, ws[0], now).value.0, ws[1..], key, main, column, now);
    }
  }

  lemma {:induction false} PutAllKeepsIds(t: Table, ws: seq<Write>, now: int)
    requires Unique(t, Id) && PutAll(t, ws, now).Ok?
    ensures Unique(PutAll(t, ws, now).value.rows, Id)
    decreases ws
  {
    hide Unique, Put;
    if ws != [] {
      PutKeepsIds(t, ws[0], now);
      PutAllKeepsIds(Put(t, ws[0], now).value.0, ws[1..], now);
    }
  }
}
