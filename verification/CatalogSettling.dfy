/**
 What happens when the items that were written into a table are written again: when they are
 all reused, and how to tell beforehand.
 */
module CatalogSettling {
  import opened CatalogRows
  import opened Results

  lemma PutSettles(t: Table, w: Write, key: Column, main: Column, now: int)
    requires Shaped(w, key, main) && Put(t, w, now).Ok?
    ensures Settled(Put(t, w, now).value.0, w, Put(t, w, now).value.1.id)
  {
    hide CommandFingerprint, Find, Shaped, Value, Lookup, Upsert;
    var row := Incoming(w, Find(t, w.search).value, now);
    IncomingMatches(t, w, key, main, now);
    FoundIsTheOnly(t, w, key, main, now);
    UpsertFinds(t, row, w.search.main);
    if w.search.key.Some? {
      UpsertFinds(t, row, w.search.key.value);
    }
  }

  /** An item that goes to another row leaves a settled item settled. */
  lemma SettledStays(t: Table, w: Write, id: string, v: Write, key: Column, main: Column, now: int)
    requires Shaped(w, key, main) && Shaped(v, key, main) && Settled(t, w, id)
    requires Put(t, v, now).Ok? && Put(t, v, now).value.1.id != id
    ensures Settled(Put(t, v, now).value.0, w, id)
  {
    hide CommandFingerprint, Find, Value, Lookup, Upsert;
    var row := Incoming(v, Find(t, v.search).value, now);
    IncomingMatches(t, v, key, main, now);
    FoundIsTheOnly(t, v, key, main, now);
    UpsertElsewhere(t, row, w.search.main);
    if w.search.key.Some? {
      UpsertElsewhere(t, row, w.search.key.value);
    }
  }

  /** An item that goes to the same row and brings the same content leaves it settled, too. */
  lemma SettledAgain(t: Table, w: Write, id: string, v: Write, key: Column, main: Column, now: int)
    requires Shaped(w, key, main) && Shaped(v, key, main) && Settled(t, w, id) && v.content == w.content
    requires Put(t, v, now).Ok? && Put(t, v, now).value.1.id == id
    ensures Settled(Put(t, v, now).value.0, w, id)
  {
    PutSettles(t, v, key, main, now);
    hide CommandFingerprint, Upsert;
    if main == Id {
      LookupMatches(t, w.search.main);
      if Lookup(t, v.search.main).Some? {
        LookupMatches(t, v.search.main);
      }
    } else {
      SameColumns(Row(w.newId, w.content, 0, 0), Row(v.newId, v.content, 0, 0));
    }
  }

  /** Whichever of the items go to the row with this id bring the content of w. */
  predicate AgreesWith(w: Write, id: string, ws: seq<Write>, slots: seq<Slot>) {
    |ws| == |slots| &&
    (ws != [] ==> (slots[0].id == id ==> ws[0].content == w.content) && AgreesWith(w, id, ws[1..], slots[1..]))
  }

  /** Items that went to one row have one content. */
  predicate SharedAlike(ws: seq<Write>, slots: seq<Slot>) {
    |ws| == |slots| &&
    (ws != [] ==> AgreesWith(ws[0], slots[0].id, ws[1..], slots[1..]) && SharedAlike(ws[1..], slots[1..]))
  }

  lemma {:induction false} AgreesWithMeans(w: Write, id: string, ws: seq<Write>, slots: seq<Slot>)
    requires |ws| == |slots|
    ensures AgreesWith(w, id, ws, slots) <==> forall i :: 0 <= i < |ws| && slots[i].id == id ==> ws[i].content == w.content
  {
    if ws != [] {
      AgreesWithMeans(w, id, ws[1..], slots[1..]);
      assert forall i :: 1 <= i < |ws| ==> ws[i] == ws[1..][i - 1] && slots[i] == slots[1..][i - 1];
    }
  }

  lemma {:induction false} SharedAlikeMeans(ws: seq<Write>, slots: seq<Slot>)
    requires |ws| == |slots|
    ensures SharedAlike(ws, slots) <==>
            forall i, j :: 0 <= i < j < |ws| && slots[i].id == slots[j].id ==> ws[i].content == ws[j].content
  {
    hide AgreesWith;
    if ws != [] {
      AgreesWithMeans(ws[0], slots[0].id, ws[1..], slots[1..]);
      SharedAlikeMeans(ws[1..], slots[1..]);
      assert forall i :: 1 <= i < |ws| ==> ws[i] == ws[1..][i - 1] && slots[i] == slots[1..][i - 1];
    }
  }

  lemma {:induction false} SettledThrough(t: Table, w: Write, id: string, ws: seq<Write>, key: Column, main: Column, now: int)
    requires Shaped(w, key, main) && (forall v :: v in ws ==> Shaped(v, key, main)) && Settled(t, w, id)
    requires PutAll(t, ws, now).Ok?
    requires AgreesWith(w, id, ws, PutAll(t, ws, now).value.slots)
    ensures Settled(PutAll(t, ws, now).value.rows, w, id)
    decreases ws
  {
    hide Shaped, Settled, Put;
    if ws != [] {
      var first, all := Put(t, ws[0], now).value, PutAll(t, ws, now).value;
      assert all.slots[1..] == PutAll(first.0, ws[1..], now).value.slots;
      if first.1.id == id {
        SettledAgain(t, w, id, ws[0], key, main, now);
      } else {
        SettledStays(t, w, id, ws[0], key, main, now);
      }
      SettledThrough(first.0, w, id, ws[1..], key, main, now);
    }
  }

  predicate DistinctIds(slots: seq<Slot>) {
    slots != [] ==> (forall s :: s in slots[1..] ==> s.id != slots[0].id) && DistinctIds(slots[1..])
  }

  lemma {:induction false} NobodyElse(w: Write, id: string, ws: seq<Write>, slots: seq<Slot>)
    requires |ws| == |slots| && forall s :: s in slots ==> s.id != id
    ensures AgreesWith(w, id, ws, slots)
  {
    if ws != [] {
      assert slots[0] in slots && forall s :: s in slots[1..] ==> s in slots;
      NobodyElse(w, id, ws[1..], slots[1..]);
    }
  }

  /** Items with rows of their own share none. */
  lemma {:induction false} DistinctAgree(ws: seq<Write>, slots: seq<Slot>)
    requires |ws| == |slots| && DistinctIds(slots)
    ensures SharedAlike(ws, slots)
  {
    if ws != [] {
      NobodyElse(ws[0], slots[0].id, ws[1..], slots[1..]);
      DistinctAgree(ws[1..], slots[1..]);
    }
  }

  predicate AllSettled(t: Table, ws: seq<Write>, slots: seq<Slot>) {
    |ws| == |slots| && (ws != [] ==> Settled(t, ws[0], slots[0].id) && AllSettled(t, ws[1..], slots[1..]))
  }

  lemma {:induction false} PutAllSettles(t: Table, ws: seq<Write>, key: Column, main: Column, now: int)
    requires forall v :: v in ws ==> Shaped(v, key, main)
    requires PutAll(t, ws, now).Ok?
    requires SharedAlike(ws, PutAll(t, ws, now).value.slots)
    ensures AllSettled(PutAll(t, ws, now).value.rows, ws, PutAll(t, ws, now).value.slots)
    decreases ws
  {
    hide Shaped, Settled, Put, AgreesWith;
    if ws != [] {
      var first, all := Put(t, ws[0], now).value, PutAll(t, ws, now).value;
      assert all.slots[1..] == PutAll(first.0, ws[1..], now).value.slots;
      PutAllSettles(first.0, ws[1..], key, main, now);
      PutSettles(t, ws[0], key, main, now);
      SettledThrough(first.0, ws[0], first.1.id, ws[1..], key, main, now);
    }
  }

  function AsReused(slots: seq<Slot>): (r: seq<Slot>)
    ensures |r| == |slots|
  {
    seq(|slots|, i requires 0 <= i < |slots| => Slot(slots[i].id, Reused))
  }

  lemma SettledIsReused(t: Table, u: Table, w: Write, id: string, now: int)
    requires Same(t, u) && Unique(u, Id) && Settled(t, w, id)
    ensures Put(u, w, now).Ok? && Put(u, w, now).value.1 == Slot(id, Reused)
    ensures Same(t, Put(u, w, now).value.0) && Unique(Put(u, w, now).value.0, Id)
  {
    hide CommandFingerprint, Lookup, Upsert, Unique, Same;
    LookupSame(t, u, w.search.main);
    if w.search.key.Some? {
      LookupSame(t, u, w.search.key.value);
    }
    LookupById(u, w.search.main);
    var found := Find(u, w.search);
    if w.search.key.Some? {
      LookupById(u, w.search.key.value);
    }
    UpsertSame(t, u, Incoming(w, found.value, now));
    PutKeepsIds(u, w, now);
  }

  /** Items that have settled are reused, and their rows keep all but the update times. */
  lemma {:induction false} PutAgain(t: Table, u: Table, ws: seq<Write>, slots: seq<Slot>, now: int)
    requires Same(t, u) && Unique(u, Id) && AllSettled(t, ws, slots)
    ensures PutAll(u, ws, now).Ok? && PutAll(u, ws, now).value.slots == AsReused(slots)
    ensures Same(t, PutAll(u, ws, now).value.rows)
    decreases ws
  {
    hide Settled, Put, Unique, Same;
    if ws != [] {
      SettledIsReused(t, u, ws[0], slots[0].id, now);
      var first := Put(u, ws[0], now).value;
      PutAgain(t, first.0, ws[1..], slots[1..], now);
    }
  }

  // And conversely

  predicate Holds(t: Table, id: string, content: Content) {
    var stored := Lookup(t, Query(Id, [id]));
    stored.Some? && stored.value.content == content
  }

  /** Every item finds its content under the id that it went to. */
  predicate AllStored(t: Table, ws: seq<Write>, slots: seq<Slot>) {
    |ws| == |slots| && (ws != [] ==> Holds(t, slots[0].id, ws[0].content) && AllStored(t, ws[1..], slots[1..]))
  }

  lemma ReusedIsStored(t: Table, u: Table, w: Write, id: string, now: int)
    requires Same(t, u) && Unique(u, Id) && Put(u, w, now).Ok? && Put(u, w, now).value.1 == Slot(id, Reused)
    ensures Holds(t, id, w.content)
    ensures Same(t, Put(u, w, now).value.0) && Unique(Put(u, w, now).value.0, Id)
  {
    hide CommandFingerprint, Lookup, Upsert, Unique, Same;
    var found := Find(u, w.search).value;
    assert found.Some? && found.value.id == id && found.value.content == w.content;
    FoundById(u, w.search);
    LookupSame(t, u, Query(Id, [id]));
    UpsertSame(t, u, Incoming(w, found, now));
    PutKeepsIds(u, w, now);
  }

  lemma FoundById(u: Table, s: Search)
    requires Unique(u, Id) && Find(u, s).Ok? && Find(u, s).value.Some?
    ensures Lookup(u, Query(Id, [Find(u, s).value.value.id])) == Find(u, s).value
  {
    hide CommandFingerprint, Lookup, Unique;
    if s.key.Some? && Lookup(u, s.key.value).Some? {
      LookupById(u, s.key.value);
    } else if Lookup(u, s.main).Some? {
      LookupById(u, s.main);
    } else {
      LookupById(u, s.legacy.value);
    }
  }

  lemma {:induction false} ReusedAreStored(t: Table, u: Table, ws: seq<Write>, slots: seq<Slot>, now: int)
    requires Same(t, u) && Unique(u, Id) && |slots| == |ws|
    requires PutAll(u, ws, now).Ok? && PutAll(u, ws, now).value.slots == AsReused(slots)
    ensures AllStored(t, ws, slots)
    decreases ws
  {
    hide Put, Unique, Same, Lookup;
    if ws != [] {
      var first, all := Put(u, ws[0], now).value, PutAll(u, ws, now).value;
      assert all.slots[0] == first.1 == AsReused(slots)[0] == Slot(slots[0].id, Reused);
      assert all.slots[1..] == PutAll(first.0, ws[1..], now).value.slots;
      assert AsReused(slots)[1..] == AsReused(slots[1..]);
      ReusedIsStored(t, u, ws[0], slots[0].id, now);
      ReusedAreStored(t, first.0, ws[1..], slots[1..], now);
    }
  }

  lemma {:induction false} StoredAgreeWith(t: Table, w: Write, id: string, ws: seq<Write>, slots: seq<Slot>)
    requires AllStored(t, ws, slots) && Holds(t, id, w.content)
    ensures AgreesWith(w, id, ws, slots)
  {
    hide Lookup;
    if ws != [] {
      StoredAgreeWith(t, w, id, ws[1..], slots[1..]);
    }
  }

  lemma {:induction false} StoredAgree(t: Table, ws: seq<Write>, slots: seq<Slot>)
    requires AllStored(t, ws, slots)
    ensures SharedAlike(ws, slots)
  {
    hide Lookup;
    if ws != [] {
      StoredAgreeWith(t, ws[0], slots[0].id, ws[1..], slots[1..]);
      StoredAgree(t, ws[1..], slots[1..]);
    }
  }

  /** A batch applied again reuses all its rows if and only if items that went to one row have one content. */
  lemma BatchSettlesExactly(t: Table, ws: seq<Write>, key: Column, main: Column, now: int, later: int)
    requires Unique(t, Id) && (forall w :: w in ws ==> Shaped(w, key, main))
    requires PutAll(t, ws, now).Ok?
    ensures var once := PutAll(t, ws, now).value; var twice := PutAll(once.rows, ws, later);
            && (twice.Ok? && twice.value.slots == AsReused(once.slots) <==> SharedAlike(ws, once.slots))
            && (SharedAlike(ws, once.slots) ==> Same(once.rows, twice.value.rows))
  {
    hide Shaped, Unique, Same, PutAll, AllSettled, SharedAlike, AllStored;
    var once := PutAll(t, ws, now).value;
    var twice := PutAll(once.rows, ws, later);
    PutAllKeepsIds(t, ws, now);
    PutAllLength(t, ws, now);
    SameSelf(once.rows);
    if SharedAlike(ws, once.slots) {
      PutAllSettles(t, ws, key, main, now);
      PutAgain(once.rows, once.rows, ws, once.slots, later);
    }
    if twice.Ok? && twice.value.slots == AsReused(once.slots) {
      ReusedAreStored(once.rows, once.rows, ws, once.slots, later);
      StoredAgree(once.rows, ws, once.slots);
    }
  }

  // Items that are kept apart by the table and by themselves

  /** The id of the row that an item would go to if it came first. */
  function Target(t: Table, w: Write): string {
    var found := Find(t, w.search);
    if found.Ok? && found.value.Some? then found.value.value.id else w.newId
  }

  predicate Apart(t: Table, v: Write, w: Write) {
    && Target(t, v) != Target(t, w)
    && v.search.main != w.search.main
    && (v.search.key.Some? ==> v.search.key != w.search.key)
    && (v.search.legacy.Some? ==> v.search.legacy != w.search.legacy)
  }

  /** What can be read off a table and a batch: no conflict, no key or fingerprint twice, no row wanted twice. */
  predicate Separate(t: Table, ws: seq<Write>) {
    ws != [] ==>
      && Find(t, ws[0].search).Ok?
      && (forall w :: w in ws[1..] ==> Apart(t, ws[0], w))
      && Separate(t, ws[1..])
  }

  /** A write leaves alone the search of an item that is apart from it. */
  lemma SearchStays(t: Table, v: Write, w: Write, key: Column, main: Column, now: int)
    requires Shaped(v, key, main) && Shaped(w, key, main) && Put(t, v, now).Ok?
    requires Find(t, w.search).Ok? && Apart(t, v, w)
    ensures Find(Put(t, v, now).value.0, w.search) == Find(t, w.search)
  {
    hide CommandFingerprint, Value, Lookup, Upsert, Shaped;
    var row := Incoming(v, Find(t, v.search).value, now);
    IncomingMatches(t, v, key, main, now);
    OwnQueries(w, key, main);
    UpsertElsewhere(t, row, w.search.main);
    if w.search.key.Some? {
      UpsertElsewhere(t, row, w.search.key.value);
    }
    if w.search.legacy.Some? && Find(t, w.search).value == Lookup(t, w.search.legacy.value) {
      OwnQueries(v, key, main);
      UpsertElsewhere(t, row, w.search.legacy.value);
    }
  }

  lemma {:induction false} AllSearchesStay(t: Table, v: Write, ws: seq<Write>, key: Column, main: Column, now: int)
    requires Shaped(v, key, main) && (forall w :: w in ws ==> Shaped(w, key, main)) && Put(t, v, now).Ok?
    requires Separate(t, ws) && forall w :: w in ws ==> Apart(t, v, w)
    ensures Separate(Put(t, v, now).value.0, ws)
    ensures forall w :: w in ws ==> Target(Put(t, v, now).value.0, w) == Target(t, w)
    decreases ws
  {
    hide Shaped, Put, Find;
    if ws != [] {
      var t' := Put(t, v, now).value.0;
      AllFound(t, ws);
      forall w | w in ws ensures Find(t', w.search) == Find(t, w.search) {
        SearchStays(t, v, w, key, main, now);
      }
      AllSearchesStay(t, v, ws[1..], key, main, now);
      assert ws == [ws[0]] + ws[1..];
    }
  }

  lemma {:induction false} AllFound(t: Table, ws: seq<Write>)
    requires Separate(t, ws)
    ensures forall w :: w in ws ==> Find(t, w.search).Ok?
  {
    if ws != [] {
      AllFound(t, ws[1..]);
      assert ws == [ws[0]] + ws[1..];
    }
  }

  predicate AtTargets(t: Table, ws: seq<Write>, slots: seq<Slot>) {
    |ws| == |slots| && (ws != [] ==> slots[0].id == Target(t, ws[0]) && AtTargets(t, ws[1..], slots[1..]))
  }

  lemma {:induction false} TargetsStay(t: Table, u: Table, ws: seq<Write>, slots: seq<Slot>)
    requires AtTargets(u, ws, slots) && forall w :: w in ws ==> Target(u, w) == Target(t, w)
    ensures AtTargets(t, ws, slots)
    ensures forall s :: s in slots ==> exists w :: w in ws && s.id == Target(t, w)
  {
    hide Target;
    if ws != [] {
      assert ws[0] in ws && forall w :: w in ws[1..] ==> w in ws;
      TargetsStay(t, u, ws[1..], slots[1..]);
      assert slots == [slots[0]] + slots[1..];
    }
  }

  /** Separate items meet no conflict, and each goes to the row that it wants. */
  lemma {:induction false} SeparateItemsGoApart(t: Table, ws: seq<Write>, key: Column, main: Column, now: int)
    requires Separate(t, ws) && forall w :: w in ws ==> Shaped(w, key, main)
    ensures PutAll(t, ws, now).Ok?
    ensures AtTargets(t, ws, PutAll(t, ws, now).value.slots) && DistinctIds(PutAll(t, ws, now).value.slots)
    decreases ws
  {
    hide Shaped, Target;
    if ws != [] {
      PutGoesToTarget(t, ws[0], now);
      hide Put;
      var first := Put(t, ws[0], now).value;
      assert ws == [ws[0]] + ws[1..];
      AllSearchesStay(t, ws[0], ws[1..], key, main, now);
      SeparateItemsGoApart(first.0, ws[1..], key, main, now);
      var rest, all := PutAll(first.0, ws[1..], now).value, PutAll(t, ws, now).value;
      TargetsStay(t, first.0, ws[1..], rest.slots);
      assert all.slots == [first.1] + rest.slots && all.slots[1..] == rest.slots;
    }
  }

  lemma PutGoesToTarget(t: Table, w: Write, now: int)
    requires Find(t, w.search).Ok?
    ensures Put(t, w, now).Ok? && Put(t, w, now).value.1.id == Target(t, w)
  {
  }

  lemma TwoPuts(t: Table, v: Write, w: Write, now: int)
    requires Put(t, v, now).Ok? && Put(Put(t, v, now).value.0, w, now).Ok?
    ensures var first := Put(t, v, now).value; var second := Put(first.0, w, now).value;
            var both := PutAll(t, [v, w], now); both.Ok? && both.value.rows == second.0 && both.value.slots == [first.1, second.1]
  {
    hide Put;
    var first := Put(t, v, now).value;
    var second := Put(first.0, w, now).value;
    assert [v, w][1..] == [w] && [w][1..] == [];
    var rest := PutAll(first.0, [w], now);
    assert rest.Ok? && rest.value.rows == second.0 && rest.value.slots == [second.1] by {
      assert PutAll(second.0, [], now) == Ok(Batch(second.0, []));
    }
    assert [first.1] + rest.value.slots == [first.1, second.1];
  }

  lemma LookupOne(r: Row, q: Query)
    ensures Lookup([r], q) == if Matches(q, r) then Some(r) else None
  {
    hide Matches;
  }

  lemma LookupTwo(r: Row, s: Row, q: Query)
    ensures Lookup([r, s], q) == if Matches(q, r) then Some(r) else if Matches(q, s) then Some(s) else None
  {
    hide Matches;
    assert [r, s][1..] == [s];
    LookupOne(s, q);
  }

  /** The only row is the one that its fingerprint leads to. */
  lemma TakesByFingerprint(r: Row, b: Write, now: int)
    requires b.search.key.Some? && !Matches(b.search.key.value, r) && Matches(b.search.main, r) && r.content != b.content
    ensures Put([r], b, now).Ok? && Put([r], b, now).value.1 == Slot(r.id, Updated)
    ensures Put([r], b, now).value.0 == [Row(r.id, b.content, r.createdAt, now)]
  {
    hide Matches;
    LookupOne(r, b.search.key.value);
    LookupOne(r, b.search.main);
  }

  /** No lookup leads to the only row. */
  lemma MissesRow(r: Row, w: Write, now: int)
    requires w.search.key.Some? && w.search.legacy.Some?
    requires !Matches(w.search.key.value, r) && !Matches(w.search.main, r) && !Matches(w.search.legacy.value, r)
    ensures Put([r], w, now).Ok? && Put([r], w, now).value.1 == Slot(w.newId, Created)
    ensures w.newId == r.id ==> Put([r], w, now).value.0 == [Row(r.id, w.content, r.createdAt, now)]
    ensures w.newId != r.id ==> Put([r], w, now).value.0 == [r, Row(w.newId, w.content, if w.createdAt == 0 then now else w.createdAt, now)]
  {
    hide Matches;
    LookupOne(r, w.search.key.value);
    LookupOne(r, w.search.main);
    LookupOne(r, w.search.legacy.value);
    if w.newId != r.id {
      var row := Incoming(w, None, now);
      assert Upsert([], row) == [row] && [r][1..] == [];
    }
  }

  lemma ReusesFirst(r: Row, s: Row, w: Write, now: int)
    requires w.search.key.Some? && Matches(w.search.key.value, r) && Matches(w.search.main, r)
    requires r.content == w.content && r.updatedAt == now
    ensures Put([r, s], w, now).Ok? && Put([r, s], w, now).value.1 == Slot(r.id, Reused)
    ensures Put([r, s], w, now).value.0 == [r, s]
  {
    hide Matches;
    LookupTwo(r, s, w.search.key.value);
    LookupTwo(r, s, w.search.main);
    assert [r, s][1..] == [s];
  }

  lemma ReusesSecond(r: Row, s: Row, w: Write, now: int)
    requires w.search.key.Some? && !Matches(w.search.key.value, r) && !Matches(w.search.main, r) && r.id != s.id
    requires Matches(w.search.key.value, s) && Matches(w.search.main, s) && s.content == w.content && s.updatedAt == now
    ensures Put([r, s], w, now).Ok? && Put([r, s], w, now).value.1 == Slot(s.id, Reused)
    ensures Put([r, s], w, now).value.0 == [r, s]
  {
    hide Matches;
    LookupTwo(r, s, w.search.key.value);
    LookupTwo(r, s, w.search.main);
    assert [r, s][1..] == [s] && Upsert([s], s) == [s];
  }

  /**
   Two items with different keys and fingerprints that want one stored row, the first by its
   fingerprint and the second by its key: the second overwrites the first under the same id,
   and the bundle settles on the third application only.
   */
  lemma ClobberedThenSettles(r: Row, b: Write, a: Write, now: int)
    requires Shaped(b, StableKey, Fingerprint) && Shaped(a, StableKey, Fingerprint)
    requires a.search.key.Some? && b.search.key.Some? && a.search.key != b.search.key
    requires a.search.main != b.search.main && a.search.legacy != b.search.legacy
    requires Matches(a.search.key.value, r) && Matches(b.search.main, r)
    requires a.newId == r.id && b.newId != r.id
    ensures var once := PutAll([r], [b, a], now);
            && once.Ok? && once.value.slots == [Slot(r.id, Updated), Slot(r.id, Created)]
            && var twice := PutAll(once.value.rows, [b, a], now);
               && twice.Ok? && twice.value.slots == [Slot(b.newId, Created), Slot(r.id, Reused)]
               && var thrice := PutAll(twice.value.rows, [b, a], now);
                  thrice.Ok? && thrice.value.slots == [Slot(b.newId, Reused), Slot(r.id, Reused)]
  {
    hide CommandFingerprint, Put, PutAll, Lookup, Upsert;
    var rb, ra := Row(r.id, b.content, r.createdAt, now), Row(r.id, a.content, r.createdAt, now);
    var nb := Row(b.newId, b.content, if b.createdAt == 0 then now else b.createdAt, now);
    SameColumns(rb, Row(b.newId, b.content, 0, 0));
    SameColumns(nb, Row(b.newId, b.content, 0, 0));
    SameColumns(ra, Row(a.newId, a.content, 0, 0));
    TakesByFingerprint(r, b, now);
    MissesRow(rb, a, now);
    TwoPuts([r], b, a, now);
    MissesRow(ra, b, now);
    ReusesFirst(ra, nb, a, now);
    TwoPuts([ra], b, a, now);
    ReusesSecond(ra, nb, b, now);
    TwoPuts([ra, nb], b, a, now);
  }

  lemma OwnQueries(w: Write, key: Column, main: Column)
    requires Shaped(w, key, main)
    ensures w.search.main.column == main
    ensures w.search.key.Some? ==> w.search.key.value.column == key && w.search.key.value.value != [] &&
                                   (var v := w.search.key.value.value; v[|v| - 1] != "")
    ensures w.search.legacy.Some? <==> main == Fingerprint
    ensures w.search.legacy.Some? ==> w.search.legacy.value.column == Relaunched
  {
  }

  /** Two items, one right after the other, that share a search but not a content update each other on every application. */
  lemma SharedRowNeverSettles(t: Table, a: Write, b: Write, key: Column, main: Column, now: int, later: int)
    requires Shaped(a, key, main) && Shaped(b, key, main) && a.search == b.search && a.content != b.content
    requires Put(t, a, now).Ok? && Put(Put(t, a, now).value.0, b, now).Ok?
    ensures var once := Put(Put(t, a, now).value.0, b, now).value.0;
            && Put(once, a, later).Ok? && Put(once, a, later).value.1.action == Updated
            && Put(Put(once, a, later).value.0, b, later).Ok?
            && Put(Put(once, a, later).value.0, b, later).value.1.action == Updated
  {
    hide CommandFingerprint, Shaped, Value, Lookup, Upsert;
    PutSettles(Put(t, a, now).value.0, b, key, main, now);
    var once := Put(Put(t, a, now).value.0, b, now).value.0;
    PutSettles(once, a, key, main, later);
  }
}
