/**
 When exactly a parallel start under `continue` works off its list: a timetable of the passes,
 computed from the list and the outcomes without running the scheduler, tells the two endings apart.
 */
module SchedulerTiming {
  import opened Digraph
  import opened Results
  import opened StackMembers
  import opened Scheduler
  import opened SchedulerSafety
  import opened SchedulerCompletion

  // The timetable

  /** A member is started in a pass, and wins or loses, or it is blocked in one. */
  datatype Fate = Won(pass: nat) | Lost(pass: nat) | Shut(pass: nat)

  type Timetable = map<string, Fate>

  function Position(ms: seq<Member>, id: string): nat {
    if ms == [] || ms[0].commandId == id then 0 else 1 + Position(ms[1..], id)
  }

  lemma {:induction false} PositionAt(ms: seq<Member>, k: nat)
    requires k < |ms| && forall j :: 0 <= j < k ==> ms[j].commandId != ms[k].commandId
    ensures Position(ms, ms[k].commandId) == k
  {
    if k > 0 {
      PositionAt(ms[1..], k - 1);
    }
  }

  /** The pass in which a failed dependency is first seen by the member at position k. */
  function Arrival(ms: seq<Member>, k: nat, d: string, fate: Fate): nat {
    if fate.Shut? && Position(ms, d) < k then fate.pass else fate.pass + 1
  }

  predicate AllWon(deps: seq<string>, t: Timetable) {
    forall d :: d in deps ==> d in t && t[d].Won?
  }

  function Latest(deps: seq<string>, t: Timetable): nat
    requires AllWon(deps, t)
  {
    if deps == [] then 0
    else
      var before, last := Latest(deps[..|deps| - 1], t), deps[|deps| - 1];
      if t[last].pass > before then t[last].pass else before
  }

  predicate Known(deps: seq<string>, t: Timetable) {
    forall d :: d in deps ==> d in t
  }

  /** The earliest arrival of a failed dependency, if there is one. */
  function Earliest(ms: seq<Member>, k: nat, deps: seq<string>, t: Timetable): Option<nat>
    requires Known(deps, t)
  {
    if deps == [] then None
    else
      var before, last := Earliest(ms, k, deps[..|deps| - 1], t), deps[|deps| - 1];
      if t[last].Won? then before
      else
        var a := Arrival(ms, k, last, t[last]);
        if before.Some? && before.value <= a then before else Some(a)
  }

  function FateAt(ms: seq<Member>, o: Outcomes, k: nat, t: Timetable): Fate
    requires k < |ms| && Known(ms[k].dependsOn, t)
  {
    var deps, earliest := ms[k].dependsOn, Earliest(ms, k, ms[k].dependsOn, t);
    if earliest.Some? then Shut(earliest.value)
    else
      NothingFailed(ms, k, deps, t);
      if Succeeds(o, ms[k].commandId) then Won(1 + Latest(deps, t)) else Lost(1 + Latest(deps, t))
  }

  lemma {:induction false} NothingFailed(ms: seq<Member>, k: nat, deps: seq<string>, t: Timetable)
    requires Known(deps, t) && Earliest(ms, k, deps, t).None?
    ensures AllWon(deps, t)
  {
    if deps != [] {
      NothingFailed(ms, k, deps[..|deps| - 1], t);
      assert deps == deps[..|deps| - 1] + [deps[|deps| - 1]];
    }
  }

  /** The fate of the member at position k follows from those of its dependencies. */
  predicate Fits(ms: seq<Member>, o: Outcomes, k: nat, t: Timetable)
    requires k < |ms|
  {
    var id, deps := ms[k].commandId, ms[k].dependsOn;
    && id in t && Known(deps, t)
    && match t[id]
       case Shut(p) =>
         && p >= 1
         && (exists d :: d in deps && !t[d].Won? && Arrival(ms, k, d, t[d]) == p)
         && (forall d :: d in deps && !t[d].Won? ==> Arrival(ms, k, d, t[d]) >= p)
       case _ =>
         && (t[id].Won? <==> Succeeds(o, id)) && t[id].pass >= 1
         && (forall d :: d in deps ==> t[d].Won? && t[d].pass < t[id].pass)
         && (t[id].pass > 1 ==> exists d :: d in deps && t[d].pass == t[id].pass - 1)
  }

  predicate Timed(ms: seq<Member>, o: Outcomes, t: Timetable) {
    && t.Keys == Elements(Ids(ms))
    && forall k :: 0 <= k < |ms| ==> Fits(ms, o, k, t)
  }

  // Computing it along a dependency order

  lemma {:induction false} LatestMeans(deps: seq<string>, t: Timetable)
    requires AllWon(deps, t)
    ensures forall d :: d in deps ==> t[d].pass <= Latest(deps, t)
    ensures Latest(deps, t) > 0 ==> exists d :: d in deps && t[d].pass == Latest(deps, t)
  {
    if deps != [] {
      LatestMeans(deps[..|deps| - 1], t);
      assert deps == deps[..|deps| - 1] + [deps[|deps| - 1]];
    }
  }

  lemma {:induction false} EarliestMeans(ms: seq<Member>, k: nat, deps: seq<string>, t: Timetable)
    requires Known(deps, t)
    ensures var e := Earliest(ms, k, deps, t);
            && (e.Some? ==> exists d :: d in deps && !t[d].Won? && Arrival(ms, k, d, t[d]) == e.value)
            && (forall d :: d in deps && !t[d].Won? ==> e.Some? && Arrival(ms, k, d, t[d]) >= e.value)
  {
    hide Arrival;
    if deps != [] {
      EarliestMeans(ms, k, deps[..|deps| - 1], t);
      assert deps == deps[..|deps| - 1] + [deps[|deps| - 1]];
    }
  }

  lemma FateFits(ms: seq<Member>, o: Outcomes, k: nat, t: Timetable)
    requires k < |ms| && Known(ms[k].dependsOn, t) && ms[k].commandId !in ms[k].dependsOn
    requires forall d :: d in t ==> t[d].pass >= 1
    ensures FateAt(ms, o, k, t).pass >= 1
    ensures Fits(ms, o, k, t[ms[k].commandId := FateAt(ms, o, k, t)])
  {
    hide Succeeds;
    EarliestMeans(ms, k, ms[k].dependsOn, t);
    if Earliest(ms, k, ms[k].dependsOn, t).None? {
      NothingFailed(ms, k, ms[k].dependsOn, t);
      LatestMeans(ms[k].dependsOn, t);
    }
  }

  lemma FitsStays(ms: seq<Member>, o: Outcomes, k: nat, t: Timetable, id: string, fate: Fate)
    requires k < |ms| && Fits(ms, o, k, t) && id !in t
    ensures Fits(ms, o, k, t[id := fate])
  {
    hide Arrival, Succeeds;
  }

  /** A timetable for the members named in a dependency order. */
  lemma {:induction false} MakeTimetable(ms: seq<Member>, o: Outcomes, order: seq<string>) returns (t: Timetable)
    requires Distinct(Ids(ms)) && Distinct(order) && Ordered(Dependencies(ms), order) && forall id :: id in order ==> id in Ids(ms)
    ensures forall id :: id in t <==> id in order
    ensures forall id :: id in t ==> t[id].pass >= 1
    ensures forall k :: 0 <= k < |ms| && ms[k].commandId in order ==> Fits(ms, o, k, t)
  {
    t := map[];
    if order != [] {
      hide Ids, Fits, FateAt, Dependencies, Known;
      var before, id := order[..|order| - 1], order[|order| - 1];
      assert order == before + [id];
      assert Distinct(before) && id !in before && Ordered(Dependencies(ms), before);
      hide Distinct, Ordered;
      assert id in order && forall x :: x in before ==> x in order;
      var k := MemberWith(ms, id);
      var earlier := MakeTimetable(ms, o, before);
      DependenciesAt(ms, before, id, k);
      assert Known(ms[k].dependsOn, earlier) by {
        AllKnown(ms[k].dependsOn, earlier);
      }
      t := earlier[id := FateAt(ms, o, k, earlier)];
      OneMoreFate(ms, o, before, earlier, k, t[id]);
    }
  }

  lemma MemberWith(ms: seq<Member>, id: string) returns (k: nat)
    requires id in Ids(ms)
    ensures k < |ms| && ms[k].commandId == id
  {
    k :| k < |ms| && Ids(ms)[k] == id;
  }

  lemma AllKnown(deps: seq<string>, t: Timetable)
    requires forall d :: d in deps ==> d in t
    ensures Known(deps, t)
  {
  }

  lemma DependenciesAt(ms: seq<Member>, before: seq<string>, id: string, k: nat)
    requires Distinct(Ids(ms)) && k < |ms| && ms[k].commandId == id
    requires Ordered(Dependencies(ms), before + [id])
    ensures forall d :: d in ms[k].dependsOn ==> d in before
  {
    hide Distinct, Dependencies;
    DistinctIsListing(ms);
    var order := before + [id];
    assert order[..|order| - 1] == before && Next(Dependencies(ms), id) == ms[k].dependsOn;
  }

  lemma OneMoreFate(ms: seq<Member>, o: Outcomes, before: seq<string>, earlier: Timetable, k: nat, fate: Fate)
    requires Distinct(Ids(ms)) && k < |ms| && ms[k].commandId !in before && Known(ms[k].dependsOn, earlier)
    requires (forall id :: id in earlier <==> id in before) && fate == FateAt(ms, o, k, earlier)
    requires forall id :: id in earlier ==> earlier[id].pass >= 1
    ensures fate.pass >= 1
    requires forall j :: 0 <= j < |ms| && ms[j].commandId in before ==> Fits(ms, o, j, earlier)
    ensures forall j :: 0 <= j < |ms| && ms[j].commandId in before + [ms[k].commandId] ==>
              Fits(ms, o, j, earlier[ms[k].commandId := fate])
  {
    hide Distinct, Fits, FateAt;
    var id := ms[k].commandId;
    FateFits(ms, o, k, earlier);
    forall j | 0 <= j < |ms| && ms[j].commandId in before + [id] ensures Fits(ms, o, j, earlier[id := fate]) {
      if j != k {
        DistinctAt(Ids(ms), if j < k then j else k, if j < k then k else j);
        FitsStays(ms, o, j, earlier, id, fate);
      }
    }
  }

  // The scheduler keeps to it

  predicate Starts(f: Fate, p: nat) {
    !f.Shut? && f.pass == p
  }

  /** Where things stand in pass p when the members before position i have been looked at. */
  ghost predicate Mid(ms: seq<Member>, t: Timetable, p: nat, i: nat, st: State) {
    && st.pending + st.succeeded + st.failed == t.Keys
    && (forall id :: id in t ==> (id in st.succeeded <==> t[id].Won? && t[id].pass < p))
    && (forall id :: id in t ==>
          (id in st.failed <==> !t[id].Won? && (t[id].pass < p || (t[id] == Shut(p) && Position(ms, id) < i))))
    && (forall id :: id in st.pending ==> id !in st.succeeded && id !in st.failed)
  }

  /** The members that start in pass p, from position i on. */
  function Wave(ms: seq<Member>, t: Timetable, p: nat, i: nat): seq<Member>
    requires i <= |ms|
    decreases |ms| - i
  {
    if i == |ms| then []
    else (if ms[i].commandId in t && Starts(t[ms[i].commandId], p) then [ms[i]] else []) + Wave(ms, t, p, i + 1)
  }

  lemma PositionOf(ms: seq<Member>, k: nat)
    requires Distinct(Ids(ms)) && k < |ms|
    ensures Position(ms, ms[k].commandId) == k
  {
    hide Distinct;
    forall j | 0 <= j < k ensures ms[j].commandId != ms[k].commandId {
      DistinctAt(Ids(ms), j, k);
    }
    PositionAt(ms, k);
  }

  /** What the scan finds out about the next member is what the timetable says of it. */
  lemma Lookout(ms: seq<Member>, o: Outcomes, t: Timetable, p: nat, i: nat, st: State)
    requires Timed(ms, o, t) && Distinct(Ids(ms)) && Mid(ms, t, p, i, st) && i < |ms| && p >= 1
    ensures var id := ms[i].commandId;
            && id in t
            && (id !in st.pending ==> t[id].pass < p)
            && (id in st.pending ==>
                  && (IsBlocked(ms[i], st.failed) <==> t[id] == Shut(p))
                  && (t[id] != Shut(p) ==> (IsReady(ms[i], st.succeeded) <==> Starts(t[id], p))))
  {
    hide Distinct, Succeeds;
    PositionOf(ms, i);
    var id, deps := ms[i].commandId, ms[i].dependsOn;
    assert Fits(ms, o, i, t) && Ids(ms)[i] == id;
    if id in st.pending {
      if t[id].Shut? {
        Barred(ms, t, p, i, st);
      } else {
        Unbarred(ms, o, t, p, i, st);
      }
    }
  }

  lemma Barred(ms: seq<Member>, t: Timetable, p: nat, i: nat, st: State)
    requires i < |ms| && Mid(ms, t, p, i, st) && ms[i].commandId in t && Known(ms[i].dependsOn, t)
    requires var f := t[ms[i].commandId];
             && f.Shut? && f.pass >= p
             && (exists d :: d in ms[i].dependsOn && !t[d].Won? && Arrival(ms, i, d, t[d]) == f.pass)
             && (forall d :: d in ms[i].dependsOn && !t[d].Won? ==> Arrival(ms, i, d, t[d]) >= f.pass)
    ensures IsBlocked(ms[i], st.failed) <==> t[ms[i].commandId] == Shut(p)
    ensures !IsReady(ms[i], st.succeeded)
  {
    var f := t[ms[i].commandId];
    var d :| d in ms[i].dependsOn && !t[d].Won? && Arrival(ms, i, d, t[d]) == f.pass;
    assert d !in st.succeeded;
    if f.pass == p {
      assert d in st.failed;
    } else {
      forall e | e in ms[i].dependsOn ensures e !in st.failed {
        assert !t[e].Won? ==> Arrival(ms, i, e, t[e]) > p;
      }
    }
  }

  lemma Unbarred(ms: seq<Member>, o: Outcomes, t: Timetable, p: nat, i: nat, st: State)
    requires i < |ms| && p >= 1 && Mid(ms, t, p, i, st) && ms[i].commandId in t && Fits(ms, o, i, t)
    requires !t[ms[i].commandId].Shut? && t[ms[i].commandId].pass >= p
    ensures !IsBlocked(ms[i], st.failed)
    ensures IsReady(ms[i], st.succeeded) <==> t[ms[i].commandId].pass == p
  {
    hide Succeeds;
    var f := t[ms[i].commandId];
    if f.pass > p && f.pass > 1 {
      var d :| d in ms[i].dependsOn && t[d].pass == f.pass - 1;
      assert d !in st.succeeded;
    }
  }

  lemma {:induction false} ScanKeepsTime(ms: seq<Member>, o: Outcomes, t: Timetable, p: nat, i: nat, st: State, eligible: seq<Member>)
    requires Timed(ms, o, t) && Distinct(Ids(ms)) && p >= 1 && i <= |ms| && Mid(ms, t, p, i, st)
    ensures var (r, wave) := Scan(ms, i, false, st, eligible);
            Mid(ms, t, p, |ms|, r) && wave == eligible + Wave(ms, t, p, i)
    decreases |ms| - i
  {
    hide Timed, Distinct, IsBlocked, IsReady, Mid, Wave, Starts, Ids;
    WaveStep(ms, t, p, i);
    if i == |ms| {
      assert eligible + [] == eligible;
    } else {
      var id, later := ms[i].commandId, Wave(ms, t, p, i + 1);
      Lookout(ms, o, t, p, i, st);
      TimedKeys(ms, o, t);
      MidMoves(ms, t, p, i, st);
      if id !in st.pending {
        ScanKeepsTime(ms, o, t, p, i + 1, st, eligible);
      } else if t[id] == Shut(p) {
        ScanKeepsTime(ms, o, t, p, i + 1, Block(st, id), eligible);
      } else if Starts(t[id], p) {
        ScanKeepsTime(ms, o, t, p, i + 1, st, eligible + [ms[i]]);
        assert (eligible + [ms[i]]) + later == eligible + ([ms[i]] + later);
      } else {
        ScanKeepsTime(ms, o, t, p, i + 1, st, eligible);
      }
    }
  }

  lemma WaveStep(ms: seq<Member>, t: Timetable, p: nat, i: nat)
    requires i <= |ms|
    ensures i == |ms| ==> Wave(ms, t, p, i) == []
    ensures i < |ms| ==>
              Wave(ms, t, p, i) == if ms[i].commandId in t && Starts(t[ms[i].commandId], p) then [ms[i]] + Wave(ms, t, p, i + 1) else Wave(ms, t, p, i + 1)
    ensures i < |ms| && ms[i].commandId in t && (t[ms[i].commandId].pass < p || t[ms[i].commandId].Shut?) ==> !Starts(t[ms[i].commandId], p)
  {
    if i < |ms| {
      assert [] + Wave(ms, t, p, i + 1) == Wave(ms, t, p, i + 1);
    }
  }

  lemma TimedKeys(ms: seq<Member>, o: Outcomes, t: Timetable)
    requires Timed(ms, o, t)
    ensures t.Keys == Elements(Ids(ms))
  {
  }

  lemma MidMoves(ms: seq<Member>, t: Timetable, p: nat, i: nat, st: State)
    requires Distinct(Ids(ms)) && i < |ms| && Mid(ms, t, p, i, st) && t.Keys == Elements(Ids(ms))
    ensures var id := ms[i].commandId;
            if id in st.pending && id in t && t[id] == Shut(p) then Mid(ms, t, p, i + 1, Block(st, id)) else Mid(ms, t, p, i + 1, st)
  {
    hide Distinct;
    var id := ms[i].commandId;
    assert Ids(ms)[i] == id;
    PositionOf(ms, i);
    forall other | other in t && Position(ms, other) == i ensures other == id {
      var k :| 0 <= k < |ms| && Ids(ms)[k] == other;
      PositionOf(ms, k);
    }
  }

  // Pass after pass

  predicate InWave(wave: seq<Member>, i: nat, id: string) {
    exists k :: i <= k < |wave| && wave[k].commandId == id
  }

  lemma {:induction false} SettleAll(st: State, wave: seq<Member>, i: nat, o: Outcomes)
    requires i <= |wave|
    ensures var (r, stop) := Settle(st, wave, i, true, o);
            && stop == None
            && (forall id :: id in r.pending <==> id in st.pending && !InWave(wave, i, id))
            && (forall id :: id in r.succeeded <==> id in st.succeeded || (InWave(wave, i, id) && Succeeds(o, id)))
            && (forall id :: id in r.failed <==> id in st.failed || (InWave(wave, i, id) && !Succeeds(o, id)))
    decreases |wave| - i
  {
    hide Succeeds, InWave;
    if i == |wave| {
      forall id ensures !InWave(wave, i, id) {
        WaveSplits(wave, i, id);
      }
    } else {
      forall id ensures InWave(wave, i, id) <==> id == wave[i].commandId || InWave(wave, i + 1, id) {
        WaveSplits(wave, i, id);
      }
      SettleAll(SettleOne(st, wave[i].commandId, o), wave, i + 1, o);
    }
  }

  lemma WaveSplits(wave: seq<Member>, i: nat, id: string)
    requires i <= |wave|
    ensures i == |wave| ==> !InWave(wave, i, id)
    ensures i < |wave| ==> (InWave(wave, i, id) <==> id == wave[i].commandId || InWave(wave, i + 1, id))
  {
  }

  lemma {:induction false} WaveHas(ms: seq<Member>, t: Timetable, p: nat, i: nat, id: string)
    requires i <= |ms|
    ensures InWave(Wave(ms, t, p, i), 0, id) <==>
            exists k :: i <= k < |ms| && ms[k].commandId == id && id in t && Starts(t[id], p)
    decreases |ms| - i
  {
    hide Starts;
    if i < |ms| {
      WaveHas(ms, t, p, i + 1, id);
      var rest := Wave(ms, t, p, i + 1);
      if ms[i].commandId in t && Starts(t[ms[i].commandId], p) {
        InWaveBehind(ms[i], rest, id);
      } else {
        assert [] + rest == rest;
      }
    }
  }

  lemma InWaveBehind(m: Member, rest: seq<Member>, id: string)
    ensures InWave([m] + rest, 0, id) <==> m.commandId == id || InWave(rest, 0, id)
  {
    var wave := [m] + rest;
    if k :| 0 <= k < |rest| && rest[k].commandId == id {
      assert wave[k + 1].commandId == id;
    }
    if k :| 0 <= k < |wave| && wave[k].commandId == id {
      assert k > 0 ==> rest[k - 1] == wave[k];
    }
    assert wave[0] == m;
  }

  lemma StartersAreInWave(ms: seq<Member>, o: Outcomes, t: Timetable, p: nat)
    requires Timed(ms, o, t)
    ensures forall id :: InWave(Wave(ms, t, p, 0), 0, id) <==> id in t && Starts(t[id], p)
  {
    hide Wave, InWave, Fits, Starts;
    forall id ensures InWave(Wave(ms, t, p, 0), 0, id) <==> id in t && Starts(t[id], p) {
      WaveHas(ms, t, p, 0, id);
      if id in t {
        var k := MemberWith(ms, id);
      }
    }
  }

  lemma {:induction false} PositionInside(ms: seq<Member>, id: string)
    requires exists k :: 0 <= k < |ms| && ms[k].commandId == id
    ensures Position(ms, id) < |ms|
  {
    if ms[0].commandId != id {
      var k :| 0 <= k < |ms| && ms[k].commandId == id;
      assert ms[1..][k - 1].commandId == id;
      PositionInside(ms[1..], id);
    }
  }

  lemma WinsBySucceeding(ms: seq<Member>, o: Outcomes, t: Timetable, id: string)
    requires Timed(ms, o, t) && id in t && !t[id].Shut?
    ensures t[id].Won? <==> Succeeds(o, id)
  {
    hide Succeeds;
    var k := MemberWith(ms, id);
    assert Fits(ms, o, k, t);
  }

  lemma NextPass(ms: seq<Member>, o: Outcomes, t: Timetable, p: nat, st: State)
    requires Timed(ms, o, t) && Mid(ms, t, p, |ms|, st)
    ensures var wave := Wave(ms, t, p, 0);
            var (r, stop) := Settle(StartAll(st, wave), wave, 0, true, o);
            stop == None && Mid(ms, t, p + 1, 0, r)
  {
    var wave := Wave(ms, t, p, 0);
    StartAllKeepsPending(st, wave);
    SettleAll(StartAll(st, wave), wave, 0, o);
    StartersAreInWave(ms, o, t, p);
    forall id | id in t && !t[id].Shut? ensures t[id].Won? <==> Succeeds(o, id) {
      WinsBySucceeding(ms, o, t, id);
    }
    forall id | id in t ensures Position(ms, id) < |ms| {
      var k := MemberWith(ms, id);
      PositionInside(ms, id);
    }
    hide Timed, Wave, InWave, Settle, StartAll, Succeeds;
  }

  /** The last pass in which a member starts. */
  function LastStart(ms: seq<Member>, t: Timetable): nat {
    if ms == [] then 0
    else
      var before, id := LastStart(ms[..|ms| - 1], t), ms[|ms| - 1].commandId;
      if id in t && !t[id].Shut? && t[id].pass > before then t[id].pass else before
  }

  lemma {:induction false} LastStartMeans(ms: seq<Member>, t: Timetable)
    ensures forall k :: 0 <= k < |ms| && ms[k].commandId in t && !t[ms[k].commandId].Shut? ==> t[ms[k].commandId].pass <= LastStart(ms, t)
    ensures LastStart(ms, t) > 0 ==> exists k :: 0 <= k < |ms| && ms[k].commandId in t && Starts(t[ms[k].commandId], LastStart(ms, t))
  {
    if ms != [] {
      LastStartMeans(ms[..|ms| - 1], t);
    }
  }

  /** Below a start in some pass there is one in every earlier pass. */
  lemma {:induction false} EveryPassStarts(ms: seq<Member>, o: Outcomes, t: Timetable, id: string, p: nat) returns (starter: string)
    requires Timed(ms, o, t) && id in t && !t[id].Shut? && 1 <= p <= t[id].pass
    ensures starter in t && Starts(t[starter], p)
    decreases t[id].pass
  {
    hide Succeeds;
    starter := id;
    if p < t[id].pass {
      var k := MemberWith(ms, id);
      assert Fits(ms, o, k, t);
      var d :| d in ms[k].dependsOn && t[d].pass == t[id].pass - 1;
      starter := EveryPassStarts(ms, o, t, d, p);
    }
  }

  lemma WaveIsEmptyAtTheEnd(ms: seq<Member>, o: Outcomes, t: Timetable, p: nat)
    requires Timed(ms, o, t) && p >= 1
    ensures Wave(ms, t, p, 0) == [] <==> p > LastStart(ms, t)
  {
    StartersAreInWave(ms, o, t, p);
    LastStartMeans(ms, t);
    var wave := Wave(ms, t, p, 0);
    hide Wave, LastStart;
    if wave != [] {
      assert InWave(wave, 0, wave[0].commandId);
      var k := MemberWith(ms, wave[0].commandId);
    }
    if 1 <= p <= LastStart(ms, t) {
      var k :| 0 <= k < |ms| && ms[k].commandId in t && Starts(t[ms[k].commandId], LastStart(ms, t));
      var starter := EveryPassStarts(ms, o, t, ms[k].commandId, p);
      assert InWave(wave, 0, starter);
    }
  }

  /** Every member that is blocked is so by the pass after the last start. */
  predicate InTime(ms: seq<Member>, t: Timetable) {
    forall id :: id in t && t[id].Shut? ==> t[id].pass <= LastStart(ms, t) + 1
  }

  lemma {:induction false} RunKeepsTime(ms: seq<Member>, o: Outcomes, t: Timetable, p: nat, st: State)
    requires Timed(ms, o, t) && Distinct(Ids(ms)) && 1 <= p <= LastStart(ms, t) + 1 && Mid(ms, t, p, 0, st)
    ensures Run(ms, false, true, o, st).1 == Done <==> InTime(ms, t)
    decreases st.pending
  {
    hide Timed, Distinct, Scan, Settle, StartAll, Wave, Mid, InTime;
    if st.pending == {} {
      NobodyLeft(ms, o, t, p, 0, st);
    } else {
      var (scanned, wave) := Scan(ms, 0, false, st, []);
      ScanKeepsTime(ms, o, t, p, 0, st, []);
      assert wave == Wave(ms, t, p, 0);
      WaveIsEmptyAtTheEnd(ms, o, t, p);
      if wave == [] {
        NobodyLeft(ms, o, t, p, |ms|, scanned);
      } else {
        NextPass(ms, o, t, p, scanned);
        var (settled, stop) := Settle(StartAll(scanned, wave), wave, 0, true, o);
        StartAllKeepsPending(scanned, wave);
        assert wave[0] in wave && wave[0].commandId in st.pending && wave[0].commandId !in settled.pending;
        RunKeepsTime(ms, o, t, p + 1, settled);
      }
    }
  }

  /** With no start to come, nobody is left pending exactly if all that are blocked have been so in time. */
  lemma NobodyLeft(ms: seq<Member>, o: Outcomes, t: Timetable, p: nat, i: nat, st: State)
    requires Timed(ms, o, t) && 1 <= p <= LastStart(ms, t) + 1 && Mid(ms, t, p, i, st)
    requires st.pending == {} || (i == |ms| && p == LastStart(ms, t) + 1)
    ensures st.pending == {} ==> InTime(ms, t)
    ensures InTime(ms, t) && i == |ms| && p == LastStart(ms, t) + 1 ==> st.pending == {}
  {
    LastStartMeans(ms, t);
    hide LastStart, Fits;
    forall id | id in t
      ensures Position(ms, id) < |ms|
      ensures !t[id].Shut? ==> t[id].pass <= LastStart(ms, t)
    {
      var k := MemberWith(ms, id);
      PositionInside(ms, id);
    }
  }

  // The exact condition

  lemma {:induction false} OrderExists(g: Edges, order: seq<string>) returns (whole: seq<string>)
    requires Acyclic(g) && Closed(g) && Ordered(g, order) && Distinct(order) && Elements(order) <= g.Keys
    ensures Ordered(g, whole) && Distinct(whole) && Elements(whole) == g.Keys
    decreases g.Keys - Elements(order)
  {
    var left := g.Keys - Elements(order);
    if left == {} {
      whole := order;
    } else {
      hide Acyclic, Ordered, Distinct;
      var start :| start in left;
      var m := MinimalMember(g, left, start);
      OrderedGrows(g, order, m);
      DistinctGrows(order, m);
      assert Elements(order + [m]) == Elements(order) + {m};
      whole := OrderExists(g, order + [m]);
    }
  }

  /** Every acyclic list has its timetable for all outcomes, and completes under `continue` exactly if that is kept in time. */
  lemma CompletesExactlyInTime(ms: seq<Member>, o: Outcomes) returns (t: Timetable)
    requires Distinct(Ids(ms)) && Acyclic(Dependencies(ms)) && Closed(Dependencies(ms))
    ensures Timed(ms, o, t)
    ensures FullRun(ms, false, true, o).1 == Done <==> InTime(ms, t)
  {
    hide Distinct, Acyclic, Ordered, Fits, Run, InTime, Dependencies;
    NothingRepeats<string>();
    NothingOrdered(Dependencies(ms));
    var order := OrderExists(Dependencies(ms), []);
    DistinctIsListing(ms);
    t := MakeTimetable(ms, o, order);
    assert t.Keys == Elements(Ids(ms));
    forall k | 0 <= k < |ms| ensures Fits(ms, o, k, t) {
      assert ms[k].commandId in Elements(order);
    }
    TimedDecides(ms, o, t);
  }

  lemma NothingOrdered(g: Edges)
    ensures Ordered(g, []) && Elements<string>([]) == {}
  {
  }

  /** Whatever timetable fits the list and the outcomes tells how the start ends. */
  lemma TimedDecides(ms: seq<Member>, o: Outcomes, t: Timetable)
    requires Timed(ms, o, t) && Distinct(Ids(ms))
    ensures FullRun(ms, false, true, o).1 == Done <==> InTime(ms, t)
  {
    hide Distinct, Run, InTime;
    forall id | id in t ensures t[id].pass >= 1 {
      var k := MemberWith(ms, id);
      assert Fits(ms, o, k, t);
    }
    assert Mid(ms, t, 1, 0, Initial(ms));
    RunKeepsTime(ms, o, t, 1, Initial(ms));
  }

  /** A list completes for all outcomes if and only if every timetable of it is kept in time. */
  lemma CompletesForAllOutcomes(ms: seq<Member>)
    requires Distinct(Ids(ms)) && Acyclic(Dependencies(ms)) && Closed(Dependencies(ms))
    ensures (forall o :: FullRun(ms, false, true, o).1 == Done) <==> (forall o, t :: Timed(ms, o, t) ==> InTime(ms, t))
  {
    hide *;
    if forall o :: FullRun(ms, false, true, o).1 == Done {
      forall o, t | Timed(ms, o, t) ensures InTime(ms, t) {
        TimedDecides(ms, o, t);
      }
    }
    if forall o, t :: Timed(ms, o, t) ==> InTime(ms, t) {
      forall o ensures FullRun(ms, false, true, o).1 == Done {
        var t := CompletesExactlyInTime(ms, o);
      }
    }
  }
}
