/** When a start ends without the "cyclic or incomplete" error, and which members then have failed. */
module SchedulerCompletion {
  import opened Digraph
  import opened Results
  import opened StackMembers
  import opened Scheduler
  import opened SchedulerSafety

  // Who fails

  /** Behind every failed or blocked member stands one whose own start or wait failed. */
  lemma {:induction false} FailureHasSource(g: Edges, continues: bool, o: Outcomes, log: seq<Event>, i: nat) returns (d: string)
    requires Lawful(g, continues, o, log) && i < |log| && (log[i].Failed? || log[i].Blocked?)
    ensures Reaches(g, log[i].id, d) && Started(d) in log && Failed(d) in log && !Succeeds(o, d)
    decreases i
  {
    hide Reaches, Leads, Lawful;
    LawfulAt(g, continues, o, log, i);
    d := log[i].id;
    SelfReach(g, d);
    if log[i].Blocked? {
      var via :| via in g[log[i].id] && (Failed(via) in log[..i] || Blocked(via) in log[..i]);
      var k :| 0 <= k < i && (log[..i][k] == Failed(via) || log[..i][k] == Blocked(via));
      d := FailureHasSource(g, continues, o, log, k);
      StepThenReach(g, log[i].id, via, d);
    }
  }

  /** Below a member that succeeded, everything succeeds. */
  lemma SuccessIsDeep(g: Edges, continues: bool, o: Outcomes, log: seq<Event>, id: string, d: string)
    requires Lawful(g, continues, o, log) && Succeeded(id) in log && Reaches(g, id, d)
    ensures Succeeds(o, d)
  {
    hide Reaches, Leads, Lawful;
    var i :| 0 <= i < |log| && log[i] == Succeeded(id);
    LawfulAt(g, continues, o, log, i);
    ReachesCases(g, id, d);
    if id != d {
      var s :| 0 <= s < i && log[..i][s] == Started(id);
      DependenciesSucceedFirst(g, continues, o, log, s, d);
      var k :| 0 <= k < s && log[..s][k] == Succeeded(d);
      LawfulAt(g, continues, o, log, k);
    }
  }

  /** Some member at or below id fails by itself. */
  ghost predicate Doomed(g: Edges, o: Outcomes, id: string) {
    exists d :: Reaches(g, id, d) && !Succeeds(o, d)
  }

  /** The members are split without rest, and the failed ones are exactly the doomed ones. */
  ghost predicate SplitByFate(g: Edges, o: Outcomes, st: State) {
    && st.succeeded + st.failed == g.Keys
    && st.succeeded !! st.failed
    && forall id :: id in g ==> (id in st.failed <==> Doomed(g, o, id))
  }

  lemma DoneIsExact(g: Edges, continues: bool, o: Outcomes, st: State)
    requires Ended(g, continues, o, st, Done)
    ensures SplitByFate(g, o, st)
  {
    hide Reaches, Leads, Lawful;
    forall id | id in g ensures id in st.failed <==> Doomed(g, o, id) {
      if id in st.failed {
        var i :| 0 <= i < |st.log| && (st.log[i] == Failed(id) || st.log[i] == Blocked(id));
        var d := FailureHasSource(g, continues, o, st.log, i);
      } else {
        forall d | Reaches(g, id, d) ensures Succeeds(o, d) {
          SuccessIsDeep(g, continues, o, st.log, id, d);
        }
      }
    }
  }

  // When the scheduler gets stuck

  /** A failure that a pass adds is a blocked member from the part of the list that was scanned. */
  lemma {:induction false} ScanFails(ms: seq<Member>, i: nat, sequential: bool, st: State, eligible: seq<Member>, d: string)
    requires i <= |ms|
    requires var r := Scan(ms, i, sequential, st, eligible).0; d in r.failed && d !in st.failed
    ensures exists j :: i <= j < |ms| && ms[j].commandId == d && ms[j].dependsOn != []
    decreases |ms| - i
  {
    if ms[i].commandId !in st.pending {
      ScanFails(ms, i + 1, sequential, st, eligible, d);
    } else if IsBlocked(ms[i], st.failed) {
      if ms[i].commandId != d {
        ScanFails(ms, i + 1, sequential, Block(st, ms[i].commandId), eligible, d);
      }
    } else if !IsReady(ms[i], st.succeeded) {
      ScanFails(ms, i + 1, sequential, st, eligible, d);
    } else if !sequential {
      ScanFails(ms, i + 1, sequential, st, eligible + [ms[i]], d);
    }
  }

  lemma {:induction false} ScanOnlyAdds(ms: seq<Member>, i: nat, sequential: bool, st: State, eligible: seq<Member>)
    requires i <= |ms|
    ensures var (r, wave) := Scan(ms, i, sequential, st, eligible);
            r.succeeded == st.succeeded && st.failed <= r.failed && |eligible| <= |wave|
    decreases |ms| - i
  {
    hide IsBlocked, IsReady;
    if i < |ms| {
      ScanOnlyAdds(ms, i + 1, sequential, st, eligible);
      ScanOnlyAdds(ms, i + 1, sequential, Block(st, ms[i].commandId), eligible);
      ScanOnlyAdds(ms, i + 1, sequential, st, eligible + [ms[i]]);
    }
  }

  /** Why a member is still pending after a pass that found nothing to start. */
  ghost predicate HeldUp(ms: seq<Member>, k: nat, r: State)
    requires k < |ms|
  {
    && (exists d :: d in ms[k].dependsOn && d !in r.succeeded)
    && forall d :: d in ms[k].dependsOn && d in r.failed ==>
         exists j :: k < j < |ms| && ms[j].commandId == d && ms[j].dependsOn != []
  }

  lemma {:induction false} ScanHoldsUp(ms: seq<Member>, i: nat, sequential: bool, st: State, k: nat)
    requires i <= k < |ms|
    requires var (r, wave) := Scan(ms, i, sequential, st, []); wave == [] && ms[k].commandId in r.pending
    ensures HeldUp(ms, k, Scan(ms, i, sequential, st, []).0)
    decreases |ms| - i
  {
    hide HeldUp;
    NothingEligible(ms, i, sequential, st);
    var next := if ms[i].commandId in st.pending && IsBlocked(ms[i], st.failed) then Block(st, ms[i].commandId) else st;
    if i < k {
      ScanHoldsUp(ms, i + 1, sequential, next, k);
    } else {
      HeldUpHere(ms, i, sequential, st);
    }
  }

  /** A pass that finds nothing to start goes on past every position. */
  lemma NothingEligible(ms: seq<Member>, i: nat, sequential: bool, st: State)
    requires i < |ms| && Scan(ms, i, sequential, st, []).1 == []
    ensures var blocked := ms[i].commandId in st.pending && IsBlocked(ms[i], st.failed);
            && Scan(ms, i, sequential, st, []) == Scan(ms, i + 1, sequential, if blocked then Block(st, ms[i].commandId) else st, [])
            && (ms[i].commandId in st.pending && !blocked ==> !IsReady(ms[i], st.succeeded))
  {
    hide IsBlocked, IsReady;
    assert [] + [ms[i]] == [ms[i]];
    ScanOnlyAdds(ms, i + 1, sequential, st, [ms[i]]);
  }

  lemma HeldUpHere(ms: seq<Member>, k: nat, sequential: bool, st: State)
    requires k < |ms|
    requires var (r, wave) := Scan(ms, k, sequential, st, []); wave == [] && ms[k].commandId in r.pending
    ensures HeldUp(ms, k, Scan(ms, k, sequential, st, []).0)
  {
    NothingEligible(ms, k, sequential, st);
    var r := Scan(ms, k, sequential, st, []).0;
    hide Scan;
    ScanOnlyAdds(ms, k, sequential, st, []);
    assert ms[k].commandId !in Block(st, ms[k].commandId).pending;
    if !IsBlocked(ms[k], st.failed) {
      forall d | d in ms[k].dependsOn && d in r.failed
        ensures exists j :: k < j < |ms| && ms[j].commandId == d && ms[j].dependsOn != []
      {
        ScanFails(ms, k + 1, sequential, st, [], d);
      }
    }
  }

  /** An incomplete start ended with a pass that found nothing to start. */
  lemma {:induction false} LastPass(ms: seq<Member>, sequential: bool, continues: bool, o: Outcomes, st: State) returns (last: State)
    requires Run(ms, sequential, continues, o, st).1 == Incomplete
    ensures Scan(ms, 0, sequential, last, []) == (Run(ms, sequential, continues, o, st).0, [])
    decreases st.pending
  {
    hide Scan, Settle, StartAll;
    var (scanned, wave) := Scan(ms, 0, sequential, st, []);
    if wave == [] {
      last := st;
    } else {
      var (settled, stop) := Settle(StartAll(scanned, wave), wave, 0, continues, o);
      StartAllKeepsPending(scanned, wave);
      assert wave[0] in wave && wave[0].commandId in st.pending && wave[0].commandId !in settled.pending;
      last := LastPass(ms, sequential, continues, o, settled);
    }
  }

  /** A stuck start has a pending member with a failed dependency that stands behind it in the list. */
  lemma StuckMember(ms: seq<Member>, sequential: bool, continues: bool, o: Outcomes) returns (k: nat, j: nat)
    requires Distinct(Ids(ms)) && Acyclic(Dependencies(ms)) && Closed(Dependencies(ms))
    requires FullRun(ms, sequential, continues, o).1 == Incomplete
    ensures k < j < |ms| && ms[j].commandId in ms[k].dependsOn && ms[j].dependsOn != []
    ensures ms[j].commandId in FullRun(ms, sequential, continues, o).0.failed
  {
    hide Distinct, Acyclic, Run, Scan, Reaches, Leads, Lawful, Ids, Dependencies;
    var r := FullRun(ms, sequential, continues, o).0;
    var g := Dependencies(ms);
    RunIsLawful(ms, sequential, continues, o);
    DistinctIsListing(ms);
    var start :| start in r.pending;
    var m := MinimalMember(g, r.pending, start);
    assert m in Ids(ms);
    k :| k < |ms| && Ids(ms)[k] == m;
    var last := LastPass(ms, sequential, continues, o, Initial(ms));
    IdAt(ms, k);
    ScanHoldsUp(ms, 0, sequential, last, k);
    var d :| d in ms[k].dependsOn && d !in r.succeeded;
    assert d in g[m] && d in g && d in Next(g, m);
    j :| k < j < |ms| && ms[j].commandId == d && ms[j].dependsOn != [];
  }

  lemma IdAt(ms: seq<Member>, k: nat)
    requires k < |ms|
    ensures Ids(ms)[k] == ms[k].commandId
  {
  }

  /** Every dependency that has dependencies of its own stands before its dependents. */
  predicate NestedFirst(ms: seq<Member>) {
    forall k, j :: 0 <= k < |ms| && 0 <= j < |ms| && ms[j].commandId in ms[k].dependsOn && ms[j].dependsOn != [] ==> j < k
  }

  /** A list with every dependency before its dependents satisfies the condition. */
  lemma DependenciesFirstIsNested(ms: seq<Member>)
    requires Distinct(Ids(ms)) && Ordered(Dependencies(ms), Ids(ms))
    ensures NestedFirst(ms)
  {
    hide Distinct, Ordered, Dependencies, Next;
    DistinctIsListing(ms);
    forall k, j | 0 <= k < |ms| && 0 <= j < |ms| && ms[j].commandId in ms[k].dependsOn ensures j < k {
      DependsMeansNext(Dependencies(ms), Ids(ms)[k], Ids(ms)[j]);
      StandsBefore(Dependencies(ms), Ids(ms), j, k);
    }
  }

  /** Under `continue` such a list is always worked off, and exactly the doomed members fail. */
  lemma ContinueCompletes(ms: seq<Member>, sequential: bool, o: Outcomes)
    requires Distinct(Ids(ms)) && Acyclic(Dependencies(ms)) && Closed(Dependencies(ms))
    requires NestedFirst(ms)
    ensures var (r, ending) := FullRun(ms, sequential, true, o);
            ending == Done && SplitByFate(Dependencies(ms), o, r)
  {
    hide Distinct, Acyclic, Closed, Run, Lawful, SplitByFate;
    RunIsLawful(ms, sequential, true, o);
    var (r, ending) := FullRun(ms, sequential, true, o);
    if ending == Incomplete {
      var k, j := StuckMember(ms, sequential, true, o);
    } else {
      DoneIsExact(Dependencies(ms), true, o, r);
    }
  }

  /** When no member fails by itself, the order of the list does not matter, under either policy. */
  lemma NoFailureCompletes(ms: seq<Member>, sequential: bool, continues: bool, o: Outcomes)
    requires Distinct(Ids(ms)) && Acyclic(Dependencies(ms)) && Closed(Dependencies(ms))
    requires forall id :: id in Ids(ms) ==> Succeeds(o, id)
    ensures var (r, ending) := FullRun(ms, sequential, continues, o);
            ending == Done && r.succeeded == Elements(Ids(ms)) && r.failed == {}
  {
    hide Distinct, Acyclic, Run, Lawful, Reaches;
    var g := Dependencies(ms);
    RunIsLawful(ms, sequential, continues, o);
    DistinctIsListing(ms);
    var (r, ending) := FullRun(ms, sequential, continues, o);
    if i :| 0 <= i < |r.log| && (r.log[i].Failed? || r.log[i].Blocked?) {
      var d := FailureHasSource(g, continues, o, r.log, i);
      LawfulIdsAreMembers(g, continues, o, r.log, Started(d));
    } else if ending == Incomplete {
      var k, j := StuckMember(ms, sequential, continues, o);
    } else {
      assert r.succeeded == g.Keys == Elements(Ids(ms));
    }
  }

  lemma LawfulIdsAreMembers(g: Edges, continues: bool, o: Outcomes, log: seq<Event>, e: Event)
    requires Lawful(g, continues, o, log) && e in log && e.Started?
    ensures e.id in g
  {
    var i :| 0 <= i < |log| && log[i] == e;
    LawfulAt(g, continues, o, log, i);
  }

  /** Under any other policy a start never gets stuck, and it completes exactly when no member fails. */
  lemma StopPolicyIsExact(ms: seq<Member>, sequential: bool, o: Outcomes)
    requires Distinct(Ids(ms)) && Acyclic(Dependencies(ms)) && Closed(Dependencies(ms))
    ensures FullRun(ms, sequential, false, o).1 != Incomplete
    ensures FullRun(ms, sequential, false, o).1 == Done <==> forall id :: id in Ids(ms) ==> Succeeds(o, id)
  {
    hide Distinct, Acyclic, Run, Lawful, Reaches, Closed;
    var g := Dependencies(ms);
    RunIsLawful(ms, sequential, false, o);
    DistinctIsListing(ms);
    var (r, ending) := FullRun(ms, sequential, false, o);
    if ending == Incomplete {
      var k, j := StuckMember(ms, sequential, false, o);
    } else if ending == Done {
      forall id | id in Ids(ms) ensures Succeeds(o, id) {
        SelfReach(g, id);
        SuccessIsDeep(g, false, o, r.log, id, id);
      }
    } else {
      var i :| 0 <= i < |r.log| && r.log[i] == Failed(ending.id);
      LawfulAt(g, false, o, r.log, i);
      LawfulIdsAreMembers(g, false, o, r.log, Started(ending.id));
    }
  }

  // The converse: a list order on which an acyclic stack is reported as cyclic or incomplete

  /** Member k has dependencies, all of them behind it and all with dependencies of their own. */
  predicate Inverted(ms: seq<Member>, k: nat) {
    && k < |ms| && ms[k].dependsOn != []
    && forall d :: d in ms[k].dependsOn ==> exists j :: k < j < |ms| && ms[j].commandId == d && ms[j].dependsOn != []
  }

  /** In the first pass exactly the members without dependencies are eligible. */
  lemma {:induction false} FirstPass(ms: seq<Member>, i: nat, st: State, eligible: seq<Member>)
    requires i <= |ms| && st.failed == {} && st.succeeded == {}
    requires forall m :: m in ms ==> m.commandId in st.pending
    ensures var (r, wave) := Scan(ms, i, false, st, eligible);
            && r == st
            && (forall m :: m in wave ==> m in eligible || (m in ms && m.dependsOn == []))
            && (forall m :: m in eligible ==> m in wave)
            && (forall k :: i <= k < |ms| && ms[k].dependsOn == [] ==> ms[k] in wave)
    decreases |ms| - i
  {
    if i < |ms| {
      assert ms[i] in ms && !IsBlocked(ms[i], st.failed);
      if ms[i].dependsOn == [] {
        assert IsReady(ms[i], st.succeeded);
        FirstPass(ms, i + 1, st, eligible + [ms[i]]);
        assert ms[i] in eligible + [ms[i]];
      } else {
        assert ms[i].dependsOn[0] in ms[i].dependsOn && !IsReady(ms[i], st.succeeded);
        FirstPass(ms, i + 1, st, eligible);
      }
    }
  }

  lemma {:induction false} EveryoneFails(st: State, wave: seq<Member>, i: nat, o: Outcomes)
    requires i <= |wave| && forall m :: m in wave ==> !Succeeds(o, m.commandId)
    ensures var (r, stop) := Settle(st, wave, i, true, o);
            && stop == None && r.succeeded == st.succeeded
            && (forall id :: id in r.pending <==> id in st.pending && forall k :: i <= k < |wave| ==> wave[k].commandId != id)
            && (forall id :: id in r.failed <==> id in st.failed || exists k :: i <= k < |wave| && wave[k].commandId == id)
    decreases |wave| - i
  {
    hide Succeeds;
    if i < |wave| {
      assert wave[i] in wave;
      EveryoneFails(SettleOne(st, wave[i].commandId, o), wave, i + 1, o);
    }
  }

  /** With nothing succeeded and only members with dependencies left, a pass starts nothing and leaves k pending. */
  lemma {:induction false} HopelessPass(ms: seq<Member>, i: nat, st: State, k: nat)
    requires i <= |ms| && st.succeeded == {} && Distinct(Ids(ms)) && Inverted(ms, k)
    requires forall j :: 0 <= j < |ms| && ms[j].commandId in st.pending ==> ms[j].dependsOn != []
    requires ms[k].commandId in st.pending
    requires i <= k ==> !IsBlocked(ms[k], st.failed)
    ensures var (r, wave) := Scan(ms, i, false, st, []); wave == [] && ms[k].commandId in r.pending
    decreases |ms| - i
  {
    hide Distinct;
    if i < |ms| {
      if ms[i].commandId !in st.pending {
        HopelessPass(ms, i + 1, st, k);
      } else {
        assert ms[i].dependsOn[0] in ms[i].dependsOn && !IsReady(ms[i], st.succeeded);
        if IsBlocked(ms[i], st.failed) {
          OtherIdsDiffer(ms, i, k);
          HopelessPass(ms, i + 1, Block(st, ms[i].commandId), k);
        } else {
          HopelessPass(ms, i + 1, st, k);
        }
      }
    }
  }

  lemma OtherIdsDiffer(ms: seq<Member>, i: nat, k: nat)
    requires i < |ms| && Distinct(Ids(ms)) && Inverted(ms, k)
    ensures i < k ==> ms[i].commandId !in ms[k].dependsOn
    ensures i != k ==> ms[i].commandId != ms[k].commandId
  {
    hide Distinct;
    forall j | 0 <= j < |ms| && i != j ensures ms[i].commandId != ms[j].commandId {
      DistinctAt(Ids(ms), if i < j then i else j, if i < j then j else i);
    }
  }

  /** If the members without dependencies fail, an inverted member leaves the start incomplete. */
  lemma InversionGetsStuck(ms: seq<Member>, k: nat, o: Outcomes)
    requires Distinct(Ids(ms)) && Inverted(ms, k)
    requires forall m :: m in ms && m.dependsOn == [] ==> !Succeeds(o, m.commandId)
    ensures FullRun(ms, false, true, o).1 == Incomplete
  {
    hide Distinct, Scan, Settle, StartAll, Inverted, Succeeds, IsBlocked;
    var st := Initial(ms);
    assert st.succeeded == {} && st.failed == {};
    assert forall m :: m in ms ==> m.commandId in st.pending by {
      forall m | m in ms ensures m.commandId in Ids(ms) {
        var n :| 0 <= n < |ms| && ms[n] == m;
        IdAt(ms, n);
      }
    }
    FirstPass(ms, 0, st, []);
    var wave := Scan(ms, 0, false, st, []).1;
    InvertedFacts(ms, k);
    assert ms[k] in ms;
    if wave != [] {
      StartAllKeepsPending(st, wave);
      EveryoneFails(StartAll(st, wave), wave, 0, o);
      var settled := Settle(StartAll(st, wave), wave, 0, true, o).0;
      RootsAreGone(ms, wave, settled);
      InvertedSurvives(ms, k, wave, settled);
      HopelessPass(ms, 0, settled, k);
      assert Run(ms, false, true, o, settled).1 == Incomplete;
      assert wave[0] in wave && wave[0].commandId !in settled.pending && wave[0].commandId in st.pending;
    }
  }

  lemma InvertedFacts(ms: seq<Member>, k: nat)
    requires Inverted(ms, k)
    ensures k < |ms| && ms[k].dependsOn != []
  {
  }

  lemma RootsAreGone(ms: seq<Member>, wave: seq<Member>, settled: State)
    requires forall j :: 0 <= j < |ms| && ms[j].dependsOn == [] ==> ms[j] in wave
    requires forall id :: id in settled.pending ==> forall n :: 0 <= n < |wave| ==> wave[n].commandId != id
    ensures forall j :: 0 <= j < |ms| && ms[j].commandId in settled.pending ==> ms[j].dependsOn != []
  {
  }

  lemma InvertedSurvives(ms: seq<Member>, k: nat, wave: seq<Member>, settled: State)
    requires Distinct(Ids(ms)) && Inverted(ms, k)
    requires forall m :: m in wave ==> m in ms && m.dependsOn == []
    requires forall id :: id in settled.failed <==> exists n :: 0 <= n < |wave| && wave[n].commandId == id
    ensures !IsBlocked(ms[k], settled.failed)
    ensures forall n :: 0 <= n < |wave| ==> wave[n].commandId != ms[k].commandId
  {
    hide Distinct;
    forall n, j | 0 <= n < |wave| && 0 <= j < |ms| && ms[j].dependsOn != [] ensures wave[n].commandId != ms[j].commandId {
      assert wave[n] in wave;
      var i :| 0 <= i < |ms| && ms[i] == wave[n];
      DistinctAt(Ids(ms), if i < j then i else j, if i < j then j else i);
    }
  }

  /** With at most one dependency each, a list that breaks the condition has an inverted member. */
  lemma NotNestedIsInverted(ms: seq<Member>) returns (k: nat)
    requires Distinct(Ids(ms)) && Acyclic(Dependencies(ms)) && !NestedFirst(ms)
    requires forall m :: m in ms ==> |m.dependsOn| <= 1
    ensures Inverted(ms, k)
  {
    hide Distinct, Reaches, Leads, Ids, Dependencies;
    var i, j :| 0 <= i < |ms| && 0 <= j < |ms| && ms[j].commandId in ms[i].dependsOn && ms[j].dependsOn != [] && j >= i;
    DistinctIsListing(ms);
    var id := ms[i].commandId;
    if j == i {
      SelfReach(Dependencies(ms), id);
      StepThenReach(Dependencies(ms), id, id, id);
    }
    assert ms[i] in ms && ms[i].dependsOn == [ms[j].commandId];
    k := i;
  }

  /**
   Where each member has at most one dependency the condition is exact: a parallel start
   under `continue` completes for all outcomes if and only if the list satisfies it.
   */
  lemma ExactForSingleDependencies(ms: seq<Member>)
    requires Distinct(Ids(ms)) && Acyclic(Dependencies(ms)) && Closed(Dependencies(ms))
    requires forall m :: m in ms ==> |m.dependsOn| <= 1
    ensures (forall o :: FullRun(ms, false, true, o).1 == Done) <==> NestedFirst(ms)
  {
    hide *;
    if NestedFirst(ms) {
      forall o ensures FullRun(ms, false, true, o).1 == Done {
        ContinueCompletes(ms, false, o);
      }
    } else {
      var k := NotNestedIsInverted(ms);
      var o := EveryStartFails();
      InversionGetsStuck(ms, k, o);
      assert FullRun(ms, false, true, o).1 != Done;
    }
  }

  lemma EveryStartFails() returns (o: Outcomes)
    ensures forall id :: !Succeeds(o, id)
  {
    o := Outcomes(_ => false, _ => StartFailed, _ => false);
  }

  /** The smallest case: A after B after C, listed in that order, with C failing. */
  lemma ListedBackwards(a: Member, b: Member, c: Member, o: Outcomes)
    requires a.commandId != b.commandId && a.commandId != c.commandId && b.commandId != c.commandId
    requires a.dependsOn == [b.commandId] && b.dependsOn == [c.commandId] && c.dependsOn == []
    requires !Succeeds(o, c.commandId)
    ensures Acyclic(Dependencies([a, b, c])) && Closed(Dependencies([a, b, c]))
    ensures FullRun([a, b, c], false, true, o).1 == Incomplete
  {
    hide Reaches, Leads, Run, Succeeds, Acyclic;
    var ms, g := [a, b, c], map[a.commandId := a.dependsOn, b.commandId := b.dependsOn, c.commandId := c.dependsOn];
    BackwardsFacts(a, b, c);
    OrderProvesAcyclic(g, [c.commandId, b.commandId, a.commandId], Ids(ms));
    assert ms[1] == b && ms[2] == c;
    assert Inverted(ms, 0);
    InversionGetsStuck(ms, 0, o);
  }

  lemma BackwardsFacts(a: Member, b: Member, c: Member)
    requires a.commandId != b.commandId && a.commandId != c.commandId && b.commandId != c.commandId
    requires a.dependsOn == [b.commandId] && b.dependsOn == [c.commandId] && c.dependsOn == []
    ensures Ids([a, b, c]) == [a.commandId, b.commandId, c.commandId] && Distinct(Ids([a, b, c]))
    ensures Dependencies([a, b, c]) ==
            map[a.commandId := a.dependsOn, b.commandId := b.dependsOn, c.commandId := c.dependsOn]
    ensures Ordered(Dependencies([a, b, c]), [c.commandId, b.commandId, a.commandId])
  {
    hide Dependencies;
    StackMembers.Append([], a);
    StackMembers.Append([a], b);
    StackMembers.Append([a, b], c);
    assert [] + [a] == [a] && [a] + [b] == [a, b] && [a, b] + [c] == [a, b, c];
    NothingToClean();
    var x, y, z := a.commandId, b.commandId, c.commandId;
    DistinctGrows<string>([], x);
    DistinctGrows([x], y);
    DistinctGrows([x, y], z);
    assert [] + [x] == [x] && [x] + [y] == [x, y] && [x, y] + [z] == [x, y, z];
    var g := Dependencies([a, b, c]);
    OrderedGrows(g, [], z);
    OrderedGrows(g, [z], y);
    OrderedGrows(g, [z, y], x);
    assert [] + [z] == [z] && [z] + [y] == [z, y] && [z, y] + [x] == [z, y, x];
  }

  // From selection to schedule

  lemma {:induction false} DefaultsKeepGraph(ms: seq<Member>)
    ensures Dependencies(Defaulted(ms)) == Dependencies(ms)
    ensures Ids(Defaulted(ms)) == Ids(ms)
  {
    if ms != [] {
      var before, last := ms[..|ms| - 1], ms[|ms| - 1];
      DefaultsKeepGraph(before);
      assert Defaulted(ms) == Defaulted(before) + [WithDefaults(last, |before|)];
      StackMembers.Append(Defaulted(before), WithDefaults(last, |before|));
    }
  }

  lemma {:induction false} OnlySelectedIsPart(deps: seq<string>, selected: set<string>, d: string)
    requires d in OnlySelected(deps, selected)
    ensures d in deps && d in selected
  {
    var before, last := deps[..|deps| - 1], deps[|deps| - 1];
    if d in OnlySelected(before, selected) {
      OnlySelectedIsPart(before, selected, d);
    }
  }

  lemma IdsShrink(ms: seq<Member>)
    requires ms != [] && Distinct(Ids(ms))
    ensures Ids(ms) == Ids(ms[..|ms| - 1]) + [ms[|ms| - 1].commandId]
    ensures Distinct(Ids(ms[..|ms| - 1])) && ms[|ms| - 1].commandId !in Ids(ms[..|ms| - 1])
  {
    assert Ids(ms)[..|ms| - 1] == Ids(ms[..|ms| - 1]);
  }

  /** A choice has no repeated ids if the list has none. */
  lemma {:induction false} ChosenIds(ms: seq<Member>, byId: map<string, Member>, selected: set<string>)
    requires Distinct(Ids(ms)) && forall id :: id in byId ==> byId[id].commandId == id
    ensures Distinct(Ids(Chosen(ms, byId, selected)))
    ensures forall id :: id in Ids(Chosen(ms, byId, selected)) <==> id in Ids(ms) && id in selected && id in byId
  {
    if ms != [] {
      hide Ids, Distinct, Chosen;
      var before, id := ms[..|ms| - 1], ms[|ms| - 1].commandId;
      IdsShrink(ms);
      ChosenIds(before, byId, selected);
      ChosenGrows(ms, byId, selected);
      if id in selected && id in byId {
        DistinctGrows(Ids(Chosen(before, byId, selected)), id);
      }
    }
  }

  lemma ChosenGrows(ms: seq<Member>, byId: map<string, Member>, selected: set<string>)
    requires ms != [] && forall id :: id in byId ==> byId[id].commandId == id
    ensures var earlier, id := Chosen(ms[..|ms| - 1], byId, selected), ms[|ms| - 1].commandId;
            Ids(Chosen(ms, byId, selected)) == if id in selected && id in byId then Ids(earlier) + [id] else Ids(earlier)
  {
    hide Ids, OnlySelected;
    var earlier, id := Chosen(ms[..|ms| - 1], byId, selected), ms[|ms| - 1].commandId;
    if id in selected && id in byId {
      StackMembers.Append(earlier, byId[id].(dependsOn := OnlySelected(byId[id].dependsOn, selected)));
    } else {
      assert earlier + [] == earlier;
    }
  }

  /** Each chosen member keeps its selected dependencies only. */
  lemma {:induction false} ChosenDependencies(ms: seq<Member>, byId: map<string, Member>, selected: set<string>, m: Member)
    requires forall id :: id in byId ==> byId[id].commandId == id
    requires m in Chosen(ms, byId, selected)
    ensures m.commandId in byId && m.dependsOn == OnlySelected(byId[m.commandId].dependsOn, selected)
  {
    hide OnlySelected;
    var before := ms[..|ms| - 1];
    if m in Chosen(before, byId, selected) {
      ChosenDependencies(before, byId, selected, m);
    }
  }

  lemma SelectedAreMembers(ms: seq<Member>, request: Option<seq<string>>, selected: set<string>)
    requires IsSelection(ms, request, selected)
    requires request.Some? ==> GoodRequest(Dependencies(ms), request.value)
    ensures selected <= ById(ms).Keys
  {
    LookupFacts(ms);
  }

  /** An edge between chosen members is an edge of the stack, and it leads to a chosen member. */
  lemma ChosenEdge(g: Edges, ms: seq<Member>, byId: map<string, Member>, selected: set<string>, v: string, d: string)
    requires forall id :: id in byId ==> byId[id].commandId == id && id in g && g[id] == byId[id].dependsOn
    requires Distinct(Ids(ms)) && selected <= byId.Keys && forall id :: id in byId ==> id in Ids(ms)
    requires d in Next(Dependencies(Chosen(ms, byId, selected)), v)
    ensures d in Dependencies(Chosen(ms, byId, selected)) && d in Next(g, v)
  {
    hide Distinct, Ids, Chosen, Dependencies, ById, OnlySelected;
    var out := Chosen(ms, byId, selected);
    LookupFacts(out);
    ChosenIds(ms, byId, selected);
    ChosenDependencies(ms, byId, selected, ById(out)[v]);
    OnlySelectedIsPart(byId[v].dependsOn, selected, d);
    assert d in byId && d in Ids(out);
  }

  /** Whatever is selected from an acyclic stack without repeated members is fit for the scheduler. */
  lemma SelectionIsSchedulable(members: seq<Member>, request: Option<seq<string>>, selected: set<string>)
    requires Distinct(Ids(members)) && Acyclic(Dependencies(members))
    requires IsSelection(Defaulted(members), request, selected)
    requires request.Some? ==> GoodRequest(Dependencies(Defaulted(members)), request.value)
    ensures var out := Chosen(members, ById(Defaulted(members)), selected);
            Distinct(Ids(out)) && Closed(Dependencies(out)) && Acyclic(Dependencies(out))
  {
    hide Acyclic, Distinct, IsSelection, GoodRequest, Ids, Chosen, Dependencies, Defaulted, ById, OnlySelected;
    var ds := Defaulted(members);
    var byId := ById(ds);
    var out := Chosen(members, byId, selected);
    SelectedAreMembers(ds, request, selected);
    DefaultsKeepGraph(members);
    LookupFacts(ds);
    ChosenIds(members, byId, selected);
    var g, h := Dependencies(members), Dependencies(out);
    forall v, d | d in Next(h, v) ensures d in Next(g, v) {
      ChosenEdge(g, members, byId, selected, v, d);
    }
    forall v, d | v in h && d in h[v] ensures d in h {
      ChosenEdge(g, members, byId, selected, v, d);
    }
    FewerEdges(g, h);
  }
}
