/** What every course of the wave scheduler obeys, whatever the outcomes. */
module SchedulerSafety {
  import opened Digraph
  import opened Results
  import opened StackMembers
  import opened Scheduler

  /** ms lists the ids of g, each with its dependencies. */
  ghost predicate Listing(ms: seq<Member>, g: Edges) {
    && (forall id :: id in g <==> id in Ids(ms))
    && forall k :: 0 <= k < |ms| ==> ms[k].commandId in g && g[ms[k].commandId] == ms[k].dependsOn
  }

  lemma DistinctIsListing(ms: seq<Member>)
    requires Distinct(Ids(ms))
    ensures Listing(ms, Dependencies(ms))
  {
    hide Distinct, Ids, Dependencies, ById;
    LookupFacts(ms);
    forall k | 0 <= k < |ms| ensures ms[k].commandId in Dependencies(ms) && Dependencies(ms)[ms[k].commandId] == ms[k].dependsOn {
      LookupOfDistinct(ms, ms[k]);
    }
  }

  /** When an event may come next. */
  ghost predicate Enabled(g: Edges, continues: bool, o: Outcomes, before: seq<Event>, e: Event) {
    match e
    case Started(id) =>
      && id in g && Started(id) !in before && Blocked(id) !in before
      && (forall d :: d in g[id] ==> Succeeded(d) in before)
      && (continues || forall d :: Failed(d) !in before)
    case Succeeded(id) =>
      && Started(id) in before && Succeeded(id) !in before && Failed(id) !in before
      && Succeeds(o, id)
    case Failed(id) =>
      && Started(id) in before && Succeeded(id) !in before && Failed(id) !in before
      && !Succeeds(o, id)
    case Blocked(id) =>
      && id in g && Started(id) !in before && Blocked(id) !in before
      && exists d :: d in g[id] && (Failed(d) in before || Blocked(d) in before)
  }

  ghost predicate Lawful(g: Edges, continues: bool, o: Outcomes, log: seq<Event>) {
    log != [] ==>
      && Lawful(g, continues, o, log[..|log| - 1])
      && Enabled(g, continues, o, log[..|log| - 1], log[|log| - 1])
  }

  lemma LawfulGrows(g: Edges, continues: bool, o: Outcomes, log: seq<Event>, e: Event)
    requires Lawful(g, continues, o, log) && Enabled(g, continues, o, log, e)
    ensures Lawful(g, continues, o, log + [e])
  {
    hide Enabled;
    assert (log + [e])[..|log|] == log;
  }

  lemma {:induction false} LawfulAt(g: Edges, continues: bool, o: Outcomes, log: seq<Event>, i: nat)
    requires Lawful(g, continues, o, log) && i < |log|
    ensures Lawful(g, continues, o, log[..i]) && Enabled(g, continues, o, log[..i], log[i])
  {
    hide Enabled;
    if i < |log| - 1 {
      LawfulAt(g, continues, o, log[..|log| - 1], i);
      assert log[..|log| - 1][..i] == log[..i];
    }
  }

  // The three maps agree with the log

  /** inFlight holds the members of the current wave whose results are not booked yet. */
  ghost predicate Agrees(g: Edges, st: State, inFlight: set<string>) {
    && st.pending + st.succeeded + st.failed == g.Keys
    && st.pending !! st.succeeded !! st.failed
    && (forall id :: id in st.succeeded <==> Succeeded(id) in st.log)
    && (forall id :: id in st.failed <==> Failed(id) in st.log || Blocked(id) in st.log)
    && inFlight <= st.pending
    && (forall id :: id in inFlight ==> Started(id) in st.log)
    && (forall id :: Started(id) in st.log && id in st.pending ==> id in inFlight)
  }

  ghost predicate Good(g: Edges, continues: bool, o: Outcomes, st: State, inFlight: set<string>) {
    Lawful(g, continues, o, st.log) && Agrees(g, st, inFlight)
  }

  /** A failure under a policy other than continue ends everything at once. */
  predicate Clear(continues: bool, st: State) {
    continues || st.failed == {}
  }

  predicate WaveFits(g: Edges, st: State, wave: seq<Member>) {
    && Distinct(Ids(wave))
    && forall m :: m in wave ==>
         m.commandId in st.pending && m.commandId in g && forall d :: d in g[m.commandId] ==> d in st.succeeded
  }

  lemma BlockKeeps(g: Edges, continues: bool, o: Outcomes, st: State, m: Member)
    requires Good(g, continues, o, st, {}) && m.commandId in st.pending
    requires m.commandId in g && g[m.commandId] == m.dependsOn && IsBlocked(m, st.failed)
    ensures Good(g, continues, o, Block(st, m.commandId), {})
  {
    hide Lawful, Succeeds;
    LawfulGrows(g, continues, o, st.log, Blocked(m.commandId));
  }

  lemma StartKeeps(g: Edges, continues: bool, o: Outcomes, st: State, inFlight: set<string>, m: Member)
    requires Good(g, continues, o, st, inFlight) && Clear(continues, st)
    requires m.commandId in st.pending && m.commandId !in inFlight && m.commandId in g
    requires forall d :: d in g[m.commandId] ==> d in st.succeeded
    ensures Good(g, continues, o, st.(log := st.log + [Started(m.commandId)]), inFlight + {m.commandId})
  {
    hide Lawful, Succeeds;
    LawfulGrows(g, continues, o, st.log, Started(m.commandId));
  }

  lemma SettleOneKeeps(g: Edges, continues: bool, o: Outcomes, st: State, inFlight: set<string>, id: string)
    requires Good(g, continues, o, st, inFlight) && id in inFlight
    ensures Good(g, continues, o, SettleOne(st, id, o), inFlight - {id})
    ensures Clear(continues, st) && (Succeeds(o, id) || continues) ==> Clear(continues, SettleOne(st, id, o))
  {
    hide Lawful, Succeeds;
    LawfulGrows(g, continues, o, st.log, if Succeeds(o, id) then Succeeded(id) else Failed(id));
  }

  lemma WaveGrows(g: Edges, st: State, wave: seq<Member>, m: Member)
    requires WaveFits(g, st, wave) && m.commandId !in Ids(wave)
    requires m.commandId in st.pending && m.commandId in g && forall d :: d in g[m.commandId] ==> d in st.succeeded
    ensures WaveFits(g, st, wave + [m])
    ensures Ids(wave + [m]) == Ids(wave) + [m.commandId]
  {
    DistinctGrows(Ids(wave), m.commandId);
    assert Ids(wave + [m]) == Ids(wave) + [m.commandId];
  }

  lemma WaveSurvivesBlock(g: Edges, st: State, wave: seq<Member>, id: string)
    requires WaveFits(g, st, wave) && id !in Ids(wave)
    ensures WaveFits(g, Block(st, id), wave)
  {
    hide Distinct;
    forall m | m in wave ensures m.commandId != id {
      var k :| 0 <= k < |wave| && wave[k] == m;
      assert Ids(wave)[k] == m.commandId;
    }
  }

  lemma {:induction false} ScanKeeps(g: Edges, continues: bool, o: Outcomes, ms: seq<Member>, i: nat,
                                     sequential: bool, st: State, eligible: seq<Member>)
    requires Listing(ms, g) && Distinct(Ids(ms)) && i <= |ms|
    requires Good(g, continues, o, st, {}) && Clear(continues, st)
    requires WaveFits(g, st, eligible) && forall id :: id in Ids(eligible) ==> id in Ids(ms)[..i]
    ensures var (r, wave) := Scan(ms, i, sequential, st, eligible);
            Good(g, continues, o, r, {}) && Clear(continues, r) && WaveFits(g, r, wave)
    decreases |ms| - i
  {
    hide Good, Distinct, WaveFits, IsReady, IsBlocked;
    if i < |ms| {
      var m := ms[i];
      assert m.commandId !in Ids(eligible) && forall id :: id in Ids(eligible) ==> id in Ids(ms)[..i + 1] by {
        if m.commandId in Ids(ms)[..i] {
          var k :| 0 <= k < i && Ids(ms)[..i][k] == m.commandId;
          DistinctAt(Ids(ms), k, i);
        }
        assert Ids(ms)[..i + 1] == Ids(ms)[..i] + [m.commandId];
      }
      if m.commandId !in st.pending {
        ScanKeeps(g, continues, o, ms, i + 1, sequential, st, eligible);
      } else if IsBlocked(m, st.failed) {
        NothingBlockedWhenClear(continues, st, m);
        BlockKeeps(g, continues, o, st, m);
        WaveSurvivesBlock(g, st, eligible, m.commandId);
        ScanKeeps(g, continues, o, ms, i + 1, sequential, Block(st, m.commandId), eligible);
      } else if !IsReady(m, st.succeeded) {
        ScanKeeps(g, continues, o, ms, i + 1, sequential, st, eligible);
      } else {
        ReadyMeans(m, st.succeeded);
        WaveGrows(g, st, eligible, m);
        assert Ids(ms)[..i + 1] == Ids(ms)[..i] + [m.commandId];
        if !sequential {
          ScanKeeps(g, continues, o, ms, i + 1, sequential, st, eligible + [m]);
        }
      }
    }
  }

  lemma ReadyMeans(m: Member, succeeded: set<string>)
    requires IsReady(m, succeeded)
    ensures forall d :: d in m.dependsOn ==> d in succeeded
  {
  }

  lemma NothingBlockedWhenClear(continues: bool, st: State, m: Member)
    requires Clear(continues, st) && IsBlocked(m, st.failed)
    ensures continues
  {
  }

  lemma {:induction false} StartAllKeeps(g: Edges, continues: bool, o: Outcomes, st: State, wave: seq<Member>)
    requires Good(g, continues, o, st, {}) && Clear(continues, st) && WaveFits(g, st, wave)
    ensures Good(g, continues, o, StartAll(st, wave), Elements(Ids(wave)))
    ensures Clear(continues, StartAll(st, wave))
  {
    hide Good, WaveFits, Ids, Elements;
    StartAllKeepsPending(st, wave);
    if wave != [] {
      var before, m := wave[..|wave| - 1], wave[|wave| - 1];
      WaveShrinks(g, st, wave);
      StartAllKeeps(g, continues, o, st, before);
      StartAllKeepsPending(st, before);
      StartKeeps(g, continues, o, StartAll(st, before), Elements(Ids(before)), m);
    } else {
      NothingInFlight();
    }
  }

  lemma NothingInFlight()
    ensures Elements(Ids([])) == {}
  {
  }

  lemma WaveShrinks(g: Edges, st: State, wave: seq<Member>)
    requires wave != [] && WaveFits(g, st, wave)
    ensures WaveFits(g, st, wave[..|wave| - 1])
    ensures wave[|wave| - 1].commandId !in Elements(Ids(wave[..|wave| - 1]))
    ensures Elements(Ids(wave)) == Elements(Ids(wave[..|wave| - 1])) + {wave[|wave| - 1].commandId}
    ensures var id := wave[|wave| - 1].commandId; id in st.pending && id in g && forall d :: d in g[id] ==> d in st.succeeded
  {
    assert Ids(wave)[..|wave| - 1] == Ids(wave[..|wave| - 1]);
    assert Ids(wave) == Ids(wave[..|wave| - 1]) + [wave[|wave| - 1].commandId] && wave[|wave| - 1] in wave;
  }

  lemma {:induction false} SettleKeeps(g: Edges, continues: bool, o: Outcomes, st: State, wave: seq<Member>, i: nat)
    requires i <= |wave| && Distinct(Ids(wave))
    requires Good(g, continues, o, st, Elements(Ids(wave)[i..])) && Clear(continues, st)
    ensures var (r, stop) := Settle(st, wave, i, continues, o);
            && (stop.None? ==> Good(g, continues, o, r, {}) && Clear(continues, r))
            && (stop.Some? ==> !continues && Lawful(g, continues, o, r.log) && Failed(stop.value) in r.log)
    decreases |wave| - i
  {
    hide Distinct, Succeeds, Lawful, Agrees;
    if i < |wave| {
      var id := wave[i].commandId;
      var rest := Elements(Ids(wave)[i..]);
      assert id == Ids(wave)[i..][0] && id in rest;
      SettleOneKeeps(g, continues, o, st, rest, id);
      if Succeeds(o, id) || continues {
        assert rest - {id} == Elements(Ids(wave)[i + 1..]) by {
          assert Ids(wave)[i..] == [id] + Ids(wave)[i + 1..];
          if id in Ids(wave)[i + 1..] {
            var k :| 0 <= k < |wave| - (i + 1) && Ids(wave)[i + 1..][k] == id;
            DistinctAt(Ids(wave), i, i + 1 + k);
          }
        }
        SettleKeeps(g, continues, o, SettleOne(st, id, o), wave, i + 1);
      }
    } else {
      assert Elements(Ids(wave)[i..]) == {};
    }
  }

  /** How a run ends, in terms of its final maps and log. */
  ghost predicate Ended(g: Edges, continues: bool, o: Outcomes, st: State, ending: Ending) {
    && Lawful(g, continues, o, st.log)
    && match ending
       case MemberFailed(id) => !continues && Failed(id) in st.log
       case Done => Agrees(g, st, {}) && Clear(continues, st) && st.pending == {}
       case Incomplete => Agrees(g, st, {}) && Clear(continues, st) && st.pending != {}
  }

  lemma {:induction false} RunKeeps(g: Edges, continues: bool, o: Outcomes, ms: seq<Member>, sequential: bool, st: State)
    requires Listing(ms, g) && Distinct(Ids(ms))
    requires Good(g, continues, o, st, {}) && Clear(continues, st)
    ensures var (r, ending) := Run(ms, sequential, continues, o, st); Ended(g, continues, o, r, ending)
    decreases st.pending
  {
    hide Distinct, Lawful, Agrees, Listing, Scan, Settle, StartAll, Clear;
    if st.pending != {} {
      EmptyWave(g, st);
      ScanKeeps(g, continues, o, ms, 0, sequential, st, []);
      var (scanned, wave) := Scan(ms, 0, sequential, st, []);
      if wave != [] {
        StartAllKeeps(g, continues, o, scanned, wave);
        assert Ids(wave)[0..] == Ids(wave);
        SettleKeeps(g, continues, o, StartAll(scanned, wave), wave, 0);
        var (settled, stop) := Settle(StartAll(scanned, wave), wave, 0, continues, o);
        StartAllKeepsPending(scanned, wave);
        assert wave[0] in wave && wave[0].commandId in st.pending && wave[0].commandId !in settled.pending;
        if stop.None? {
          RunKeeps(g, continues, o, ms, sequential, settled);
        }
      }
    }
  }

  lemma EmptyWave(g: Edges, st: State)
    ensures WaveFits(g, st, []) && Ids([]) == []
  {
  }

  function FullRun(ms: seq<Member>, sequential: bool, continues: bool, o: Outcomes): (State, Ending) {
    Run(ms, sequential, continues, o, Initial(ms))
  }

  /** Every start obeys the laws below, for every outcome of every member. */
  lemma RunIsLawful(ms: seq<Member>, sequential: bool, continues: bool, o: Outcomes)
    requires Distinct(Ids(ms))
    ensures var (r, ending) := FullRun(ms, sequential, continues, o);
            Ended(Dependencies(ms), continues, o, r, ending)
  {
    DistinctIsListing(ms);
    InitialIsGood(ms, continues, o);
    RunKeeps(Dependencies(ms), continues, o, ms, sequential, Initial(ms));
  }

  lemma InitialIsGood(ms: seq<Member>, continues: bool, o: Outcomes)
    ensures Good(Dependencies(ms), continues, o, Initial(ms), {}) && Clear(continues, Initial(ms))
  {
    LookupFacts(ms);
    assert Dependencies(ms).Keys == Elements(Ids(ms));
  }

  // The laws

  lemma StartedAtMostOnce(g: Edges, continues: bool, o: Outcomes, log: seq<Event>, i: nat, j: nat)
    requires Lawful(g, continues, o, log) && i < j < |log| && log[i].Started?
    ensures log[j] != log[i]
  {
    LawfulAt(g, continues, o, log, j);
    assert log[i] in log[..j];
  }

  /** Nothing starts before all it depends on, directly or not, has succeeded. */
  lemma {:induction false} DependenciesSucceedFirst(g: Edges, continues: bool, o: Outcomes, log: seq<Event>, i: nat, d: string)
    requires Lawful(g, continues, o, log) && i < |log| && log[i].Started?
    requires Leads(g, log[i].id, d)
    ensures Succeeded(d) in log[..i]
    decreases i
  {
    hide Leads, Reaches;
    LawfulAt(g, continues, o, log, i);
    var first := LeadsFirstStep(g, log[i].id, d);
    var k :| 0 <= k < i && log[..i][k] == Succeeded(first);
    if first != d {
      ReachesCases(g, first, d);
      LawfulAt(g, continues, o, log, k);
      var s :| 0 <= s < k && log[..k][s] == Started(first);
      DependenciesSucceedFirst(g, continues, o, log, s, d);
    }
  }

  /** Each member has one fate: a success rules out a failure, and a start rules out being blocked. */
  lemma {:induction false} OneFate(g: Edges, continues: bool, o: Outcomes, log: seq<Event>, id: string)
    requires Lawful(g, continues, o, log)
    ensures Succeeded(id) in log ==> Started(id) in log && Failed(id) !in log
    ensures Started(id) in log ==> Blocked(id) !in log
  {
    if log != [] {
      var before, e := log[..|log| - 1], log[|log| - 1];
      OneFate(g, continues, o, before, id);
      assert log == before + [e];
    }
  }

  /** A started member has no dependency, however far down, that fails or is blocked at any time. */
  lemma NeverAboveAFailure(g: Edges, continues: bool, o: Outcomes, log: seq<Event>, i: nat, d: string)
    requires Lawful(g, continues, o, log) && i < |log| && log[i].Started?
    requires Leads(g, log[i].id, d)
    ensures Failed(d) !in log && Blocked(d) !in log
  {
    DependenciesSucceedFirst(g, continues, o, log, i, d);
    OneFate(g, continues, o, log, d);
    assert Succeeded(d) in log;
  }

  /** Under a policy other than continue nothing starts after a failure. */
  lemma NoStartAfterFailure(g: Edges, o: Outcomes, log: seq<Event>, i: nat, j: nat)
    requires Lawful(g, false, o, log) && i < j < |log| && log[i].Failed?
    ensures !log[j].Started?
  {
    LawfulAt(g, false, o, log, j);
    assert log[i] in log[..j];
  }

  /** A member that was running already, or that gives no run to wait for, counts as started well. */
  lemma {:induction false} ResultsAreTold(g: Edges, continues: bool, o: Outcomes, log: seq<Event>, id: string)
    requires Lawful(g, continues, o, log)
    ensures Succeeded(id) in log ==> o.startError(id) != StartFailed && (o.hasRun(id) ==> o.waitMet(id))
    ensures Failed(id) in log ==> o.startError(id) == StartFailed || (o.hasRun(id) && !o.waitMet(id))
  {
    if log != [] {
      var before, e := log[..|log| - 1], log[|log| - 1];
      ResultsAreTold(g, continues, o, before, id);
      assert log == before + [e];
    }
  }
}
