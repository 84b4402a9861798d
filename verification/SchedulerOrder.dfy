/** In which order members start: one at a time under the strategy "sequential", and else wave by wave in list order. */
module SchedulerOrder {
  import opened Digraph
  import opened Results
  import opened StackMembers
  import opened Scheduler
  import opened SchedulerSafety

  ghost predicate Over(log: seq<Event>, id: string) {
    Succeeded(id) in log || Failed(id) in log
  }

  ghost predicate Waits(log: seq<Event>, m: Member) {
    exists d :: d in m.dependsOn && Succeeded(d) !in log
  }

  /** The member is over, is counted as blocked, or still waits for a dependency. */
  ghost predicate CannotStart(log: seq<Event>, m: Member) {
    Over(log, m.commandId) || Blocked(m.commandId) in log || Waits(log, m)
  }

  ghost predicate NoneRuns(log: seq<Event>) {
    forall id :: Started(id) in log ==> Over(log, id)
  }

  /** Some entry of the list has the id, and no entry before it can be started. */
  ghost predicate FirstInLine(ms: seq<Member>, log: seq<Event>, id: string) {
    exists k :: 0 <= k < |ms| && ms[k].commandId == id && forall m :: m in ms[..k] ==> CannotStart(log, m)
  }

  /** Each start comes when nothing runs, and it is the first that can be started. */
  ghost predicate InTurn(ms: seq<Member>, log: seq<Event>) {
    log != [] ==>
      var before, e := log[..|log| - 1], log[|log| - 1];
      && InTurn(ms, before)
      && (e.Started? ==> NoneRuns(before) && FirstInLine(ms, before, e.id))
  }

  lemma TurnGrows(ms: seq<Member>, log: seq<Event>, e: Event)
    requires InTurn(ms, log)
    requires e.Started? ==> NoneRuns(log) && FirstInLine(ms, log, e.id)
    ensures InTurn(ms, log + [e])
  {
    hide NoneRuns, FirstInLine;
    assert (log + [e])[..|log|] == log;
  }

  lemma {:induction false} InTurnAt(ms: seq<Member>, log: seq<Event>, j: nat)
    requires InTurn(ms, log) && j < |log| && log[j].Started?
    ensures NoneRuns(log[..j]) && FirstInLine(ms, log[..j], log[j].id)
  {
    hide NoneRuns, FirstInLine;
    if j < |log| - 1 {
      InTurnAt(ms, log[..|log| - 1], j);
      assert log[..|log| - 1][..j] == log[..j];
    }
  }

  /** What the maps say of the log. */
  ghost predicate Told(ms: seq<Member>, st: State) {
    && (forall m :: m in ms ==> m.commandId in st.pending || Over(st.log, m.commandId) || Blocked(m.commandId) in st.log)
    && (forall d :: Succeeded(d) in st.log ==> d in st.succeeded)
  }

  ghost predicate Between(ms: seq<Member>, st: State) {
    Told(ms, st) && InTurn(ms, st.log) && NoneRuns(st.log)
  }

  lemma BlockKeepsTurn(ms: seq<Member>, st: State, id: string)
    requires Between(ms, st)
    ensures Between(ms, Block(st, id))
    ensures forall m :: CannotStart(st.log, m) ==> CannotStart(Block(st, id).log, m)
  {
    hide FirstInLine, InTurn;
    TurnGrows(ms, st.log, Blocked(id));
  }

  lemma PassedBy(ms: seq<Member>, st: State, i: nat)
    requires i < |ms| && Told(ms, st) && forall m :: m in ms[..i] ==> CannotStart(st.log, m)
    requires ms[i].commandId !in st.pending || !IsReady(ms[i], st.succeeded)
    ensures forall m :: m in ms[..i + 1] ==> CannotStart(st.log, m)
  {
    assert ms[i] in ms && ms[..i + 1] == ms[..i] + [ms[i]];
  }

  /** A sequential pass picks at most one member, the first that can be started. */
  lemma {:induction false} ScanInTurn(ms: seq<Member>, i: nat, st: State)
    requires i <= |ms| && Between(ms, st)
    requires forall m :: m in ms[..i] ==> CannotStart(st.log, m)
    ensures var (r, wave) := Scan(ms, i, true, st, []);
            && Between(ms, r)
            && (wave == [] || (|wave| == 1 && FirstInLine(ms, r.log, wave[0].commandId)))
    decreases |ms| - i
  {
    hide Between, CannotStart, IsReady, IsBlocked;
    if i < |ms| {
      var id := ms[i].commandId;
      if id !in st.pending {
        StillTold(ms, st);
        PassedBy(ms, st, i);
        ScanInTurn(ms, i + 1, st);
      } else if IsBlocked(ms[i], st.failed) {
        BlockKeepsTurn(ms, st, id);
        StillTold(ms, Block(st, id));
        PassedBy(ms, Block(st, id), i);
        ScanInTurn(ms, i + 1, Block(st, id));
      } else if !IsReady(ms[i], st.succeeded) {
        StillTold(ms, st);
        PassedBy(ms, st, i);
        ScanInTurn(ms, i + 1, st);
      }
    }
  }

  lemma StillTold(ms: seq<Member>, st: State)
    requires Between(ms, st)
    ensures Told(ms, st)
  {
  }

  lemma OneKeepsTurn(ms: seq<Member>, st: State, m: Member, o: Outcomes)
    requires Between(ms, st) && FirstInLine(ms, st.log, m.commandId)
    ensures Between(ms, SettleOne(StartAll(st, [m]), m.commandId, o))
  {
    hide FirstInLine, InTurn, Succeeds;
    assert [m][..0] == [] && StartAll(st, []) == st;
    var started := st.log + [Started(m.commandId)];
    TurnGrows(ms, st.log, Started(m.commandId));
    TurnGrows(ms, started, Succeeded(m.commandId));
    TurnGrows(ms, started, Failed(m.commandId));
    assert forall e :: e in st.log ==> e in started;
  }

  lemma {:induction false} RunInTurn(ms: seq<Member>, continues: bool, o: Outcomes, st: State)
    requires Between(ms, st)
    ensures InTurn(ms, Run(ms, true, continues, o, st).0.log)
    decreases st.pending
  {
    hide Told, NoneRuns, FirstInLine, Scan, StartAll, Settle, Succeeds;
    if st.pending != {} {
      ScanInTurn(ms, 0, st);
      var (scanned, wave) := Scan(ms, 0, true, st, []);
      if wave != [] {
        OneKeepsTurn(ms, scanned, wave[0], o);
        assert wave == [wave[0]];
        SettlesOne(StartAll(scanned, wave), wave, continues, o);
        StartAllKeepsPending(scanned, wave);
        var (settled, stop) := Settle(StartAll(scanned, wave), wave, 0, continues, o);
        assert wave[0] in wave && wave[0].commandId in st.pending && wave[0].commandId !in settled.pending;
        if stop.None? {
          RunInTurn(ms, continues, o, settled);
        }
      }
    }
  }

  lemma SettlesOne(st: State, wave: seq<Member>, continues: bool, o: Outcomes)
    requires |wave| == 1
    ensures Settle(st, wave, 0, continues, o).0 == SettleOne(st, wave[0].commandId, o)
  {
    hide SettleOne;
    assert Settle(SettleOne(st, wave[0].commandId, o), wave, 1, continues, o).0 == SettleOne(st, wave[0].commandId, o);
  }

  lemma FullRunInTurn(ms: seq<Member>, continues: bool, o: Outcomes)
    ensures InTurn(ms, FullRun(ms, true, continues, o).0.log)
  {
    assert Between(ms, Initial(ms)) by {
      forall m | m in ms ensures m.commandId in Initial(ms).pending {
        var k :| 0 <= k < |ms| && ms[k] == m;
        assert Ids(ms)[k] == m.commandId;
      }
    }
    RunInTurn(ms, continues, o, Initial(ms));
  }

  /** Between two starts of a sequential run the first member has succeeded or failed. */
  lemma SequentialStartsOneAtATime(ms: seq<Member>, continues: bool, o: Outcomes, i: nat, j: nat)
    requires Distinct(Ids(ms))
    requires var log := FullRun(ms, true, continues, o).0.log; i < j < |log| && log[i].Started? && log[j].Started?
    ensures var log := FullRun(ms, true, continues, o).0.log;
            Succeeded(log[i].id) in log[i..j] || Failed(log[i].id) in log[i..j]
  {
    hide FullRun, Distinct, InTurn, FirstInLine, Lawful, Dependencies, Ids, Agrees, Clear;
    var log, g := FullRun(ms, true, continues, o).0.log, Dependencies(ms);
    FullRunInTurn(ms, continues, o);
    InTurnAt(ms, log, j);
    RunIsLawful(ms, true, continues, o);
    var id := log[i].id;
    assert log[..j][i] == Started(id);
    var e := if Succeeded(id) in log[..j] then Succeeded(id) else Failed(id);
    var k :| 0 <= k < j && log[..j][k] == e;
    LawfulAt(g, continues, o, log, k);
    var s :| 0 <= s < k && log[..k][s] == Started(id);
    if s < i {
      StartedAtMostOnce(g, continues, o, log, s, i);
    } else if i < s {
      StartedAtMostOnce(g, continues, o, log, i, s);
    }
    assert log[i..j][k - i] == e;
  }

  /** A sequential run starts a member only when none listed before it could be started. */
  lemma SequentialStartsFirstInLine(ms: seq<Member>, continues: bool, o: Outcomes, j: nat, k: nat, m: Member)
    requires Distinct(Ids(ms))
    requires var log := FullRun(ms, true, continues, o).0.log; j < |log| && k < |ms| && log[j] == Started(ms[k].commandId)
    requires m in ms[..k]
    ensures var before := FullRun(ms, true, continues, o).0.log[..j];
            || Succeeded(m.commandId) in before || Failed(m.commandId) in before || Blocked(m.commandId) in before
            || exists d :: d in m.dependsOn && Succeeded(d) !in before
  {
    hide FullRun, Distinct, InTurn;
    var log := FullRun(ms, true, continues, o).0.log;
    FullRunInTurn(ms, continues, o);
    InTurnAt(ms, log, j);
    var p :| 0 <= p < |ms| && ms[p].commandId == ms[k].commandId && forall x :: x in ms[..p] ==> CannotStart(log[..j], x);
    assert Ids(ms)[p] == Ids(ms)[k];
    if p < k {
      DistinctAt(Ids(ms), p, k);
    } else if k < p {
      DistinctAt(Ids(ms), k, p);
    }
  }

  // Within a wave

  /** a stands before b in the list. */
  ghost predicate Earlier(ms: seq<Member>, a: string, b: string) {
    exists p, q :: 0 <= p < q < |ms| && ms[p].commandId == a && ms[q].commandId == b
  }

  ghost predicate OrderedWave(ms: seq<Member>, wave: seq<Member>) {
    |wave| > 1 ==>
      OrderedWave(ms, wave[..|wave| - 1]) && Earlier(ms, wave[|wave| - 2].commandId, wave[|wave| - 1].commandId)
  }

  /** Starts next to each other come in list order. */
  ghost predicate OrderedStarts(ms: seq<Member>, log: seq<Event>) {
    |log| > 1 ==>
      var before, e := log[|log| - 2], log[|log| - 1];
      && OrderedStarts(ms, log[..|log| - 1])
      && (before.Started? && e.Started? ==> Earlier(ms, before.id, e.id))
  }

  predicate EndsInStart(log: seq<Event>) {
    log != [] && log[|log| - 1].Started?
  }

  lemma OrderedStartsGrow(ms: seq<Member>, log: seq<Event>, e: Event)
    requires OrderedStarts(ms, log)
    requires EndsInStart(log) && e.Started? ==> Earlier(ms, log[|log| - 1].id, e.id)
    ensures OrderedStarts(ms, log + [e])
  {
    hide Earlier;
    assert (log + [e])[..|log|] == log;
  }

  lemma {:induction false} OrderedStartsAt(ms: seq<Member>, log: seq<Event>, i: nat)
    requires OrderedStarts(ms, log) && i + 1 < |log| && log[i].Started? && log[i + 1].Started?
    ensures Earlier(ms, log[i].id, log[i + 1].id)
  {
    hide Earlier;
    if i + 2 < |log| {
      OrderedStartsAt(ms, log[..|log| - 1], i);
    }
  }

  lemma {:induction false} ScanOrders(ms: seq<Member>, i: nat, sequential: bool, st: State, eligible: seq<Member>)
    requires i <= |ms| && OrderedWave(ms, eligible) && OrderedStarts(ms, st.log) && !EndsInStart(st.log)
    requires eligible != [] ==> exists p :: 0 <= p < i && ms[p].commandId == eligible[|eligible| - 1].commandId
    ensures var (r, wave) := Scan(ms, i, sequential, st, eligible);
            OrderedWave(ms, wave) && OrderedStarts(ms, r.log) && !EndsInStart(r.log)
    decreases |ms| - i
  {
    hide OrderedStarts, IsBlocked, IsReady;
    if i < |ms| {
      OrderedStartsGrow(ms, st.log, Blocked(ms[i].commandId));
      if ms[i].commandId !in st.pending || IsBlocked(ms[i], st.failed) || !IsReady(ms[i], st.succeeded) {
        var next := if ms[i].commandId in st.pending && IsBlocked(ms[i], st.failed) then Block(st, ms[i].commandId) else st;
        ScanOrders(ms, i + 1, sequential, next, eligible);
      } else {
        WaveTakes(ms, i, eligible);
        assert (eligible + [ms[i]])[|eligible|] == ms[i];
        if !sequential {
          ScanOrders(ms, i + 1, sequential, st, eligible + [ms[i]]);
        }
      }
    }
  }

  lemma WaveTakes(ms: seq<Member>, i: nat, eligible: seq<Member>)
    requires i < |ms| && OrderedWave(ms, eligible)
    requires eligible != [] ==> exists p :: 0 <= p < i && ms[p].commandId == eligible[|eligible| - 1].commandId
    ensures OrderedWave(ms, eligible + [ms[i]])
  {
    assert (eligible + [ms[i]])[..|eligible|] == eligible;
  }

  lemma {:induction false} StartAllOrders(ms: seq<Member>, st: State, wave: seq<Member>)
    requires OrderedWave(ms, wave) && OrderedStarts(ms, st.log) && !EndsInStart(st.log)
    ensures var log := StartAll(st, wave).log;
            && OrderedStarts(ms, log)
            && (wave == [] ==> log == st.log)
            && (wave != [] ==> log != [] && log[|log| - 1] == Started(wave[|wave| - 1].commandId))
  {
    hide Earlier, OrderedStarts;
    if wave != [] {
      var before := wave[..|wave| - 1];
      StartAllOrders(ms, st, before);
      OrderedStartsGrow(ms, StartAll(st, before).log, Started(wave[|wave| - 1].commandId));
    }
  }

  lemma {:induction false} SettleOrders(ms: seq<Member>, st: State, wave: seq<Member>, i: nat, continues: bool, o: Outcomes)
    requires i <= |wave| && OrderedStarts(ms, st.log)
    ensures var log := Settle(st, wave, i, continues, o).0.log;
            OrderedStarts(ms, log) && (i < |wave| || !EndsInStart(st.log) ==> !EndsInStart(log))
    decreases |wave| - i
  {
    hide OrderedStarts, Succeeds;
    if i < |wave| {
      var id := wave[i].commandId;
      OrderedStartsGrow(ms, st.log, if Succeeds(o, id) then Succeeded(id) else Failed(id));
      if Succeeds(o, id) || continues {
        SettleOrders(ms, SettleOne(st, id, o), wave, i + 1, continues, o);
      }
    }
  }

  lemma {:induction false} RunOrders(ms: seq<Member>, sequential: bool, continues: bool, o: Outcomes, st: State)
    requires OrderedStarts(ms, st.log) && !EndsInStart(st.log)
    ensures OrderedStarts(ms, Run(ms, sequential, continues, o, st).0.log)
    decreases st.pending
  {
    hide OrderedStarts, EndsInStart, OrderedWave, Scan, StartAll, Settle;
    if st.pending != {} {
      NoWave(ms);
      ScanOrders(ms, 0, sequential, st, []);
      var (scanned, wave) := Scan(ms, 0, sequential, st, []);
      if wave != [] {
        StartAllOrders(ms, scanned, wave);
        SettleOrders(ms, StartAll(scanned, wave), wave, 0, continues, o);
        StartAllKeepsPending(scanned, wave);
        var (settled, stop) := Settle(StartAll(scanned, wave), wave, 0, continues, o);
        assert wave[0] in wave && wave[0].commandId in st.pending && wave[0].commandId !in settled.pending;
        if stop.None? {
          RunOrders(ms, sequential, continues, o, settled);
        }
      }
    }
  }

  lemma NoWave(ms: seq<Member>)
    ensures OrderedWave(ms, []) && OrderedStarts(ms, []) && !EndsInStart([])
  {
  }

  /** Whatever the strategy, members that start one right after the other start in list order. */
  lemma WavesInListOrder(ms: seq<Member>, sequential: bool, continues: bool, o: Outcomes, i: nat)
    requires var log := FullRun(ms, sequential, continues, o).0.log; i + 1 < |log| && log[i].Started? && log[i + 1].Started?
    ensures var log := FullRun(ms, sequential, continues, o).0.log;
            exists p, q :: 0 <= p < q < |ms| && ms[p].commandId == log[i].id && ms[q].commandId == log[i + 1].id
  {
    hide OrderedStarts;
    NoWave(ms);
    RunOrders(ms, sequential, continues, o, Initial(ms));
    OrderedStartsAt(ms, FullRun(ms, sequential, continues, o).0.log, i);
  }
}
