/**
 The wave scheduler that starts the selected members of a stack. How each start
 and each wait turns out is an input, so every statement holds for all outcomes.
 */
module Scheduler {
  import opened Digraph
  import opened Results
  import opened StackMembers

  datatype StartError = NoError | AlreadyRunning | StartFailed

  /** What starting a member yields (a Run, an error), and whether its wait condition is met. */
  datatype Outcomes = Outcomes(hasRun: string -> bool, startError: string -> StartError, waitMet: string -> bool)

  predicate Succeeds(o: Outcomes, id: string) {
    && o.startError(id) != StartFailed
    && (o.hasRun(id) ==> o.waitMet(id))
  }

  datatype Event = Started(id: string) | Succeeded(id: string) | Failed(id: string) | Blocked(id: string)

  datatype Ending = Done | Incomplete | MemberFailed(id: string)

  datatype State = State(pending: set<string>, succeeded: set<string>, failed: set<string>, log: seq<Event>)

  function Initial(ms: seq<Member>): State {
    State(Elements(Ids(ms)), {}, {}, [])
  }

  predicate IsBlocked(m: Member, failed: set<string>) {
    exists d :: d in m.dependsOn && d in failed
  }

  predicate IsReady(m: Member, succeeded: set<string>) {
    forall d :: d in m.dependsOn ==> d in succeeded
  }

  function Block(st: State, id: string): State {
    State(st.pending - {id}, st.succeeded, st.failed + {id}, st.log + [Blocked(id)])
  }

  /** One pass over the list from position i on: blocked members fail, ready ones become eligible. */
  function Scan(ms: seq<Member>, i: nat, sequential: bool, st: State, eligible: seq<Member>): (r: (State, seq<Member>))
    requires i <= |ms|
    ensures r.0.pending <= st.pending
    ensures forall m :: m in r.1 ==> m in eligible || m.commandId in st.pending
    decreases |ms| - i
  {
    if i == |ms| then (st, eligible)
    else if ms[i].commandId !in st.pending then Scan(ms, i + 1, sequential, st, eligible)
    else if IsBlocked(ms[i], st.failed) then Scan(ms, i + 1, sequential, Block(st, ms[i].commandId), eligible)
    else if !IsReady(ms[i], st.succeeded) then Scan(ms, i + 1, sequential, st, eligible)
    else if sequential then (st, eligible + [ms[i]])
    else Scan(ms, i + 1, sequential, st, eligible + [ms[i]])
  }

  function StartAll(st: State, wave: seq<Member>): State {
    if wave == [] then st
    else
      var before := StartAll(st, wave[..|wave| - 1]);
      before.(log := before.log + [Started(wave[|wave| - 1].commandId)])
  }

  function SettleOne(st: State, id: string, o: Outcomes): State {
    if Succeeds(o, id)
    then State(st.pending - {id}, st.succeeded + {id}, st.failed, st.log + [Succeeded(id)])
    else State(st.pending - {id}, st.succeeded, st.failed + {id}, st.log + [Failed(id)])
  }

  /** Books the results of a wave from position i on; gives the member that ends the whole start, if any. */
  function Settle(st: State, wave: seq<Member>, i: nat, continues: bool, o: Outcomes): (r: (State, Option<string>))
    requires i <= |wave|
    ensures r.0.pending <= st.pending
    ensures i < |wave| ==> wave[i].commandId !in r.0.pending
    decreases |wave| - i
  {
    if i == |wave| then (st, None)
    else
      var id := wave[i].commandId;
      var next := SettleOne(st, id, o);
      if !Succeeds(o, id) && !continues then (next, Some(id)) else Settle(next, wave, i + 1, continues, o)
  }

  /** The whole start, wave after wave. */
  function Run(ms: seq<Member>, sequential: bool, continues: bool, o: Outcomes, st: State): (State, Ending)
    decreases st.pending
  {
    if st.pending == {} then (st, Done)
    else
      var (scanned, wave) := Scan(ms, 0, sequential, st, []);
      if wave == [] then (scanned, if scanned.pending == {} then Done else Incomplete)
      else
        var (settled, stop) := Settle(StartAll(scanned, wave), wave, 0, continues, o);
        assert settled.pending < st.pending by {
          StartAllKeepsPending(scanned, wave);
          assert wave[0] in wave && wave[0].commandId in st.pending && wave[0].commandId !in settled.pending;
        }
        match stop
        case Some(id) => (settled, MemberFailed(id))
        case None => Run(ms, sequential, continues, o, settled)
  }

  lemma {:induction false} StartAllKeepsPending(st: State, wave: seq<Member>)
    ensures StartAll(st, wave).pending == st.pending
    ensures StartAll(st, wave).succeeded == st.succeeded && StartAll(st, wave).failed == st.failed
  {
    if wave != [] {
      StartAllKeepsPending(st, wave[..|wave| - 1]);
    }
  }

  // The loop as the program runs it

  method Examine(m: Member, succeeded: set<string>, failed: set<string>) returns (blocked: bool, ready: bool)
    ensures blocked <==> IsBlocked(m, failed)
    ensures !blocked ==> (ready <==> IsReady(m, succeeded))
  {
    blocked, ready := false, true;
    for i := 0 to |m.dependsOn|
      invariant !blocked
      invariant forall j :: 0 <= j < i ==> m.dependsOn[j] !in failed
      invariant ready <==> forall j :: 0 <= j < i ==> m.dependsOn[j] in succeeded
    {
      if m.dependsOn[i] in failed {
        blocked := true;
        return;
      }
      if m.dependsOn[i] !in succeeded {
        ready := false;
      }
    }
  }

  class StackStart {
    const members: seq<Member>
    const strategy: string
    const failurePolicy: string
    const outcomes: Outcomes
    var pending: set<string>
    var succeeded: set<string>
    var failed: set<string>
    var log: seq<Event>

    function View(): State
      reads this
    {
      State(pending, succeeded, failed, log)
    }

    constructor (members: seq<Member>, strategy: string, failurePolicy: string, outcomes: Outcomes)
      ensures this.members == members && this.outcomes == outcomes
      ensures this.strategy == if strategy == "" then "parallel" else strategy
      ensures this.failurePolicy == if failurePolicy == "" then "continue" else failurePolicy
      ensures View() == Initial(members)
    {
      this.members, this.outcomes := members, outcomes;
      this.strategy := if strategy == "" then "parallel" else strategy;
      this.failurePolicy := if failurePolicy == "" then "continue" else failurePolicy;
      pending, succeeded, failed, log := Elements(Ids(members)), {}, {}, [];
    }

    method CollectEligible() returns (eligible: seq<Member>)
      modifies this
      ensures (View(), eligible) == Scan(members, 0, strategy == "sequential", old(View()), [])
    {
      hide IsBlocked, IsReady;
      eligible := [];
      for i := 0 to |members|
        invariant Scan(members, i, strategy == "sequential", View(), eligible)
               == Scan(members, 0, strategy == "sequential", old(View()), [])
      {
        var member := members[i];
        if member.commandId !in pending {
          continue;
        }
        var blocked, ready := Examine(member, succeeded, failed);
        if blocked {
          failed := failed + {member.commandId};
          pending := pending - {member.commandId};
          log := log + [Blocked(member.commandId)];
          continue;
        }
        if ready {
          eligible := eligible + [member];
          if strategy == "sequential" {
            return;
          }
        }
      }
    }

    method Launch(wave: seq<Member>) returns (errors: seq<bool>)
      modifies this
      ensures View() == StartAll(old(View()), wave)
      ensures |errors| == |wave| && forall i :: 0 <= i < |wave| ==> errors[i] == !Succeeds(outcomes, wave[i].commandId)
    {
      errors := [];
      for i := 0 to |wave|
        invariant View() == StartAll(old(View()), wave[..i])
        invariant |errors| == i && forall j :: 0 <= j < i ==> errors[j] == !Succeeds(outcomes, wave[j].commandId)
      {
        assert wave[..i + 1][..i] == wave[..i];
        var id := wave[i].commandId;
        log := log + [Started(id)];
        var startError := outcomes.startError(id);
        if startError == AlreadyRunning {
          startError := NoError;
        }
        var failure := startError != NoError;
        if !failure && outcomes.hasRun(id) {
          failure := !outcomes.waitMet(id);
        }
        errors := errors + [failure];
      }
      assert wave[..|wave|] == wave;
    }

    method Record(wave: seq<Member>, errors: seq<bool>) returns (stop: Option<string>)
      requires |errors| == |wave| && forall i :: 0 <= i < |wave| ==> errors[i] == !Succeeds(outcomes, wave[i].commandId)
      modifies this
      ensures (View(), stop) == Settle(old(View()), wave, 0, failurePolicy == "continue", outcomes)
    {
      hide Succeeds;
      for i := 0 to |wave|
        invariant Settle(View(), wave, i, failurePolicy == "continue", outcomes)
               == Settle(old(View()), wave, 0, failurePolicy == "continue", outcomes)
      {
        var id := wave[i].commandId;
        pending := pending - {id};
        if !errors[i] {
          succeeded := succeeded + {id};
          log := log + [Succeeded(id)];
          continue;
        }
        failed := failed + {id};
        log := log + [Failed(id)];
        if failurePolicy != "continue" {
          return Some(id);
        }
      }
      return None;
    }

    method StartMembers() returns (ending: Ending)
      modifies this
      ensures (View(), ending) == Run(members, strategy == "sequential", failurePolicy == "continue", outcomes, old(View()))
    {
      hide Scan, StartAll, Settle;
      while pending != {}
        invariant Run(members, strategy == "sequential", failurePolicy == "continue", outcomes, View())
               == Run(members, strategy == "sequential", failurePolicy == "continue", outcomes, old(View()))
        decreases pending
      {
        ghost var before := View();
        var eligible := CollectEligible();
        if eligible == [] {
          return if pending == {} then Done else Incomplete;
        }
        ghost var scanned := View();
        var errors := Launch(eligible);
        StartAllKeepsPending(scanned, eligible);
        var stop := Record(eligible, errors);
        assert eligible[0] in eligible;
        if stop.Some? {
          return MemberFailed(stop.value);
        }
      }
      return Done;
    }
  }
}
