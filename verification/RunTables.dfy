/**
 The stored Runs and the in-memory maps of the runtime, and the sections that change
 them. Each section runs under one lock or as one statement of the store, so it is
 atomic; how sections interleave is the subject of RunLifecycle.
 */
module RunTables {

  datatype Status = Starting | Running | Stopping | Completed | Failed | Stopped | Killed | Unknown

  datatype Readiness = ReadinessUnknown | Waiting | Ready

  /** launched says that a process group id is stored; telemetry and evidence stand for their columns. */
  datatype Run = Run(command: string, status: Status, launched: bool, readiness: Readiness, telemetry: int, evidence: int) {
    predicate Active() {
      status == Starting || status == Running || status == Stopping
    }
  }

  datatype Tables = Tables(runs: map<string, Run>, cmds: set<string>, stopping: set<string>, forceKilled: set<string>)

  /** The flags of a run are dropped once it is over. */
  function Forget(t: Tables, id: string): Tables {
    t.(cmds := t.cmds - {id}, stopping := t.stopping - {id}, forceKilled := t.forceKilled - {id})
  }

  predicate SignalsGroup(t: Tables, id: string, alive: bool) {
    id in t.runs && t.runs[id].Active() && t.runs[id].launched && alive
  }

  function StopSection(t: Tables, id: string, alive: bool): Tables {
    if id !in t.runs || !t.runs[id].Active() then t
    else if SignalsGroup(t, id, alive) then
      t.(runs := t.runs[id := t.runs[id].(status := Stopping)], stopping := t.stopping + {id})
    else
      Forget(t.(runs := t.runs[id := t.runs[id].(status := Stopped, readiness := ReadinessUnknown)]), id)
  }

  function ExitStatus(t: Tables, id: string, waitFailed: bool, code: int): Status {
    if id in t.stopping then (if id in t.forceKilled then Killed else Stopped)
    else if waitFailed || code != 0 then Failed
    else Completed
  }

  function ExitSection(t: Tables, id: string, waitFailed: bool, code: int): Tables {
    if id !in t.runs then Forget(t, id)
    else
      Forget(t.(runs := t.runs[id := t.runs[id].(status := ExitStatus(t, id, waitFailed, code),
                                                 readiness := ReadinessUnknown)]), id)
  }

  function ObservationWrite(t: Tables, id: string, readiness: Readiness, telemetry: int): Tables {
    if id !in t.runs then t
    else t.(runs := t.runs[id := t.runs[id].(readiness := readiness, telemetry := telemetry)])
  }

  function EvidenceWrite(t: Tables, id: string, evidence: int): Tables {
    if id !in t.runs then t
    else t.(runs := t.runs[id := t.runs[id].(readiness := ReadinessUnknown, evidence := evidence)])
  }

  /** Between two moments nothing but the run with this id may have changed. */
  ghost predicate OnlyTouches(before: Tables, after: Tables, id: string) {
    && before.runs.Keys == after.runs.Keys
    && (forall x :: x in before.runs && x != id ==> after.runs[x] == before.runs[x])
    && before.cmds - {id} == after.cmds - {id}
    && before.stopping - {id} == after.stopping - {id}
    && before.forceKilled - {id} == after.forceKilled - {id}
  }

  function ActiveRuns(t: Tables, command: string): set<string> {
    set id | id in t.runs && t.runs[id].command == command && t.runs[id].Active()
  }

  /** What a new Runtime makes of a run that an old one left active; known says whether its process is still there. */
  function ReconciledRun(r: Run, known: bool): Run {
    if !r.Active() then r else r.(status := if known then Unknown else Failed, readiness := ReadinessUnknown)
  }

  /** Only the most recent rows are looked at. */
  function Reconciled(runs: map<string, Run>, recent: set<string>, known: set<string>): map<string, Run> {
    map id | id in runs :: if id in recent then ReconciledRun(runs[id], id in known) else runs[id]
  }

  /** The runtime's fields, changed in place by the locked sections. */
  class Manager {
    var runs: map<string, Run>
    var cmds: set<string>
    var stopping: set<string>
    var forceKilled: set<string>

    function View(): Tables
      reads this
    {
      Tables(runs, cmds, stopping, forceKilled)
    }

    constructor ()
      ensures View() == Tables(map[], {}, {}, {})
    {
      runs, cmds, stopping, forceKilled := map[], {}, {}, {};
    }

    /** alive is the answer the operating system gives about the process group. */
    method Stop(id: string, alive: bool) returns (signalled: bool)
      modifies this
      ensures View() == StopSection(old(View()), id, alive)
      ensures signalled <==> id in old(runs) && old(runs)[id].Active() && old(runs)[id].launched && alive
      ensures OnlyTouches(old(View()), View(), id)
      ensures signalled ==> runs[id] == old(runs)[id].(status := Stopping) && id in stopping
      ensures !signalled && id in old(runs) && old(runs)[id].Active() ==>
                && runs[id] == old(runs)[id].(status := Stopped, readiness := ReadinessUnknown)
                && id !in cmds && id !in stopping && id !in forceKilled
      ensures id in old(runs) && !old(runs)[id].Active() ==> View() == old(View())
    {
      if id !in runs {
        return false;
      }
      var r := runs[id];
      if !r.Active() {
        return false;
      }
      if !r.launched || !alive {
        runs := runs[id := r.(status := Stopped, readiness := ReadinessUnknown)];
        stopping := stopping - {id};
        forceKilled := forceKilled - {id};
        cmds := cmds - {id};
        return false;
      }
      stopping := stopping + {id};
      runs := runs[id := r.(status := Stopping)];
      return true;
    }

    method RecordForceKill(id: string)
      modifies this
      ensures View() == old(View()).(forceKilled := old(forceKilled) + {id})
    {
      forceKilled := forceKilled + {id};
    }

    method Exited(id: string, waitFailed: bool, code: int)
      modifies this
      ensures View() == ExitSection(old(View()), id, waitFailed, code)
      ensures OnlyTouches(old(View()), View(), id) && id !in cmds && id !in stopping && id !in forceKilled
      ensures id in old(runs) ==>
                runs[id].readiness == ReadinessUnknown && runs[id] == old(runs)[id].(status := runs[id].status, readiness := ReadinessUnknown)
      ensures id in old(runs) && id !in old(stopping) ==> (runs[id].status == Completed <==> !waitFailed && code == 0)
      ensures id in old(runs) && id !in old(stopping) ==> (runs[id].status == Failed <==> waitFailed || code != 0)
      ensures id in old(runs) && id in old(stopping) ==> (runs[id].status == Stopped <==> id !in old(forceKilled))
      ensures id in old(runs) && id in old(stopping) ==> (runs[id].status == Killed <==> id in old(forceKilled))
    {
      if id !in runs {
        stopping := stopping - {id};
        forceKilled := forceKilled - {id};
        cmds := cmds - {id};
        return;
      }
      var r := runs[id];
      var wasStopping := id in stopping;
      var wasForced := id in forceKilled;
      stopping := stopping - {id};
      forceKilled := forceKilled - {id};
      cmds := cmds - {id};
      if wasStopping {
        if wasForced {
          r := r.(status := Killed);
        } else {
          r := r.(status := Stopped);
        }
      } else if waitFailed || code != 0 {
        r := r.(status := Failed);
      } else {
        r := r.(status := Completed);
      }
      r := r.(readiness := ReadinessUnknown);
      runs := runs[id := r];
    }

    method UpdateRunObservation(id: string, readiness: Readiness, telemetry: int)
      modifies this
      ensures View() == ObservationWrite(old(View()), id, readiness, telemetry)
      ensures OnlyTouches(old(View()), View(), id) && cmds == old(cmds) && stopping == old(stopping) && forceKilled == old(forceKilled)
      ensures id in old(runs) ==> runs[id] == Run(old(runs)[id].command, old(runs)[id].status, old(runs)[id].launched, readiness, telemetry, old(runs)[id].evidence)
    {
      if id in runs {
        runs := runs[id := runs[id].(readiness := readiness, telemetry := telemetry)];
      }
    }

    method UpdateRunPortVerifications(id: string, evidence: int)
      modifies this
      ensures View() == EvidenceWrite(old(View()), id, evidence)
      ensures OnlyTouches(old(View()), View(), id) && cmds == old(cmds) && stopping == old(stopping) && forceKilled == old(forceKilled)
      ensures id in old(runs) ==> runs[id] == Run(old(runs)[id].command, old(runs)[id].status, old(runs)[id].launched, ReadinessUnknown, old(runs)[id].telemetry, evidence)
    {
      if id in runs {
        runs := runs[id := runs[id].(evidence := evidence, readiness := ReadinessUnknown)];
      }
    }

    method SaveRun(id: string, r: Run)
      modifies this
      ensures View() == old(View()).(runs := old(runs)[id := r])
    {
      runs := runs[id := r];
    }

    method Register(id: string)
      modifies this
      ensures View() == old(View()).(cmds := old(cmds) + {id})
    {
      cmds := cmds + {id};
    }

    /** One start that nothing interrupts: two rows, and the registration between the process and its supervisor. */
    method Start(id: string, command: string, spawned: bool)
      modifies this
      ensures spawned ==>
                View() == old(View()).(runs := old(runs)[id := Run(command, Running, true, ReadinessUnknown, 0, 0)], cmds := old(cmds) + {id})
      ensures !spawned ==>
                View() == old(View()).(runs := old(runs)[id := Run(command, Failed, false, ReadinessUnknown, 0, 0)])
    {
      var r := Run(command, Starting, false, ReadinessUnknown, 0, 0);
      SaveRun(id, r);
      if !spawned {
        SaveRun(id, r.(status := Failed));
        return;
      }
      r := r.(status := Running, launched := true);
      SaveRun(id, r);
      Register(id);
    }

    method Reconcile(recent: set<string>, known: set<string>)
      requires recent <= runs.Keys
      modifies this`runs
      ensures runs == Reconciled(old(runs), recent, known)
      ensures runs.Keys == old(runs).Keys
      ensures forall id :: id in runs && (id !in recent || !old(runs)[id].Active()) ==> runs[id] == old(runs)[id]
      ensures forall id :: id in recent && old(runs)[id].Active() ==>
                runs[id].status == (if id in known then Unknown else Failed) && runs[id].readiness == ReadinessUnknown
    {
      var rest := recent;
      while rest != {}
        invariant rest <= recent <= runs.Keys == old(runs).Keys
        invariant forall id :: id in runs ==>
                    runs[id] == if id in recent && id !in rest then ReconciledRun(old(runs)[id], id in known) else old(runs)[id]
        decreases rest
      {
        var id :| id in rest;
        rest := rest - {id};
        var r := runs[id];
        if !r.Active() {
          continue;
        }
        if id in known {
          r := r.(status := Unknown);
        } else {
          r := r.(status := Failed);
        }
        r := r.(readiness := ReadinessUnknown);
        runs := runs[id := r];
      }
      assert runs == Reconciled(old(runs), recent, known);
    }

    method ActiveRunsForCommand(command: string) returns (ids: set<string>)
      ensures ids == ActiveRuns(View(), command)
      ensures forall id :: id in ids <==>
                && id in runs && runs[id].command == command
                && (runs[id].status == Starting || runs[id].status == Running || runs[id].status == Stopping)
    {
      ids := {};
      var rest := runs.Keys;
      while rest != {}
        invariant rest <= runs.Keys
        invariant ids == set id | id in runs.Keys - rest && runs[id].command == command && runs[id].Active()
        decreases rest
      {
        var id :| id in rest;
        rest := rest - {id};
        if runs[id].command == command && runs[id].Active() {
          ids := ids + {id};
        }
      }
    }
  }
}
