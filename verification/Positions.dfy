/** What it means that one list is taken from another: by positions, in increasing order. */
module Positions {

  predicate Increasing(at: seq<nat>) {
    forall j, k :: 0 <= j < k < |at| ==> at[j] < at[k]
  }

  lemma IncreasingGrows(at: seq<nat>, n: nat)
    requires Increasing(at) && forall k :: 0 <= k < |at| ==> at[k] < n
    ensures Increasing(at + [n])
  {
  }

  /** out has the wanted elements of all, in their order. */
  ghost predicate SublistAt<T>(all: seq<T>, wanted: T -> bool, out: seq<T>, at: seq<nat>) {
    && |at| == |out| && Increasing(at)
    && (forall k :: 0 <= k < |at| ==> at[k] < |all| && wanted(all[at[k]]) && out[k] == all[at[k]])
    && forall i: nat :: i < |all| && wanted(all[i]) ==> i in at
  }

  ghost predicate Sublist<T>(all: seq<T>, wanted: T -> bool, out: seq<T>) {
    exists at: seq<nat> :: SublistAt(all, wanted, out, at)
  }

  lemma PickNothing<T>(wanted: T -> bool)
    ensures Sublist([], wanted, [])
  {
    assert SublistAt([], wanted, [], []);
  }

  lemma PickNext<T>(all: seq<T>, wanted: T -> bool, out: seq<T>, next: T)
    requires Sublist(all, wanted, out)
    ensures Sublist(all + [next], wanted, if wanted(next) then out + [next] else out)
  {
    var at: seq<nat> :| SublistAt(all, wanted, out, at);
    if wanted(next) {
      PickTakes(all, wanted, out, at, next);
    } else {
      PickSkips(all, wanted, out, at, next);
    }
  }

  lemma PickTakes<T>(all: seq<T>, wanted: T -> bool, out: seq<T>, at: seq<nat>, next: T)
    requires SublistAt(all, wanted, out, at) && wanted(next)
    ensures SublistAt(all + [next], wanted, out + [next], at + [|all|])
  {
    hide Increasing;
    var more, longer := all + [next], at + [|all|];
    IncreasingGrows(at, |all|);
    forall k | 0 <= k < |longer| ensures longer[k] < |more| && wanted(more[longer[k]]) && (out + [next])[k] == more[longer[k]] {
      if k < |at| {
        assert longer[k] == at[k] && more[at[k]] == all[at[k]];
      }
    }
    forall i: nat | i < |more| && wanted(more[i]) ensures i in longer {
      if i < |all| {
        assert more[i] == all[i] && i in at;
      } else {
        assert longer[|at|] == i;
      }
    }
  }

  lemma PickSkips<T>(all: seq<T>, wanted: T -> bool, out: seq<T>, at: seq<nat>, next: T)
    requires SublistAt(all, wanted, out, at) && !wanted(next)
    ensures SublistAt(all + [next], wanted, out, at)
  {
    hide Increasing;
    var more := all + [next];
    forall k | 0 <= k < |at| ensures more[at[k]] == all[at[k]] {
      assert at[k] < |all|;
    }
    forall i: nat | i < |more| && wanted(more[i]) ensures i in at {
      assert i < |all| && more[i] == all[i];
    }
  }

  /** out has each wanted element of all once, in the order of first occurrences. */
  ghost predicate FirstsAt<T>(all: seq<T>, wanted: T -> bool, out: seq<T>, at: seq<nat>) {
    && |at| == |out| && Increasing(at)
    && (forall k :: 0 <= k < |at| ==> at[k] < |all| && out[k] == all[at[k]] && wanted(out[k]) && out[k] !in all[..at[k]])
    && forall i :: 0 <= i < |all| && wanted(all[i]) ==> all[i] in out
  }

  ghost predicate Firsts<T>(all: seq<T>, wanted: T -> bool, out: seq<T>) {
    exists at: seq<nat> :: FirstsAt(all, wanted, out, at)
  }

  lemma NoFirsts<T>(wanted: T -> bool)
    ensures Firsts([], wanted, [])
  {
    assert FirstsAt([], wanted, [], []);
  }

  lemma NextFirst<T>(all: seq<T>, wanted: T -> bool, out: seq<T>, next: T)
    requires Firsts(all, wanted, out)
    ensures Firsts(all + [next], wanted, if wanted(next) && next !in out then out + [next] else out)
  {
    hide Increasing;
    var at: seq<nat> :| FirstsAt(all, wanted, out, at);
    var more := all + [next];
    forall k | 0 <= k < |at| ensures more[at[k]] == all[at[k]] && more[..at[k]] == all[..at[k]] {
      assert at[k] < |all|;
    }
    if wanted(next) && next !in out {
      IncreasingGrows(at, |all|);
      assert more[..|all|] == all && next !in all;
      assert FirstsAt(more, wanted, out + [next], at + [|all|]);
    } else {
      assert FirstsAt(more, wanted, out, at);
    }
  }
}
