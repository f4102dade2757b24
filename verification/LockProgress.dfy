/**
 That threads get their locks. A request waits, untouched by what other threads do, until it is
 granted; it is granted in the order of requests, but for readers among themselves; a lock held
 for writing is held alone; and once no thread asks for more, every request is granted and
 every lock released within a bound.
 */
module LockProgress {
  import opened Wrappers
  import opened LockOrder

  /** Nobody else holds a lock that is held for writing. */
  lemma WritersAreAlone(run: seq<State>, steps: seq<Step>, n: nat, t: nat, u: nat, lock: Lock)
    requires IsRun(run, steps) && n < |run| && HoldsFor(run[n], t, lock, true) && Holds(run[n], u, lock)
    ensures t == u
  {
    RunKeeps(run, steps, n);
  }

  /** A waiting thread does nothing: its wait and its locks stay as they are until its request is granted. */
  lemma WaitersStay(s: State, step: Step, t: nat)
    requires Enabled(s, step) && t in s.waiting && step != Grant(t)
    ensures var s' := Apply(s, step); t in s'.waiting && s'.waiting[t] == s.waiting[t] && Locks(s', t) == Locks(s, t)
  {}

  /** From the request in step `i` on, up to state `j`, thread `t` is not granted it. */
  ghost predicate Pending(steps: seq<Step>, i: nat, j: nat, t: nat, lock: Lock, write: bool) {
    i < j <= |steps| && steps[i] == Request(t, lock, write) && forall k :: i < k < j ==> steps[k] != Grant(t)
  }

  lemma {:induction false} PendingWaits(run: seq<State>, steps: seq<Step>, i: nat, j: nat, t: nat, lock: Lock, write: bool)
    requires IsRun(run, steps) && Pending(steps, i, j, t, lock, write)
    ensures t in run[j].waiting && run[j].waiting[t] == Wait(lock, write, run[i].tickets)
    ensures Locks(run[j], t) == Locks(run[i], t)
    decreases j
  {
    if j == i + 1 {
      assert run[j] == Apply(run[i], steps[i]);
    } else {
      PendingWaits(run, steps, i, j - 1, t, lock, write);
      WaitersStay(run[j - 1], steps[j - 1], t);
    }
  }

  /** A request waits until it is granted, and then the thread holds its lock in its mode, and all it held before. */
  lemma RequestsAreGranted(run: seq<State>, steps: seq<Step>, i: nat, j: nat, t: nat, lock: Lock, write: bool)
    requires IsRun(run, steps) && Pending(steps, i, j, t, lock, write)
    ensures t in run[j].waiting
    ensures j < |steps| && steps[j] == Grant(t) ==>
              t !in run[j + 1].waiting && Locks(run[j + 1], t) == Locks(run[i], t)[lock := write]
  {
    PendingWaits(run, steps, i, j, t, lock, write);
    if j < |steps| && steps[j] == Grant(t) {
      assert run[j + 1] == Apply(run[j], steps[j]);
    }
  }

  lemma {:induction false} TicketsGrow(run: seq<State>, steps: seq<Step>, i: nat, j: nat)
    requires IsRun(run, steps) && i < j < |run|
    ensures run[i].tickets + (if steps[i].Request? then 1 else 0) <= run[j].tickets
    decreases j
  {
    assert run[j] == Apply(run[j - 1], steps[j - 1]);
    if i < j - 1 {
      TicketsGrow(run, steps, i, j - 1);
    }
  }

  /** Of two requests for a lock the later is not granted while the earlier waits, unless both are for reading. */
  lemma GrantedInOrder(
    run: seq<State>, steps: seq<Step>, i: nat, k: nat, j: nat, t: nat, u: nat, lock: Lock, first: bool, second: bool)
    requires IsRun(run, steps) && i < k && j < |steps|
    requires Pending(steps, i, j, t, lock, first) && Pending(steps, k, j, u, lock, second) && steps[j] == Grant(u)
    ensures t == u || (!first && !second)
  {
    PendingWaits(run, steps, i, j, t, lock, first);
    PendingWaits(run, steps, k, j, u, lock, second);
    TicketsGrow(run, steps, i, k);
    assert Enabled(run[j], steps[j]);
    assert !Blocks(run[j], t, u);
  }

  // ----- everything asked for is granted, and everything held is released ---------------------------------

  /** The locks held, each with its holder. */
  ghost function HeldLocks(s: State): set<(nat, Lock)> {
    set t, lock | t in s.held && lock in s.held[t] :: (t, lock)
  }

  /** A request has still to be granted and released, a lock that is held only to be released. */
  ghost function Work(s: State): nat {
    2 * |s.waiting| + |HeldLocks(s)|
  }

  lemma HeldAfterGrant(s: State, t: nat)
    requires Enabled(s, Grant(t))
    ensures HeldLocks(Apply(s, Grant(t))) == HeldLocks(s) + {(t, s.waiting[t].lock)}
  {
    var s', lock := Apply(s, Grant(t)), s.waiting[t].lock;
    assert s'.held[t] == Locks(s, t)[lock := s.waiting[t].write];
    forall u, l ensures (u, l) in HeldLocks(s') <==> (u, l) in HeldLocks(s) || (u, l) == (t, lock) {
      assert u != t ==> (u in s'.held <==> u in s.held);
      assert (u, l) in HeldLocks(s) <==> l in Locks(s, u);
    }
  }

  lemma FewerWait(waiting: map<nat, Wait>, t: nat)
    requires t in waiting
    ensures |waiting - {t}| == |waiting| - 1
  {
    assert (waiting - {t}).Keys == waiting.Keys - {t};
    assert |(waiting - {t}).Keys| == |waiting - {t}| && |waiting.Keys| == |waiting|;
  }

  lemma OneMore<T>(s: set<T>, x: T)
    ensures |s + {x}| <= |s| + 1
  {
    assert s + {x} == s || |s + {x}| == |s| + 1;
  }

  lemma GrantUsesUpWork(s: State, t: nat)
    requires Enabled(s, Grant(t))
    ensures Work(Apply(s, Grant(t))) < Work(s)
  {
    HeldAfterGrant(s, t);
    FewerWait(s.waiting, t);
    OneMore(HeldLocks(s), (t, s.waiting[t].lock));
  }

  lemma ReleaseUsesUpWork(s: State, t: nat, lock: Lock)
    requires Enabled(s, Release(t, lock))
    ensures Work(Apply(s, Release(t, lock))) < Work(s)
  {
    var s' := Apply(s, Release(t, lock));
    assert (t, lock) in HeldLocks(s);
    assert HeldLocks(s') == HeldLocks(s) - {(t, lock)};
  }

  /** Without further requests, a run goes on for no longer than the work there is. */
  lemma {:induction false} RequestsEnd(run: seq<State>, steps: seq<Step>, i: nat, j: nat)
    requires IsRun(run, steps) && i <= j < |run| && forall k :: i <= k < j ==> !steps[k].Request?
    ensures j - i + Work(run[j]) <= Work(run[i])
    decreases j
  {
    if i < j {
      RequestsEnd(run, steps, i, j - 1);
      assert Enabled(run[j - 1], steps[j - 1]);
      match steps[j - 1]
      case Grant(t) => GrantUsesUpWork(run[j - 1], t);
      case Release(t, lock) => ReleaseUsesUpWork(run[j - 1], t, lock);
    }
  }

  /** And it only ends when nobody waits and nobody holds a lock: until then a request can be granted, or a running thread release. */
  lemma WorkCanBeDone(run: seq<State>, steps: seq<Step>, n: nat)
    requires IsRun(run, steps) && n < |run| && Work(run[n]) > 0
    ensures exists step :: Enabled(run[n], step) && !step.Request?
  {
    var s := run[n];
    if s.waiting == map[] {
      var p :| p in HeldLocks(s);
      assert Enabled(s, Release(p.0, p.1));
    } else {
      SomeoneCanMove(run, steps, n);
      var t :| t in s.waiting && forall u :: Blocks(s, u, t) ==> u !in s.waiting;
      if u :| Blocks(s, u, t) {
        assert Enabled(s, Release(u, s.waiting[t].lock));
      } else {
        assert Enabled(s, Grant(t));
      }
    }
  }
}
