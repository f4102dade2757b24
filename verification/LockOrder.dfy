/**
 Deadlock freedom of the process-wide locks. Threads take locks nested only as a table of
 outer and inner lock classes allows; the locks are reader-writer locks with a queue, so a
 thread can be held up by a holder, or by a thread queued ahead of it. Whatever the
 threads do, no set of them can be waiting on each other in a circle, and as long as
 anyone waits, someone can move.
 */
module LockOrder {
  import opened Wrappers

  datatype Class =
    | Names | NodeMonitors | Nodes | DialRoutes | PendingDials | ProgramDials | LatestSlots
    | Monitors | PendingRemote | LinkTable | RemoteLinks | Timers
    | Registry | MailboxState | RunQueue | SocketOwner | OutputBudget
    // the system monitors' table, and the lock code is promoted under
    | SysMonitors | CodeRegion

  /** One lock: a class may have many (the registry's shards, each process's mailbox). */
  datatype Lock = Lock(class_: Class, instance: nat)

  /** The nestings the table of process-wide locks lists. */
  predicate Documented(outer: Class, inner: Class) {
    match outer
    case Names => inner.Registry?
    case Monitors => inner.Registry? || inner.MailboxState? || inner.RunQueue?
    case LinkTable => inner.Registry? || inner.MailboxState? || inner.RunQueue?
    case PendingRemote => inner.MailboxState? || inner.RunQueue?
    case Timers => inner.Registry?
    case NodeMonitors => inner.Nodes?
    case Nodes => inner.DialRoutes?
    case SocketOwner => inner.MailboxState?
    case MailboxState => inner.OutputBudget?
    case _ => false
  }

  /**
   A nesting the code takes and the table does not list. Recording a cross-node link checks
   that its process lives; delivering a remote monitor's message looks its mailbox up; a named
   spawn promotes its code, tells the system monitors, and queues its process.
   */
  predicate Unlisted(outer: Class, inner: Class) {
    match outer
    case RemoteLinks => inner.Registry?
    case PendingRemote => inner.Registry?
    case Names => inner.CodeRegion? || inner.SysMonitors? || inner.MailboxState? || inner.RunQueue?
    case _ => false
  }

  predicate Nests(outer: Class, inner: Class) {
    Documented(outer, inner) || Unlisted(outer, inner)
  }

  /** How deep in the order a class lies. */
  function Rank(c: Class): nat {
    match c
    case NodeMonitors => 0
    case Nodes => 1
    case DialRoutes => 2
    case Registry => 3
    case MailboxState => 4
    case OutputBudget => 5
    case RunQueue => 5
    case SysMonitors => 3
    case CodeRegion => 3
    case _ => 0
  }

  /** Every nesting goes strictly inwards, so none can be closed into a circle. */
  lemma NestingGoesInwards(outer: Class, inner: Class)
    requires Nests(outer, inner)
    ensures Rank(outer) < Rank(inner)
  {}

  // ----- threads and locks ------------------------------------------------------------------

  /** What a thread waits for; `ticket` is its place in the lock's queue. */
  datatype Wait = Wait(lock: Lock, write: bool, ticket: nat)

  datatype State = State(
    held: map<nat, map<Lock, bool>>,   // thread -> the locks it holds, and whether for writing
    waiting: map<nat, Wait>,
    tickets: nat)

  datatype Step =
    | Request(thread: nat, lock: Lock, write: bool)
    | Grant(thread: nat)
    | Release(thread: nat, lock: Lock)

  predicate Holds(s: State, t: nat, lock: Lock) {
    t in s.held && lock in s.held[t]
  }

  predicate HoldsFor(s: State, t: nat, lock: Lock, write: bool) {
    Holds(s, t, lock) && s.held[t][lock] == write
  }

  /** `u` must act before `t` can be granted its lock: it holds it, or is queued ahead, in conflict. */
  predicate Blocks(s: State, u: nat, t: nat) {
    && t in s.waiting && u != t
    && var w := s.waiting[t];
       || (Holds(s, u, w.lock) && (w.write || s.held[u][w.lock]))
       || (&& u in s.waiting && s.waiting[u].lock == w.lock && s.waiting[u].ticket < w.ticket
           && (w.write || s.waiting[u].write))
  }

  function Locks(s: State, t: nat): map<Lock, bool> {
    if t in s.held then s.held[t] else map[]
  }

  ghost predicate Enabled(s: State, step: Step) {
    match step
    case Request(t, lock, _) =>
      && t !in s.waiting
      && forall h :: h in Locks(s, t) ==> Nests(h.class_, lock.class_)
    case Grant(t) => t in s.waiting && forall u :: !Blocks(s, u, t)
    case Release(t, lock) => t !in s.waiting && Holds(s, t, lock)
  }

  ghost function Apply(s: State, step: Step): State
    requires Enabled(s, step)
  {
    match step
    case Request(t, lock, write) =>
      s.(waiting := s.waiting[t := Wait(lock, write, s.tickets)], tickets := s.tickets + 1)
    case Grant(t) =>
      var w := s.waiting[t];
      s.(waiting := s.waiting - {t}, held := s.held[t := Locks(s, t)[w.lock := w.write]])
    case Release(t, lock) => s.(held := s.held[t := s.held[t] - {lock}])
  }

  ghost predicate IsRun(run: seq<State>, steps: seq<Step>) {
    && |run| == |steps| + 1
    && run[0] == State(map[], map[], 0)
    && forall i :: 0 <= i < |steps| ==> Enabled(run[i], steps[i]) && run[i + 1] == Apply(run[i], steps[i])
  }

  /** A waiting thread's locks all nest around the one it waits for. */
  ghost predicate Ordered(s: State) {
    && (forall t, h :: t in s.waiting && Holds(s, t, h) ==> Nests(h.class_, s.waiting[t].lock.class_))
    && (forall t :: t in s.waiting ==> s.waiting[t].ticket < s.tickets)
  }

  /** A lock held for writing is held by no one else. */
  ghost predicate Exclusive(s: State) {
    forall t, u, lock :: HoldsFor(s, t, lock, true) && Holds(s, u, lock) ==> t == u
  }

  lemma OrderedKept(s: State, step: Step)
    requires Ordered(s) && Enabled(s, step)
    ensures Ordered(Apply(s, step))
  {}

  lemma ExclusiveKept(s: State, step: Step)
    requires Exclusive(s) && Enabled(s, step)
    ensures Exclusive(Apply(s, step))
  {
    var s' := Apply(s, step);
    forall t, u, lock | HoldsFor(s', t, lock, true) && Holds(s', u, lock) ensures t == u {
      if step.Grant? && lock == s.waiting[step.thread].lock {
        assert !Blocks(s, t, step.thread) && !Blocks(s, u, step.thread);
        assert t != step.thread && u != step.thread ==> HoldsFor(s, t, lock, true) && Holds(s, u, lock);
      } else {
        assert HoldsFor(s, t, lock, true) && Holds(s, u, lock);
      }
    }
  }

  lemma {:induction false} RunKeeps(run: seq<State>, steps: seq<Step>, i: nat)
    requires IsRun(run, steps) && i < |run|
    ensures Ordered(run[i]) && Exclusive(run[i])
  {
    if i > 0 {
      RunKeeps(run, steps, i - 1);
      OrderedKept(run[i - 1], steps[i - 1]);
      ExclusiveKept(run[i - 1], steps[i - 1]);
    }
  }

  // ----- no circle ----------------------------------------------------------------------------

  /** Where a waiting thread stands: its lock's depth, and how early it queued. */
  function Depth(s: State, t: nat): (nat, int)
    requires t in s.waiting
  {
    (Rank(s.waiting[t].lock.class_), -(s.waiting[t].ticket as int))
  }

  predicate Deeper(a: (nat, int), b: (nat, int)) {
    b.0 < a.0 || (b.0 == a.0 && b.1 < a.1)
  }

  lemma BlockerIsDeeper(s: State, u: nat, t: nat)
    requires Ordered(s) && Blocks(s, u, t) && u in s.waiting
    ensures Deeper(Depth(s, u), Depth(s, t))
  {
    if Holds(s, u, s.waiting[t].lock) {
      NestingGoesInwards(s.waiting[t].lock.class_, s.waiting[u].lock.class_);
    }
  }

  /** `chain` lists threads each held up by the next. */
  ghost predicate WaitChain(s: State, chain: seq<nat>) {
    && (forall i :: 0 <= i < |chain| ==> chain[i] in s.waiting)
    && (forall i :: 0 <= i < |chain| - 1 ==> Blocks(s, chain[i + 1], chain[i]))
  }

  lemma {:induction false} ChainGoesDeeper(s: State, chain: seq<nat>, i: nat)
    requires Ordered(s) && WaitChain(s, chain) && 0 < i < |chain|
    ensures Deeper(Depth(s, chain[i]), Depth(s, chain[0]))
  {
    BlockerIsDeeper(s, chain[i], chain[i - 1]);
    if i > 1 {
      ChainGoesDeeper(s, chain, i - 1);
    }
  }

  /** No reachable state has threads, however many, each waiting on the next and the last on the first. */
  lemma NoCircularWait(run: seq<State>, steps: seq<Step>, n: nat, chain: seq<nat>)
    requires IsRun(run, steps) && n < |run|
    requires |chain| > 0 && WaitChain(run[n], chain)
    ensures !Blocks(run[n], chain[0], chain[|chain| - 1])
  {
    RunKeeps(run, steps, n);
    if |chain| > 1 && Blocks(run[n], chain[0], chain[|chain| - 1]) {
      ChainGoesDeeper(run[n], chain, |chain| - 1);
      BlockerIsDeeper(run[n], chain[0], chain[|chain| - 1]);
    }
  }

  lemma {:induction false} DeepestOf(s: State, threads: set<nat>) returns (t: nat)
    requires threads != {} && forall u :: u in threads ==> u in s.waiting
    ensures t in threads && forall u :: u in threads ==> !Deeper(Depth(s, u), Depth(s, t))
    decreases threads
  {
    var first :| first in threads;
    var rest := threads - {first};
    if rest == {} {
      assert threads == {first};
      return first;
    }
    t := DeepestOf(s, rest);
    if Deeper(Depth(s, first), Depth(s, t)) {
      t := first;
    }
    assert forall u :: u in threads ==> u == first || u in rest;
  }

  /** A running thread holds what a waiting one needs, or a waiting one can have its lock now. */
  ghost predicate CanMove(s: State) {
    exists t :: t in s.waiting && (forall u :: Blocks(s, u, t) ==> u !in s.waiting)
  }

  /** As long as anyone waits, someone waits only on threads that are running, or on no one. */
  lemma SomeoneCanMove(run: seq<State>, steps: seq<Step>, n: nat)
    requires IsRun(run, steps) && n < |run| && run[n].waiting != map[]
    ensures CanMove(run[n])
  {
    var s := run[n];
    RunKeeps(run, steps, n);
    var some :| some in s.waiting;
    assert s.waiting.Keys != {};
    var t := DeepestOf(s, s.waiting.Keys);
    forall u | Blocks(s, u, t) ensures u !in s.waiting {
      if u in s.waiting {
        BlockerIsDeeper(s, u, t);
      }
    }
  }

  // ----- the functions' own nestings ------------------------------------------------------------

  /** The functions of the layer that take several of the locks. */
  datatype Function =
    | RegisterName | SpawnOrGet | RetireNamed | RetireUnnamed | MonitorNode | MonitorRemote
    | LinkRemote | Disconnect | LinkedPeerFor | MeshConsider

  /** A lock, and the locks taken and released under it, one after the other. */
  datatype Section = Section(outer: Class, inner: seq<Class>)

  /** A message to a local process: look the mailbox up, push, wake its owner. */
  const DELIVER: seq<Class> := [Registry, MailboxState, RunQueue]

  /** A new process: promote its code, tell the system monitors, insert it, queue it. */
  const SPAWN: seq<Class> := [CodeRegion, SysMonitors, Registry, MailboxState, RunQueue, Registry, RunQueue]

  /**
   The section of each function in which it takes a lock under another, on the path that takes
   the most; every function has at most one, and takes its other locks with none held.
   */
  function Nested(f: Function): Section {
    match f
    case RegisterName => Section(Names, [Registry])
    case SpawnOrGet => Section(Names, [Registry] + SPAWN)
    case RetireNamed => Section(Names, [Registry])
    case RetireUnnamed => Section(Names, [Registry])
    case MonitorNode => Section(NodeMonitors, [Nodes])
    case MonitorRemote => Section(PendingRemote, DELIVER)
    case LinkRemote => Section(RemoteLinks, [Registry])
    // its net-split cleanup fires the pending monitors under their table's lock
    case Disconnect => Section(PendingRemote, DELIVER)
    case LinkedPeerFor => Section(Nodes, [DialRoutes])
    // its three tables are taken one after another
    case MeshConsider => Section(ProgramDials, [])
  }

  /** The function takes `inner` while it holds `outer`. */
  predicate Takes(f: Function, outer: Class, inner: Class) {
    Nested(f).outer == outer && inner in Nested(f).inner
  }

  /** Every nesting of the function is one that `allowed` has. */
  ghost predicate Follows(allowed: (Class, Class) -> bool, f: Function) {
    forall outer, inner :: Takes(f, outer, inner) ==> allowed(outer, inner)
  }

  lemma TakenIsNested(f: Function, outer: Class, inner: Class)
    requires Takes(f, outer, inner)
    ensures Nests(outer, inner)
  {}

  /** Every function nests its locks as the threads above do. */
  lemma FunctionsFollowTheOrder(f: Function)
    ensures Follows(Nests, f)
  {
    forall outer, inner | Takes(f, outer, inner) ensures Nests(outer, inner) {
      TakenIsNested(f, outer, inner);
    }
  }

  /** The functions that do not keep to the table as it is written. */
  predicate Departs(f: Function) {
    f.SpawnOrGet? || f.MonitorRemote? || f.LinkRemote? || f.Disconnect?
  }

  /** A nesting of such a function that the table lacks. */
  lemma DepartsSomewhere(f: Function) returns (inner: Class)
    requires Departs(f)
    ensures Takes(f, Nested(f).outer, inner) && !Documented(Nested(f).outer, inner)
  {
    inner := if f.SpawnOrGet? then RunQueue else Registry;
    assert SPAWN[4] == RunQueue && DELIVER[0] == Registry;
    assert ([Registry] + SPAWN)[5] == RunQueue;
  }

  lemma OthersKeepToTheTable(f: Function, outer: Class, inner: Class)
    requires !Departs(f) && Takes(f, outer, inner)
    ensures Documented(outer, inner)
  {}

  /** All functions but these four keep to the table as it is written, and these four do not. */
  lemma KeepsToTheTableExactly(f: Function)
    ensures Follows(Documented, f) <==> !Departs(f)
  {
    if Departs(f) {
      var inner := DepartsSomewhere(f);
    } else {
      forall outer, inner | Takes(f, outer, inner) ensures Documented(outer, inner) {
        OthersKeepToTheTable(f, outer, inner);
      }
    }
  }

  lemma UnlistedIsTaken(outer: Class, inner: Class) returns (f: Function)
    requires Unlisted(outer, inner)
    ensures Takes(f, outer, inner) && !Documented(outer, inner)
  {
    f := if outer.Names? then SpawnOrGet else if outer.RemoteLinks? then LinkRemote else MonitorRemote;
    assert SPAWN[0] == CodeRegion && SPAWN[1] == SysMonitors && SPAWN[3] == MailboxState && SPAWN[4] == RunQueue;
    assert forall c :: c in SPAWN ==> c in [Registry] + SPAWN;
    assert DELIVER[0] == Registry;
  }

  /** What the table misses: a nesting is taken and not listed exactly when it is one of the six. */
  lemma TheTableMissesExactlySix(outer: Class, inner: Class)
    ensures (exists f :: Takes(f, outer, inner) && !Documented(outer, inner)) <==> Unlisted(outer, inner)
  {
    if f :| Takes(f, outer, inner) && !Documented(outer, inner) {
      TakenIsNested(f, outer, inner);
    }
    if Unlisted(outer, inner) {
      var f := UnlistedIsTaken(outer, inner);
    }
  }
}
