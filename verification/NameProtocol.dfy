/**
 The lock protocol that ties names to process life. Any number of threads bind, release
 and look up names, spawn named processes and retire dead ones, each under the `NAMES`
 reader-writer lock, one action at a time. A process that holds no name retires under the
 read lock; one that does gives the read lock up before it takes the write lock, and other
 threads run in between.
 */
module NameProtocol {
  import opened Wrappers
  import opened NameTable

  /** Where a thread is. `Want…` waits for the lock; the others hold it, until `Idle`. */
  datatype Pc =
    | Idle
    // register(name, pid): check that pid lives, then bind
    | WantRegister(name: string, pid: nat)
    | Register(name: string, pid: nat)
    | SawAlive(name: string, pid: nat)
    // spawn_or_get(name): return the live holder, or spawn and bind
    | WantSpawn(name: string)
    | Spawn(name: string)
    | Vacant(name: string)
    | Spawned(name: string, pid: nat)
    // unregister(name)
    | WantRelease(name: string)
    | Release(name: string)
    // unregister_dead_pid_while(pid)
    | WantRetire(pid: nat)
    | Retire(pid: nat)
    | Nameless(pid: nat)
    | WantSweep(pid: nat)
    | Sweep(pid: nat)
    | Swept(pid: nat)
    // done, about to unlock; a named spawn carries its answer
    | Leaving(answer: Option<(string, nat)>)
    | LeavingRead

  datatype State = State(
    names: Names,
    // the pids that are alive, and the next one
    registry: set<nat>,
    nextPid: nat,
    threads: map<nat, Pc>,
    // the lock
    writer: Option<nat>,
    readers: set<nat>)

  datatype Step =
    | Call(thread: nat, pc: Pc)
    | Lock(thread: nat)
    | Act(thread: nat, spawnSucceeds: bool)
    | Unlock(thread: nat)
    | PlainSpawn

  predicate WantsWrite(pc: Pc) {
    pc.WantRegister? || pc.WantSpawn? || pc.WantRelease? || pc.WantSweep?
  }

  predicate HoldsWrite(pc: Pc) {
    || pc.Register? || pc.SawAlive? || pc.Spawn? || pc.Vacant? || pc.Spawned?
    || pc.Release? || pc.Sweep? || pc.Swept? || pc.Leaving?
  }

  predicate HoldsRead(pc: Pc) {
    pc.Retire? || pc.Nameless? || pc.LeavingRead?
  }

  function Granted(pc: Pc): Pc {
    match pc
    case WantRegister(name, pid) => Register(name, pid)
    case WantSpawn(name) => Spawn(name)
    case WantRelease(name) => Release(name)
    case WantSweep(pid) => Sweep(pid)
    case WantRetire(pid) => Retire(pid)
    case _ => pc
  }

  predicate Enabled(s: State, step: Step) {
    match step
    case Call(t, pc) =>
      && (t in s.threads ==> s.threads[t].Idle?)
      && (pc.WantRegister? || pc.WantSpawn? || pc.WantRelease? || pc.WantRetire?)
    case Lock(t) =>
      && t in s.threads && s.writer.None?
      && (s.threads[t].WantRetire? || (WantsWrite(s.threads[t]) && s.readers == {}))
    case Act(t, _) =>
      && t in s.threads
      && (HoldsWrite(s.threads[t]) || HoldsRead(s.threads[t]))
      && !s.threads[t].Leaving? && !s.threads[t].LeavingRead?
    case Unlock(t) => t in s.threads && (s.threads[t].Leaving? || s.threads[t].LeavingRead?)
    case PlainSpawn => true
  }

  function Goto(s: State, t: nat, pc: Pc): State {
    s.(threads := s.threads[t := pc])
  }

  /** The next action of the thread `t`, which holds the lock. */
  function Action(s: State, t: nat, spawnSucceeds: bool): State
    requires t in s.threads
  {
    match s.threads[t]
    case Register(name, pid) => Goto(s, t, if pid in s.registry then SawAlive(name, pid) else Leaving(None))
    case SawAlive(name, pid) => Goto(s, t, Leaving(None)).(names := Bind(s.names, name, pid))
    case Spawn(name) =>
      (match Lookup(s.names, name)
       case None => Goto(s, t, Vacant(name))
       case Some(pid) =>
         if pid in s.registry then Goto(s, t, Leaving(Some((name, pid))))
         else Goto(s, t, Vacant(name)).(names := Unbind(s.names, name)))
    case Vacant(name) =>
      if spawnSucceeds
      then Goto(s, t, Spawned(name, s.nextPid)).(registry := s.registry + {s.nextPid}, nextPid := s.nextPid + 1)
      else Goto(s, t, Leaving(None))
    case Spawned(name, pid) => Goto(s, t, Leaving(Some((name, pid)))).(names := Bind(s.names, name, pid))
    case Release(name) => Goto(s, t, Leaving(None)).(names := Unbind(s.names, name))
    case Retire(pid) =>
      if pid in s.names.byPid
      then Goto(s, t, WantSweep(pid)).(readers := s.readers - {t})
      else Goto(s, t, Nameless(pid))
    case Nameless(pid) => Goto(s, t, LeavingRead).(registry := s.registry - {pid})
    case Sweep(pid) => Goto(s, t, Swept(pid)).(names := UnbindPid(s.names, pid))
    case Swept(pid) => Goto(s, t, Leaving(None)).(registry := s.registry - {pid})
    case _ => s
  }

  function Apply(s: State, step: Step): State
    requires Enabled(s, step)
  {
    match step
    case Call(t, pc) => Goto(s, t, pc)
    case Lock(t) =>
      var s' := Goto(s, t, Granted(s.threads[t]));
      if s.threads[t].WantRetire? then s'.(readers := s.readers + {t}) else s'.(writer := Some(t))
    case Act(t, spawnSucceeds) => Action(s, t, spawnSucceeds)
    case Unlock(t) =>
      var s' := Goto(s, t, Idle);
      if s.threads[t].LeavingRead? then s'.(readers := s.readers - {t}) else s'.(writer := None)
    case PlainSpawn => s.(registry := s.registry + {s.nextPid}, nextPid := s.nextPid + 1)
  }

  ghost predicate Init(s: State) {
    && s.names == Names(map[], map[])
    && s.threads == map[] && s.writer.None? && s.readers == {}
    && forall p :: p in s.registry ==> p < s.nextPid
  }

  ghost predicate IsRun(run: seq<State>, steps: seq<Step>) {
    && |run| == |steps| + 1
    && Init(run[0])
    && forall i :: 0 <= i < |steps| ==> Enabled(run[i], steps[i]) && run[i + 1] == Apply(run[i], steps[i])
  }

  // ----- the invariant ---------------------------------------------------------------------

  /** The lock is what the threads' positions say it is, and excludes as it should. */
  ghost predicate LockedBy(threads: map<nat, Pc>, writer: Option<nat>, readers: set<nat>) {
    && (forall t :: t in threads && HoldsWrite(threads[t]) <==> writer == Some(t))
    && (forall t :: t in threads && HoldsRead(threads[t]) <==> t in readers)
    && (writer.Some? ==> readers == {})
  }

  ghost predicate Locked(s: State) {
    LockedBy(s.threads, s.writer, s.readers)
  }

  /** Every bound pid is alive. */
  ghost predicate NamesAlive(s: State) {
    forall name :: name in s.names.byName ==> s.names.byName[name] in s.registry
  }

  /** What a thread inside the lock has found out is still so. */
  ghost predicate Knows(s: State, pc: Pc) {
    match pc
    case SawAlive(_, pid) => pid in s.registry
    case Vacant(name) => name !in s.names.byName
    case Spawned(name, pid) => pid in s.registry && name !in s.names.byName
    case Nameless(pid) => pid !in s.names.byPid
    case Swept(pid) => pid !in s.names.byPid
    case Leaving(Some((name, pid))) => Lookup(s.names, name) == Some(pid)
    case _ => true
  }

  ghost predicate Inv(s: State) {
    && Locked(s)
    && Valid(s.names)
    && NamesAlive(s)
    && (forall p :: p in s.registry ==> p < s.nextPid)
    && (forall t :: t in s.threads ==> Knows(s, s.threads[t]))
  }

  /** A thread that moves without taking or leaving the lock. */
  lemma MoveKeepsLock(threads: map<nat, Pc>, writer: Option<nat>, readers: set<nat>, t: nat, pc: Pc)
    requires LockedBy(threads, writer, readers)
    requires HoldsWrite(pc) <==> t in threads && HoldsWrite(threads[t])
    requires HoldsRead(pc) <==> t in threads && HoldsRead(threads[t])
    ensures LockedBy(threads[t := pc], writer, readers)
  {}

  lemma ReadTaken(threads: map<nat, Pc>, readers: set<nat>, t: nat, pc: Pc)
    requires LockedBy(threads, None, readers) && HoldsRead(pc) && !HoldsWrite(pc)
    ensures LockedBy(threads[t := pc], None, readers + {t})
  {}

  lemma ReadLeft(threads: map<nat, Pc>, writer: Option<nat>, readers: set<nat>, t: nat, pc: Pc)
    requires LockedBy(threads, writer, readers) && t in readers && !HoldsRead(pc) && !HoldsWrite(pc)
    ensures LockedBy(threads[t := pc], writer, readers - {t})
  {}

  lemma WriteTaken(threads: map<nat, Pc>, t: nat, pc: Pc)
    requires LockedBy(threads, None, {}) && HoldsWrite(pc) && !HoldsRead(pc)
    ensures LockedBy(threads[t := pc], Some(t), {})
  {}

  lemma WriteLeft(threads: map<nat, Pc>, readers: set<nat>, t: nat, pc: Pc)
    requires LockedBy(threads, Some(t), readers) && !HoldsRead(pc) && !HoldsWrite(pc)
    ensures LockedBy(threads[t := pc], None, readers)
  {}

  /** An action moves its thread alone; it keeps the lock, or gives up its read lock to wait for the write lock. */
  lemma ActMoves(s: State, t: nat, spawnSucceeds: bool)
    requires Enabled(s, Act(t, spawnSucceeds))
    ensures var s' := Action(s, t, spawnSucceeds);
            && t in s'.threads && s'.threads == s.threads[t := s'.threads[t]] && s'.writer == s.writer
            && if s'.threads[t].WantSweep? then s'.readers == s.readers - {t} && HoldsRead(s.threads[t])
               else && s'.readers == s.readers
                    && (HoldsWrite(s'.threads[t]) <==> HoldsWrite(s.threads[t]))
                    && (HoldsRead(s'.threads[t]) <==> HoldsRead(s.threads[t]))
  {}

  lemma LockedActKept(s: State, t: nat, spawnSucceeds: bool)
    requires Locked(s) && Enabled(s, Act(t, spawnSucceeds))
    ensures Locked(Action(s, t, spawnSucceeds))
  {
    ActMoves(s, t, spawnSucceeds);
    var pc := Action(s, t, spawnSucceeds).threads[t];
    if pc.WantSweep? {
      ReadLeft(s.threads, s.writer, s.readers, t, pc);
    } else {
      MoveKeepsLock(s.threads, s.writer, s.readers, t, pc);
    }
  }

  lemma LockedKept(s: State, step: Step)
    requires Locked(s) && Enabled(s, step)
    ensures Locked(Apply(s, step))
  {
    match step
    case Call(t, pc) => MoveKeepsLock(s.threads, s.writer, s.readers, t, pc);
    case Lock(t) =>
      var pc := Granted(s.threads[t]);
      if s.threads[t].WantRetire? {
        ReadTaken(s.threads, s.readers, t, pc);
      } else {
        WriteTaken(s.threads, t, pc);
      }
    case Act(t, spawnSucceeds) => LockedActKept(s, t, spawnSucceeds);
    case Unlock(t) =>
      if s.threads[t].LeavingRead? {
        ReadLeft(s.threads, s.writer, s.readers, t, Idle);
      } else {
        assert s.writer == Some(t);
        WriteLeft(s.threads, s.readers, t, Idle);
      }
    case PlainSpawn =>
  }

  lemma ValidKept(s: State, step: Step)
    requires Valid(s.names) && Enabled(s, step)
    ensures Valid(Apply(s, step).names)
  {
    if step.Act? {
      match s.threads[step.thread]
      case SawAlive(name, pid) => BindIsExact(s.names, name, pid);
      case Spawn(name) => UnbindIsExact(s.names, name);
      case Spawned(name, pid) => BindIsExact(s.names, name, pid);
      case Release(name) => UnbindIsExact(s.names, name);
      case Sweep(pid) => UnbindPidIsExact(s.names, pid);
      case _ =>
    }
  }

  lemma NamesAliveKept(s: State, step: Step)
    requires Inv(s) && Enabled(s, step)
    ensures NamesAlive(Apply(s, step))
  {
    if step.Act? {
      assert Knows(s, s.threads[step.thread]);
      match s.threads[step.thread]
      case Nameless(pid) => NobodyNames(s.names, pid);
      case Swept(pid) => NobodyNames(s.names, pid);
      case _ =>
    }
  }

  lemma NobodyNames(t: Names, pid: nat)
    requires Valid(t) && pid !in t.byPid
    ensures forall name :: name in t.byName ==> t.byName[name] != pid
  {}

  /** A step of one thread leaves what the others know true: the lock keeps them apart. */
  lemma OthersKnow(s: State, step: Step, u: nat)
    requires Inv(s) && Enabled(s, step)
    requires u in s.threads && (step.PlainSpawn? || step.thread != u)
    ensures Knows(Apply(s, step), s.threads[u])
  {
    assert Knows(s, s.threads[u]);
    if step.Act? {
      assert HoldsWrite(s.threads[u]) ==> s.writer == Some(u);
      assert HoldsRead(s.threads[u]) ==> u in s.readers;
    }
  }

  lemma ActorKnows(s: State, step: Step)
    requires Inv(s) && Enabled(s, step) && !step.PlainSpawn?
    ensures Knows(Apply(s, step), Apply(s, step).threads[step.thread])
  {
    if step.Act? {
      assert Knows(s, s.threads[step.thread]);
      match s.threads[step.thread]
      case Spawn(name) => UnbindIsExact(s.names, name);
      case Spawned(name, pid) => BindIsExact(s.names, name, pid);
      case Sweep(pid) => UnbindPidIsExact(s.names, pid);
      case _ =>
    }
  }

  lemma AllKnow(s: State, step: Step, u: nat)
    requires Inv(s) && Enabled(s, step) && u in Apply(s, step).threads
    ensures Knows(Apply(s, step), Apply(s, step).threads[u])
  {
    if !step.PlainSpawn? && u == step.thread {
      ActorKnows(s, step);
    } else {
      OthersUnmoved(s, step, u);
      OthersKnow(s, step, u);
    }
  }

  lemma OthersUnmoved(s: State, step: Step, u: nat)
    requires Enabled(s, step) && u in Apply(s, step).threads && (step.PlainSpawn? || step.thread != u)
    ensures u in s.threads && Apply(s, step).threads[u] == s.threads[u]
  {}

  lemma PidsFreshKept(s: State, step: Step)
    requires Enabled(s, step) && forall p :: p in s.registry ==> p < s.nextPid
    ensures forall p :: p in Apply(s, step).registry ==> p < Apply(s, step).nextPid
  {}

  lemma InvKept(s: State, step: Step)
    requires Inv(s) && Enabled(s, step)
    ensures Inv(Apply(s, step))
  {
    LockedKept(s, step);
    ValidKept(s, step);
    NamesAliveKept(s, step);
    PidsFreshKept(s, step);
    forall u | u in Apply(s, step).threads ensures Knows(Apply(s, step), Apply(s, step).threads[u]) {
      AllKnow(s, step, u);
    }
  }

  lemma {:induction false} RunInv(run: seq<State>, steps: seq<Step>, i: nat)
    requires IsRun(run, steps) && i < |run|
    ensures Inv(run[i])
  {
    if i > 0 {
      RunInv(run, steps, i - 1);
      InvKept(run[i - 1], steps[i - 1]);
    }
  }

  // ----- what callers get ------------------------------------------------------------------

  /**
   In every state of every run, also in the middle of a critical section: the indexes are
   inverse, and a name never names a pid that is gone from the registry.
   */
  lemma NamesNeverPointAtTheDead(run: seq<State>, steps: seq<Step>, i: nat, name: string)
    requires IsRun(run, steps) && i < |run|
    ensures Valid(run[i].names)
    ensures name in run[i].names.byName ==> run[i].names.byName[name] in run[i].registry
  {
    RunInv(run, steps, i);
  }

  /** A retired pid holds no name then, and none ever after: pids are not used twice. */
  lemma {:induction false} TheDeadStayNameless(run: seq<State>, steps: seq<Step>, i: nat, j: nat, pid: nat)
    requires IsRun(run, steps) && i <= j < |run|
    requires pid < run[i].nextPid && pid !in run[i].registry
    ensures pid !in run[j].registry && pid !in run[j].names.byPid
    decreases j
  {
    RunInv(run, steps, j);
    DeadStaysDead(run, steps, i, j, pid);
    if pid in run[j].names.byPid {
      NamedIsAlive(run[j], pid);
    }
  }

  lemma NamedIsAlive(s: State, pid: nat)
    requires Inv(s) && pid in s.names.byPid
    ensures pid in s.registry
  {
    var name := s.names.byPid[pid][0];
    assert name in s.names.byPid[pid];
    assert name in s.names.byName && s.names.byName[name] in s.registry;
  }

  lemma {:induction false} DeadStaysDead(run: seq<State>, steps: seq<Step>, i: nat, j: nat, pid: nat)
    requires IsRun(run, steps) && i <= j < |run|
    requires pid < run[i].nextPid && pid !in run[i].registry
    ensures pid !in run[j].registry && pid < run[j].nextPid
    decreases j
  {
    if i < j {
      DeadStaysDead(run, steps, i, j - 1, pid);
      assert run[j] == Apply(run[j - 1], steps[j - 1]);
    }
  }

  /** The stale-holder branch of a named spawn is never taken: a holder it finds is alive. */
  lemma HoldersFoundAreAlive(run: seq<State>, steps: seq<Step>, i: nat, t: nat)
    requires IsRun(run, steps) && i < |run|
    requires t in run[i].threads && run[i].threads[t].Spawn?
    ensures var holder := Lookup(run[i].names, run[i].threads[t].name);
            holder.Some? ==> holder.value in run[i].registry
  {
    RunInv(run, steps, i);
  }

  /** This step gives `name` a new holder or none: a rebinding, a release, or the holder's death. */
  ghost predicate Disturbs(s: State, step: Step, name: string, pid: nat) {
    && step.Act? && step.thread in s.threads
    && (match s.threads[step.thread]
        case SawAlive(n, p) => n == name && p != pid
        case Release(n) => n == name
        case Sweep(p) => p == pid
        case _ => false)
  }

  lemma UndisturbedBindingStays(s: State, step: Step, name: string, pid: nat)
    requires Inv(s) && Enabled(s, step) && Lookup(s.names, name) == Some(pid)
    requires !Disturbs(s, step, name, pid)
    ensures Lookup(Apply(s, step).names, name) == Some(pid)
  {
    if step.Act? {
      assert Knows(s, s.threads[step.thread]);
      match s.threads[step.thread]
      case SawAlive(n, p) => BindIsExact(s.names, n, p);
      case Spawned(n, p) => BindIsExact(s.names, n, p);
      case Spawn(n) => UnbindIsExact(s.names, n);
      case Release(n) => UnbindIsExact(s.names, n);
      case Sweep(p) => UnbindPidIsExact(s.names, p);
      case _ =>
    }
  }

  lemma {:induction false} UndisturbedRun(
    run: seq<State>, steps: seq<Step>, i: nat, j: nat, name: string, pid: nat)
    requires IsRun(run, steps) && i <= j < |run|
    requires Lookup(run[i].names, name) == Some(pid)
    requires forall k :: i <= k < j ==> !Disturbs(run[k], steps[k], name, pid)
    ensures Lookup(run[j].names, name) == Some(pid)
    decreases j
  {
    if i < j {
      UndisturbedRun(run, steps, i, j - 1, name, pid);
      RunInv(run, steps, j - 1);
      UndisturbedBindingStays(run[j - 1], steps[j - 1], name, pid);
    }
  }

  /**
   Two named spawns of one name answer with one live pid, whatever ran in between, unless
   in between the name was bound to another process, released, or its holder died.
   */
  lemma NamedSpawnsAgree(run: seq<State>, steps: seq<Step>, i: nat, j: nat, t: nat, u: nat, name: string, p: nat, q: nat)
    requires IsRun(run, steps) && i <= j < |run|
    requires t in run[i].threads && run[i].threads[t] == Leaving(Some((name, p)))
    requires u in run[j].threads && run[j].threads[u] == Leaving(Some((name, q)))
    requires forall k :: i <= k < j ==> !Disturbs(run[k], steps[k], name, p)
    ensures p == q && q in run[j].registry
  {
    RunInv(run, steps, i);
    RunInv(run, steps, j);
    assert Knows(run[i], run[i].threads[t]) && Knows(run[j], run[j].threads[u]);
    UndisturbedRun(run, steps, i, j, name, p);
  }
}
