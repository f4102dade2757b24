/**
 What a call on the name table has done when it returns, whatever other threads did meanwhile.
 `NameProtocol` says what no step breaks; here every call takes effect: registering binds,
 releasing frees, a named spawn answers with a live process of that name, and retiring ends
 with the process gone.
 */
module NameCalls {
  import opened Wrappers
  import opened NameTable
  import opened NameProtocol

  /** Every name but `name` is bound as it was. */
  ghost predicate SameBut(before: Names, after: Names, name: string) {
    forall n :: n != name ==> Lookup(after, n) == Lookup(before, n)
  }

  /** A call that has just been granted the write lock. */
  predicate TakesWrite(call: Pc) {
    call.Register? || call.Spawn? || call.Release? || call.Sweep?
  }

  /** What a call that was granted the write lock in `before` has done when it leaves in `after`, with `end`. */
  ghost predicate HasDone(before: State, call: Pc, after: State, end: Pc) {
    match call
    case Register(name, pid) =>
      && (pid in before.registry ==> Lookup(after.names, name) == Some(pid))
      && (pid !in after.registry ==> after.names == before.names)
      && (after.names == before.names || (Lookup(after.names, name) == Some(pid) && SameBut(before.names, after.names, name)))
    case Spawn(name) =>
      (match Lookup(before.names, name)
       case Some(pid) => end == Leaving(Some((name, pid))) && pid in after.registry && after.names == before.names
       case None =>
         || (end == Leaving(None) && after.names == before.names)
         || (exists pid: nat :: end == Leaving(Some((name, pid))) && before.nextPid <= pid && pid in after.registry
                                && Lookup(after.names, name) == Some(pid) && SameBut(before.names, after.names, name)))
    case Release(name) => Lookup(after.names, name) == None && SameBut(before.names, after.names, name)
    case Sweep(pid) =>
      && pid !in after.registry
      && forall n :: Lookup(after.names, n) == if Lookup(before.names, n) == Some(pid) then None else Lookup(before.names, n)
    case _ => true
  }

  /** Where the call has got to. */
  ghost predicate HasGot(before: State, call: Pc, s: State, pc: Pc) {
    || (pc == call && s.names == before.names)
    || (pc.Leaving? && HasDone(before, call, s, pc))
    || match call
       case Register(name, pid) => pc == SawAlive(name, pid) && s.names == before.names
       case Spawn(name) =>
         && Lookup(before.names, name) == None && s.names == before.names
         && (pc == Vacant(name) || (pc.Spawned? && pc.name == name && before.nextPid <= pc.pid && pc.pid in s.registry))
       case Sweep(pid) =>
         && pc == Swept(pid)
         && forall n :: Lookup(s.names, n) == if Lookup(before.names, n) == Some(pid) then None else Lookup(before.names, n)
       case _ => false
  }

  /** While a thread holds the write lock, others leave it where it is, and names and live processes as they are. */
  lemma WriterIsAlone(s: State, step: Step, t: nat)
    requires Inv(s) && Enabled(s, step) && t in s.threads && HoldsWrite(s.threads[t])
    requires step.PlainSpawn? || step.thread != t
    ensures var s' := Apply(s, step);
            t in s'.threads && s'.threads[t] == s.threads[t] && s'.names == s.names
            && s.nextPid <= s'.nextPid && s'.registry >= s.registry && forall p :: p in s'.registry && p < s.nextPid ==> p in s.registry
  {
    assert s.writer == Some(t);
  }

  /** The thread's own steps, up to where it leaves, carry the call on. */
  lemma CallGoesOn(before: State, call: Pc, s: State, t: nat, spawnSucceeds: bool)
    requires Inv(s) && Enabled(s, Act(t, spawnSucceeds)) && !s.threads[t].Leaving?
    requires TakesWrite(call)
    requires HasGot(before, call, s, s.threads[t]) && Inv(before) && Alike(before, s)
    ensures HasGot(before, call, Action(s, t, spawnSucceeds), Action(s, t, spawnSucceeds).threads[t])
  {
    match s.threads[t]
    case Register(name, pid) =>
    case SawAlive(name, pid) =>
      BindIsExact(s.names, name, pid);
      assert Knows(s, s.threads[t]);
    case Spawn(name) =>
    case Vacant(name) =>
    case Spawned(name, pid) => BindIsExact(s.names, name, pid);
    case Release(name) => UnbindIsExact(s.names, name);
    case Sweep(pid) => UnbindPidIsExact(s.names, pid);
    case Swept(pid) =>
    case _ =>
  }

  /** The processes of `before` that live are those that lived then. */
  ghost predicate Alike(before: State, s: State) {
    before.nextPid <= s.nextPid && forall p :: p < before.nextPid ==> (p in s.registry <==> p in before.registry)
  }

  /** From state `i`, in which `t` has just been granted the write lock, it is still at work up to state `j`. */
  ghost predicate AtWork(run: seq<State>, i: nat, j: nat, t: nat) {
    && i <= j < |run|
    && forall k :: i <= k <= j ==> t in run[k].threads && (k < j ==> !run[k].threads[t].Leaving?)
  }

  /** The call made in `before` is done, or `t` holds the lock and carries on with it. */
  ghost predicate InCall(before: State, call: Pc, s: State, t: nat) {
    && t in s.threads && HasGot(before, call, s, s.threads[t])
    && (s.threads[t].Leaving? || (HoldsWrite(s.threads[t]) && Alike(before, s)))
  }

  lemma CallSteps(before: State, call: Pc, s: State, step: Step, s': State, t: nat)
    requires Inv(before) && Inv(s) && Enabled(s, step) && s' == Apply(s, step) && TakesWrite(call)
    requires InCall(before, call, s, t) && !s.threads[t].Leaving?
    ensures InCall(before, call, s', t)
  {
    if step.PlainSpawn? || step.thread != t {
      WriterIsAlone(s, step, t);
      CallWaits(before, call, s, s', t);
    } else {
      CallGoesOn(before, call, s, t, step.spawnSucceeds);
      ActMoves(s, t, step.spawnSucceeds);
    }
  }

  lemma CallWaits(before: State, call: Pc, s: State, s': State, t: nat)
    requires InCall(before, call, s, t) && !s.threads[t].Leaving?
    requires t in s'.threads && s'.threads[t] == s.threads[t] && s'.names == s.names && s.nextPid <= s'.nextPid
    requires s'.registry >= s.registry && forall p :: p in s'.registry && p < s.nextPid ==> p in s.registry
    ensures InCall(before, call, s', t)
  {}

  lemma CallStarts(call: Pc, s: State, t: nat)
    requires t in s.threads && s.threads[t] == call && TakesWrite(call)
    ensures InCall(s, call, s, t)
  {}

  lemma {:induction false} CallSoFar(run: seq<State>, steps: seq<Step>, i: nat, j: nat, t: nat)
    requires IsRun(run, steps) && AtWork(run, i, j, t) && TakesWrite(run[i].threads[t])
    ensures InCall(run[i], run[i].threads[t], run[j], t)
    decreases j
  {
    if i == j {
      CallStarts(run[i].threads[t], run[i], t);
    } else {
      assert AtWork(run, i, j - 1, t);
      CallSoFar(run, steps, i, j - 1, t);
      RunInv(run, steps, i);
      RunInv(run, steps, j - 1);
      CallSteps(run[i], run[i].threads[t], run[j - 1], steps[j - 1], run[j], t);
    }
  }

  /**
   Registering a live pid binds the name to it, and a dead one changes nothing; a named spawn answers with the
   live holder, or with a new process bound to the name; releasing frees the name; the sweep of a dead pid
   drops exactly its names, and the pid. So it is when the call leaves, whatever other threads did since it
   was granted the lock.
   */
  lemma CallsTakeEffect(run: seq<State>, steps: seq<Step>, i: nat, j: nat, t: nat)
    requires IsRun(run, steps) && AtWork(run, i, j, t) && run[j].threads[t].Leaving? && TakesWrite(run[i].threads[t])
    ensures HasDone(run[i], run[i].threads[t], run[j], run[j].threads[t])
  {
    CallSoFar(run, steps, i, j, t);
  }

  /** On the way to an answer of the named spawn of `name`. */
  predicate Spawning(s: State, t: nat, name: string) {
    && t in s.threads
    && var pc := s.threads[t];
       pc == Spawn(name) || pc == Vacant(name) || (pc.Spawned? && pc.name == name) || (pc.Leaving? && pc.answer.Some?)
  }

  lemma SpawningMoves(s: State, step: Step, s': State, t: nat, name: string)
    requires Enabled(s, step) && s' == Apply(s, step) && step != Act(t, false)
    requires Spawning(s, t, name) && !s.threads[t].Leaving?
    ensures Spawning(s', t, name)
  {
    if step.PlainSpawn? || step.thread != t {
      OthersUnmovedBack(s, step, t);
    }
  }

  /** From state `i` to state `j` no spawn of the thread fails. */
  ghost predicate NoFailure(steps: seq<Step>, i: nat, j: nat, t: nat) {
    j <= |steps| && forall k :: i <= k < j ==> steps[k] != Act(t, false)
  }

  /** A named spawn comes back without a process only if creating one failed. */
  lemma {:induction false} SpawnAnswers(run: seq<State>, steps: seq<Step>, i: nat, j: nat, t: nat, name: string)
    requires IsRun(run, steps) && AtWork(run, i, j, t) && run[i].threads[t] == Spawn(name)
    requires NoFailure(steps, i, j, t)
    ensures Spawning(run[j], t, name)
    decreases j
  {
    if i < j {
      assert NoFailure(steps, i, j - 1, t) && steps[j - 1] != Act(t, false);
      assert AtWork(run, i, j - 1, t);
      SpawnAnswers(run, steps, i, j - 1, t, name);
      assert Spawning(run[j - 1], t, name);
      assert Enabled(run[j - 1], steps[j - 1]);
      assert run[j] == Apply(run[j - 1], steps[j - 1]);
      assert !run[j - 1].threads[t].Leaving?;
      SpawningMoves(run[j - 1], steps[j - 1], run[j], t, name);
    }
  }

  predicate Retiring(pc: Pc, pid: nat) {
    pc in {WantRetire(pid), Retire(pid), Nameless(pid), WantSweep(pid), Sweep(pid), Swept(pid)}
  }

  lemma {:induction false} RetiringGoesOn(run: seq<State>, steps: seq<Step>, i: nat, j: nat, t: nat, pid: nat)
    requires IsRun(run, steps) && i <= j < |run|
    requires t in run[i].threads && run[i].threads[t] == WantRetire(pid) && pid < run[i].nextPid
    requires forall k :: i <= k < j ==> steps[k] != Unlock(t)
    ensures t in run[j].threads && pid < run[j].nextPid
    ensures || Retiring(run[j].threads[t], pid)
            || ((run[j].threads[t] == Leaving(None) || run[j].threads[t].LeavingRead?) && pid !in run[j].registry)
    decreases j
  {
    if i < j {
      var s, step := run[j - 1], steps[j - 1];
      RetiringGoesOn(run, steps, i, j - 1, t, pid);
      if step.PlainSpawn? || step.thread != t {
        OthersUnmovedBack(s, step, t);
      } else {
        RetiringMoves(s, step, t, pid);
      }
      GoneIsGone(s, step, pid);
    }
  }

  lemma GoneIsGone(s: State, step: Step, pid: nat)
    requires Enabled(s, step) && pid < s.nextPid
    ensures pid < Apply(s, step).nextPid && (pid !in s.registry ==> pid !in Apply(s, step).registry)
  {}

  lemma RetiringMoves(s: State, step: Step, t: nat, pid: nat)
    requires Enabled(s, step) && !step.PlainSpawn? && step.thread == t && t in s.threads && step != Unlock(t)
    requires || Retiring(s.threads[t], pid)
             || ((s.threads[t] == Leaving(None) || s.threads[t].LeavingRead?) && pid !in s.registry)
    ensures var s' := Apply(s, step);
            t in s'.threads && (Retiring(s'.threads[t], pid) || ((s'.threads[t] == Leaving(None) || s'.threads[t].LeavingRead?) && pid !in s'.registry))
  {}

  lemma OthersUnmovedBack(s: State, step: Step, u: nat)
    requires Enabled(s, step) && u in s.threads && (step.PlainSpawn? || step.thread != u)
    ensures u in Apply(s, step).threads && Apply(s, step).threads[u] == s.threads[u]
  {}

  /** A retired process is gone when its retirement leaves, by the read lock or by the write lock, and no name is bound to it. */
  lemma RetiredIsGone(run: seq<State>, steps: seq<Step>, i: nat, j: nat, t: nat, pid: nat)
    requires IsRun(run, steps) && i <= j < |run|
    requires t in run[i].threads && run[i].threads[t] == WantRetire(pid) && pid < run[i].nextPid
    requires forall k :: i <= k < j ==> steps[k] != Unlock(t)
    requires t in run[j].threads && (run[j].threads[t].Leaving? || run[j].threads[t].LeavingRead?)
    ensures pid !in run[j].registry && forall name :: Lookup(run[j].names, name) != Some(pid)
  {
    RetiringGoesOn(run, steps, i, j, t, pid);
    RunInv(run, steps, j);
  }

  // ----- every call ends ------------------------------------------------------------------------------------

  /** How many steps of its own a thread has before it at most. */
  function StepsLeft(pc: Pc): nat {
    match pc
    case Idle => 0
    case LeavingRead => 1
    case Leaving(_) => 1
    case SawAlive(_, _) => 2
    case Register(_, _) => 3
    case WantRegister(_, _) => 4
    case Spawned(_, _) => 2
    case Vacant(_) => 3
    case Spawn(_) => 4
    case WantSpawn(_) => 5
    case Release(_) => 2
    case WantRelease(_) => 3
    case Swept(_) => 2
    case Sweep(_) => 3
    case WantSweep(_) => 4
    case Nameless(_) => 2
    case Retire(_) => 5
    case WantRetire(_) => 6
  }

  /** Taking the lock, acting under it and leaving it bring the call nearer to its end, and leave the other calls where they are. */
  lemma OwnStepsUseUpWork(s: State, step: Step)
    requires Enabled(s, step) && (step.Lock? || step.Act? || step.Unlock?)
    ensures var s', t := Apply(s, step), step.thread;
            t in s.threads && t in s'.threads && StepsLeft(s'.threads[t]) < StepsLeft(s.threads[t])
            && s'.threads == s.threads[t := s'.threads[t]]
  {}

  /**
   While any call is under way some thread can go on with its own: the lock is never left with nobody to take
   or leave it; and an idle thread can always make a call.
   */
  lemma SomeCallGoesOn(run: seq<State>, steps: seq<Step>, i: nat, t: nat, name: string, pid: nat)
    requires IsRun(run, steps) && i < |run|
    ensures t in run[i].threads && !run[i].threads[t].Idle? ==>
              exists step :: Enabled(run[i], step) && (step.Lock? || step.Act? || step.Unlock?)
    ensures t !in run[i].threads || run[i].threads[t].Idle? ==>
              && Enabled(run[i], Call(t, WantRegister(name, pid))) && Enabled(run[i], Call(t, WantSpawn(name)))
              && Enabled(run[i], Call(t, WantRelease(name))) && Enabled(run[i], Call(t, WantRetire(pid)))
  {
    var s := run[i];
    RunInv(run, steps, i);
    if t in s.threads && !s.threads[t].Idle? {
      var u := t;
      if s.writer.Some? {
        u := s.writer.value;
      } else if s.readers != {} {
        u :| u in s.readers;
      }
      var step := if s.threads[u].Leaving? || s.threads[u].LeavingRead? then Unlock(u)
                  else if HoldsWrite(s.threads[u]) || HoldsRead(s.threads[u]) then Act(u, true) else Lock(u);
      assert Enabled(s, step);
    }
  }

  /** A spawn that fails leaves nothing behind: no process, and the names as they were. */
  lemma FailedSpawnLeavesNothing(run: seq<State>, steps: seq<Step>, i: nat, k: nat, t: nat, name: string)
    requires IsRun(run, steps) && AtWork(run, i, k, t) && k < |steps|
    requires run[i].threads[t] == Spawn(name) && run[k].threads[t].Vacant? && steps[k] == Act(t, false)
    ensures run[k + 1].threads[t] == Leaving(None)
    ensures run[k + 1].names == run[i].names && run[k + 1].registry == run[k].registry
  {
    CallSoFar(run, steps, i, k, t);
    assert run[k + 1] == Apply(run[k], steps[k]);
  }

  /** While a thread holds the read lock nobody changes the names. */
  lemma ReaderKeepsNames(s: State, step: Step, s': State, t: nat)
    requires Inv(s) && Enabled(s, step) && s' == Apply(s, step) && t in s.threads && HoldsRead(s.threads[t])
    ensures s'.names == s.names
    ensures step.PlainSpawn? || step.thread != t ==> t in s'.threads && s'.threads[t] == s.threads[t]
  {
    assert t in s.readers && s.writer.None?;
    if step.Act? {
      assert s.writer == Some(step.thread) <==> HoldsWrite(s.threads[step.thread]);
    }
  }

  /** Thread `t` retires `pid` under the read lock, and the names are these. */
  ghost predicate RetiresReading(s: State, t: nat, pid: nat, names: Names) {
    && t in s.threads && s.names == names
    && (s.threads[t] == Retire(pid) || s.threads[t] == Nameless(pid) || s.threads[t] == LeavingRead)
  }

  lemma OwnReadingStep(s: State, step: Step, t: nat, pid: nat, names: Names)
    requires Enabled(s, step) && !step.PlainSpawn? && step.thread == t && step != Unlock(t)
    requires RetiresReading(s, t, pid, names) && pid !in names.byPid
    ensures RetiresReading(Apply(s, step), t, pid, names)
  {}

  lemma ReadingMoves(s: State, step: Step, t: nat, pid: nat, names: Names)
    requires Inv(s) && Enabled(s, step) && step != Unlock(t) && pid !in names.byPid
    requires RetiresReading(s, t, pid, names)
    ensures RetiresReading(Apply(s, step), t, pid, names)
  {
    if step.PlainSpawn? || step.thread != t {
      ReaderKeepsNames(s, step, Apply(s, step), t);
    } else {
      OwnReadingStep(s, step, t, pid, names);
    }
  }

  lemma ReadingGoesOn(run: seq<State>, steps: seq<Step>, n: nat, t: nat, pid: nat, names: Names)
    requires IsRun(run, steps) && 0 < n < |run| && steps[n - 1] != Unlock(t) && pid !in names.byPid
    ensures RetiresReading(run[n - 1], t, pid, names) ==> RetiresReading(run[n], t, pid, names)
  {
    RunInv(run, steps, n - 1);
    if RetiresReading(run[n - 1], t, pid, names) {
      ReadingMoves(run[n - 1], steps[n - 1], t, pid, names);
    }
  }

  lemma PidsHaveNames(names: Names, pid: nat)
    requires Valid(names)
    ensures pid in names.byPid ==> exists name :: Lookup(names, name) == Some(pid)
  {
    if pid in names.byPid {
      assert names.byPid[pid][0] in names.byPid[pid];
      assert Lookup(names, names.byPid[pid][0]) == Some(pid);
    }
  }

  /** A process that holds no name retires under the read lock alone, so that exits do not wait for each other. */
  lemma {:induction false} NamelessRetiresUnderReadLock(run: seq<State>, steps: seq<Step>, i: nat, j: nat, t: nat, pid: nat)
    requires IsRun(run, steps) && i <= j < |run| && t in run[i].threads && run[i].threads[t] == Retire(pid)
    requires forall name :: Lookup(run[i].names, name) != Some(pid)
    requires forall k :: i <= k < j ==> steps[k] != Unlock(t)
    ensures RetiresReading(run[j], t, pid, run[i].names)
    decreases j
  {
    if i < j {
      NamelessRetiresUnderReadLock(run, steps, i, j - 1, t, pid);
      RunInv(run, steps, i);
      PidsHaveNames(run[i].names, pid);
      ReadingGoesOn(run, steps, j, t, pid, run[i].names);
    }
  }
}
