/**
 The gate on inbound handshakes, and the warning that it is shut. Any number of connection
 threads take and give back slots of one atomic counter; one that finds the cap reached
 rolls its increment back, counts itself shed, and may print a warning, by winning a
 compare-and-swap on the time of the last one. Each atomic access is a step of its own.
 */
module HandshakeGate {
  import opened Wrappers

  const MAX_IN_FLIGHT_HANDSHAKES := 128

  const SHED_WARN_INTERVAL_MS := 60000

  /** No warning yet: the largest 64-bit value, which the clock does not reach. */
  const SHED_WARN_NEVER: nat := 0xFFFF_FFFF_FFFF_FFFF

  datatype Pc =
    | Holding                            // has a slot
    | RollingBack                        // found the gate full
    | Shedding                           // rolled back, not yet counted
    | Counted(total: nat)                // counted, as the total-th
    | Timed(total: nat, now: nat)        // has read the clock
    | Warning(total: nat, now: nat, last: nat)  // has read the last stamp, and finds a warning is due

  /** A line printed: its stamp, and the count it reports. */
  datatype Line = Line(stamp: nat, total: nat)

  datatype State = State(
    slots: int,                // IN_FLIGHT_HANDSHAKES, which a subtraction too many would make negative
    sheds: nat,                // SHED_HANDSHAKES
    last: nat,                 // LAST_SHED_WARN_MS
    clock: nat,
    threads: map<nat, Pc>,
    refused: nat,              // history: connections refused
    printed: seq<Line>)        // history

  datatype Step =
    | Tick
    | Acquire(thread: nat)
    | Release(thread: nat)
    | RollBack(thread: nat)
    | Count(thread: nat)
    | ReadClock(thread: nat)
    | ReadLast(thread: nat)
    | Swap(thread: nat)

  ghost predicate Init(s: State) {
    s.slots == 0 && s.sheds == 0 && s.last == SHED_WARN_NEVER && s.threads == map[] && s.refused == 0 && s.printed == []
    && s.clock < SHED_WARN_NEVER
  }

  predicate Enabled(s: State, step: Step) {
    match step
    case Tick => s.clock + 1 < SHED_WARN_NEVER
    case Acquire(t) => t !in s.threads
    case Release(t) => t in s.threads && s.threads[t].Holding?
    case RollBack(t) => t in s.threads && s.threads[t].RollingBack?
    case Count(t) => t in s.threads && s.threads[t].Shedding?
    case ReadClock(t) => t in s.threads && s.threads[t].Counted?
    case ReadLast(t) => t in s.threads && s.threads[t].Timed?
    case Swap(t) => t in s.threads && s.threads[t].Warning?
  }

  /** A warning is due: none was printed yet, or the last is an interval old. */
  predicate Due(now: nat, last: nat) {
    !(last != SHED_WARN_NEVER && (if now >= last then now - last else 0) < SHED_WARN_INTERVAL_MS)
  }

  function Apply(s: State, step: Step): State
    requires Enabled(s, step)
  {
    match step
    case Tick => s.(clock := s.clock + 1)
    case Acquire(t) =>
      s.(slots := s.slots + 1,
      threads := s.threads[t := if s.slots >= MAX_IN_FLIGHT_HANDSHAKES then RollingBack else Holding])
    case Release(t) => s.(slots := s.slots - 1, threads := s.threads - {t})
    case RollBack(t) =>
      s.(slots := s.slots - 1, threads := s.threads[t := Shedding], refused := s.refused + 1)
    case Count(t) => s.(sheds := s.sheds + 1, threads := s.threads[t := Counted(s.sheds + 1)])
    case ReadClock(t) => s.(threads := s.threads[t := Timed(s.threads[t].total, s.clock)])
    case ReadLast(t) =>
      var pc := s.threads[t];
      s.(threads := if Due(pc.now, s.last) then s.threads[t := Warning(pc.total, pc.now, s.last)] else s.threads - {t})
    case Swap(t) =>
      var pc := s.threads[t];
      if s.last == pc.last
      then s.(last := pc.now, threads := s.threads - {t}, printed := s.printed + [Line(pc.now, pc.total)])
      else s.(threads := s.threads - {t})
  }

  ghost predicate IsRun(run: seq<State>, steps: seq<Step>) {
    && |run| == |steps| + 1
    && Init(run[0])
    && forall i :: 0 <= i < |steps| ==> Enabled(run[i], steps[i]) && run[i + 1] == Apply(run[i], steps[i])
  }

  // ----- the counter ---------------------------------------------------------------------------

  /** What a thread counts towards: a slot, a slot to roll back, a shed to count, or nothing. */
  datatype Kind = Holder | Loser | Uncounted | Other

  function KindOf(pc: Pc): Kind {
    match pc
    case Holding => Holder
    case RollingBack => Loser
    case Shedding => Uncounted
    case _ => Other
  }

  ghost function Of(threads: map<nat, Pc>, kind: Kind): set<nat> {
    set t | t in threads && KindOf(threads[t]) == kind
  }

  /** The counters are the threads' own: held slots and losers; refusals counted or about to be. */
  ghost predicate CountersRight(s: State) {
    && s.slots == |Of(s.threads, Holder)| + |Of(s.threads, Loser)|
    && |Of(s.threads, Holder)| <= MAX_IN_FLIGHT_HANDSHAKES
    && s.refused == s.sheds + |Of(s.threads, Uncounted)|
  }

  /** How much thread `t` adds to the number of threads of a kind. */
  ghost function Share(threads: map<nat, Pc>, t: nat, kind: Kind): nat {
    if t in threads && KindOf(threads[t]) == kind then 1 else 0
  }

  lemma CountWithout(threads: map<nat, Pc>, t: nat, kind: Kind)
    ensures |Of(threads, kind)| == |Of(threads - {t}, kind)| + Share(threads, t, kind)
  {
    var rest := Of(threads - {t}, kind);
    assert Of(threads, kind) == if Share(threads, t, kind) == 1 then rest + {t} else rest;
  }

  /** Only the step's own thread changes kind. */
  lemma CountStep(s: State, step: Step, kind: Kind)
    requires Enabled(s, step) && !step.Tick?
    ensures var threads := Apply(s, step).threads;
            |Of(threads, kind)| + Share(s.threads, step.thread, kind) == |Of(s.threads, kind)| + Share(threads, step.thread, kind)
  {
    var threads, t := Apply(s, step).threads, step.thread;
    assert threads - {t} == s.threads - {t};
    CountWithout(threads, t, kind);
    CountWithout(s.threads, t, kind);
  }

  lemma CountersKept(s: State, step: Step)
    requires CountersRight(s) && Enabled(s, step)
    ensures CountersRight(Apply(s, step))
  {
    if !step.Tick? {
      CountStep(s, step, Holder);
      CountStep(s, step, Loser);
      CountStep(s, step, Uncounted);
      CountWithout(s.threads, step.thread, Holder);
    }
  }

  // ----- the warnings ----------------------------------------------------------------------------

  /** The last stamp is the last line's, and a thread about to warn saw one that was old enough. */
  ghost predicate StampsRight(s: State) {
    && s.clock < SHED_WARN_NEVER
    && s.last == (if s.printed == [] then SHED_WARN_NEVER else s.printed[|s.printed| - 1].stamp)
    && (forall i :: 0 <= i < |s.printed| ==> s.printed[i].stamp < SHED_WARN_NEVER)
    && (forall t :: t in s.threads && s.threads[t].Timed? ==> s.threads[t].now <= s.clock)
    && (forall t :: t in s.threads && s.threads[t].Warning? ==>
                      s.threads[t].now <= s.clock && Due(s.threads[t].now, s.threads[t].last))
  }

  ghost predicate Spaced(printed: seq<Line>) {
    forall i :: 0 <= i < |printed| - 1 ==> printed[i].stamp + SHED_WARN_INTERVAL_MS <= printed[i + 1].stamp
  }

  lemma StampsKept(s: State, step: Step)
    requires StampsRight(s) && Spaced(s.printed) && Enabled(s, step)
    ensures StampsRight(Apply(s, step)) && Spaced(Apply(s, step).printed)
  {}

  /** A stamp a thread read is the never-stamp, or that of a line printed. */
  ghost predicate StampsRead(s: State) {
    forall t :: t in s.threads && s.threads[t].Warning? && s.threads[t].last != SHED_WARN_NEVER ==> s.printed != []
  }

  /** The thread has counted a shed and may still print a warning for it. */
  ghost predicate MayWarn(s: State, t: nat) {
    t in s.threads && (s.threads[t].Counted? || s.threads[t].Timed? || s.threads[t].Warning?)
  }

  /** If any connection was counted shed, a line was printed, or one is about to be. */
  ghost predicate Told(s: State) {
    s.sheds > 0 ==> s.printed != [] || exists t :: MayWarn(s, t)
  }

  lemma ToldKept(s: State, step: Step)
    requires Told(s) && StampsRight(s) && StampsRead(s) && Enabled(s, step)
    ensures Told(Apply(s, step))
  {
    var s' := Apply(s, step);
    if s.printed == [] {
      if step.Count? {
        assert MayWarn(s', step.thread);
      } else if s.sheds > 0 {
        var t :| MayWarn(s, t);
        if s'.printed == [] {
          assert MayWarn(s', t);
        }
      }
    }
  }

  // ----- over whole runs ---------------------------------------------------------------------------

  ghost predicate Inv(s: State) {
    CountersRight(s) && StampsRight(s) && Spaced(s.printed) && StampsRead(s) && Told(s)
  }

  lemma {:induction false} RunInv(run: seq<State>, steps: seq<Step>, i: nat)
    requires IsRun(run, steps) && i < |run|
    ensures Inv(run[i])
  {
    if i == 0 {
      assert forall kind :: Of(run[0].threads, kind) == {};
    } else {
      RunInv(run, steps, i - 1);
      CountersKept(run[i - 1], steps[i - 1]);
      StampsKept(run[i - 1], steps[i - 1]);
      ToldKept(run[i - 1], steps[i - 1]);
    }
  }

  /** The gate: slots held never exceed the cap, and the counter drifts only by losers rolling back. */
  lemma GateHolds(run: seq<State>, steps: seq<Step>, i: nat)
    requires IsRun(run, steps) && i < |run|
    ensures |Of(run[i].threads, Holder)| <= MAX_IN_FLIGHT_HANDSHAKES
    ensures run[i].slots == |Of(run[i].threads, Holder)| + |Of(run[i].threads, Loser)|
  {
    RunInv(run, steps, i);
  }

  /** Every refused connection is counted, once its thread has got that far. */
  lemma EveryShedCounted(run: seq<State>, steps: seq<Step>, i: nat)
    requires IsRun(run, steps) && i < |run|
    requires forall t :: t in run[i].threads ==> !run[i].threads[t].Shedding?
    ensures run[i].sheds == run[i].refused
  {
    RunInv(run, steps, i);
    assert Of(run[i].threads, Uncounted) == {};
  }

  lemma {:induction false} SpacedApart(printed: seq<Line>, i: nat, j: nat)
    requires Spaced(printed) && i < j < |printed|
    ensures printed[i].stamp + SHED_WARN_INTERVAL_MS * (j - i) <= printed[j].stamp
    decreases j - i
  {
    if i + 1 < j {
      SpacedApart(printed, i, j - 1);
    }
  }

  /** Between any two lines printed lies an interval for each line in between. */
  lemma WarningsAreSpaced(run: seq<State>, steps: seq<Step>, n: nat, i: nat, j: nat)
    requires IsRun(run, steps) && n < |run| && i < j < |run[n].printed|
    ensures run[n].printed[i].stamp + SHED_WARN_INTERVAL_MS * (j - i) <= run[n].printed[j].stamp
  {
    RunInv(run, steps, n);
    SpacedApart(run[n].printed, i, j);
  }

  /** A flood is never silent: once a shed was counted and nobody is about to warn, a line was printed. */
  lemma ShedsAreTold(run: seq<State>, steps: seq<Step>, i: nat)
    requires IsRun(run, steps) && i < |run| && run[i].sheds > 0
    requires forall t :: !MayWarn(run[i], t)
    ensures run[i].printed != []
  {
    RunInv(run, steps, i);
  }

  // ----- who gets in, and who is heard ----------------------------------------------------------------

  /** A connection is taken exactly while slots held and losers still to roll back are fewer than the cap. */
  lemma AdmitsBelowTheCap(run: seq<State>, steps: seq<Step>, i: nat, t: nat)
    requires IsRun(run, steps) && i < |steps| && steps[i] == Acquire(t)
    ensures t in run[i + 1].threads
    ensures run[i + 1].threads[t].Holding? <==>
            |Of(run[i].threads, Holder)| + |Of(run[i].threads, Loser)| < MAX_IN_FLIGHT_HANDSHAKES
    ensures run[i + 1].threads[t].Holding? || run[i + 1].threads[t].RollingBack?
  {
    RunInv(run, steps, i);
  }

  /** How many steps a thread has before it at most. */
  function StepsLeft(pc: Pc): nat {
    match pc
    case Holding => 1
    case RollingBack => 5
    case Shedding => 4
    case Counted(_) => 3
    case Timed(_, _) => 2
    case Warning(_, _, _) => 1
  }

  /** A thread in the gate can always take its next step, whatever the others do, and each brings it nearer to leaving. */
  lemma NobodyWaits(s: State, t: nat)
    requires t in s.threads
    ensures exists step :: Enabled(s, step) && !step.Tick? && !step.Acquire? && step.thread == t
    ensures forall step :: Enabled(s, step) && !step.Tick? && !step.Acquire? && step.thread == t ==>
              var threads := Apply(s, step).threads;
              t in threads ==> StepsLeft(threads[t]) < StepsLeft(s.threads[t])
    ensures s.threads[t].Holding? ==> t !in Apply(s, Release(t)).threads
  {
    var step := match s.threads[t]
      case Holding => Release(t)
      case RollingBack => RollBack(t)
      case Shedding => Count(t)
      case Counted(_) => ReadClock(t)
      case Timed(_, _) => ReadLast(t)
      case Warning(_, _, _) => Swap(t);
    assert Enabled(s, step);
  }

  /** Between steps `i` and `j` the thread takes none. */
  ghost predicate Rests(steps: seq<Step>, t: nat, i: nat, j: nat) {
    i < j <= |steps| && forall m :: i < m < j ==> steps[m].Tick? || steps[m].thread != t
  }

  lemma {:induction false} RestingStays(run: seq<State>, steps: seq<Step>, t: nat, i: nat, j: nat)
    requires IsRun(run, steps) && Rests(steps, t, i, j)
    ensures t in run[i + 1].threads ==> t in run[j].threads && run[j].threads[t] == run[i + 1].threads[t]
    decreases j
  {
    if i + 1 < j {
      RestingStays(run, steps, t, i, j - 1);
      assert run[j] == Apply(run[j - 1], steps[j - 1]);
    }
  }

  /**
   What one thread does about a connection it has shed: it counts it (step `c`), reads the clock (`r`)
   and the last stamp (`k`), and leaves, there and then or by a swap (`i`).
   */
  ghost predicate NotesShed(run: seq<State>, steps: seq<Step>, t: nat, c: nat, r: nat, k: nat, i: nat)
    requires |run| == |steps| + 1
  {
    && c < r < k <= i < |steps| && steps[c] == Count(t) && steps[r] == ReadClock(t) && steps[k] == ReadLast(t)
    && Rests(steps, t, c, r) && Rests(steps, t, r, k)
    && (if i == k then t !in run[k + 1].threads else steps[i] == Swap(t) && Rests(steps, t, k, i))
  }

  /** How many connections were counted shed in the first `n` steps. */
  ghost function Sheds(steps: seq<Step>, n: nat): nat
    requires n <= |steps|
  {
    if n == 0 then 0 else Sheds(steps, n - 1) + if steps[n - 1].Count? then 1 else 0
  }

  lemma {:induction false} ShedsAreSheds(run: seq<State>, steps: seq<Step>, n: nat)
    requires IsRun(run, steps) && n < |run|
    ensures run[n].sheds == Sheds(steps, n)
  {
    if n > 0 {
      ShedsAreSheds(run, steps, n - 1);
    }
  }

  lemma NotesKnown(run: seq<State>, steps: seq<Step>, t: nat, c: nat, r: nat, k: nat, i: nat)
    requires IsRun(run, steps) && NotesShed(run, steps, t, c, r, k, i)
    ensures t in run[k].threads && run[k].threads[t] == Timed(Sheds(steps, c + 1), run[r].clock)
    ensures k < i ==> t in run[i].threads && run[i].threads[t] == Warning(Sheds(steps, c + 1), run[r].clock, run[k].last)
  {
    ShedsAreSheds(run, steps, c + 1);
    assert run[c + 1].threads[t] == Counted(Sheds(steps, c + 1));
    RestingStays(run, steps, t, c, r);
    assert run[r + 1].threads[t] == Timed(Sheds(steps, c + 1), run[r].clock);
    RestingStays(run, steps, t, r, k);
    if k < i {
      assert Enabled(run[i], steps[i]);
      if t in run[k + 1].threads {
        RestingStays(run, steps, t, k, i);
      } else {
        GoneUntilAcquired(run, steps, t, k, i);
      }
    }
  }

  lemma {:induction false} GoneUntilAcquired(run: seq<State>, steps: seq<Step>, t: nat, i: nat, j: nat)
    requires IsRun(run, steps) && Rests(steps, t, i, j) && t !in run[i + 1].threads
    ensures t !in run[j].threads
    decreases j
  {
    if i + 1 < j {
      GoneUntilAcquired(run, steps, t, i, j - 1);
      assert run[j] == Apply(run[j - 1], steps[j - 1]);
    }
  }

  lemma {:induction false} PrintedGrows(run: seq<State>, steps: seq<Step>, i: nat, j: nat)
    requires IsRun(run, steps) && i <= j < |run|
    ensures run[i].printed <= run[j].printed
    decreases j
  {
    if i < j {
      PrintedGrows(run, steps, i, j - 1);
      assert run[j] == Apply(run[j - 1], steps[j - 1]);
    }
  }

  /** The last line printed is less than an interval older than `now`. */
  predicate SaidLately(s: State, now: nat) {
    s.printed != [] && s.printed[|s.printed| - 1].stamp + SHED_WARN_INTERVAL_MS > now
  }

  /** Lines were printed between steps `k` and `i`, all by threads that had read the clock an interval or more before `now`. */
  ghost predicate OnlyStaleLines(run: seq<State>, k: nat, i: nat, now: nat)
    requires k < |run| && i < |run|
  {
    && |run[k].printed| < |run[i].printed|
    && forall n :: |run[k].printed| <= n < |run[i].printed| ==> run[i].printed[n].stamp + SHED_WARN_INTERVAL_MS <= now
  }

  lemma LastStampTells(run: seq<State>, steps: seq<Step>, k: nat, i: nat)
    requires IsRun(run, steps) && k <= i < |run|
    ensures run[k].last == run[i].last <==> |run[k].printed| == |run[i].printed|
  {
    RunInv(run, steps, k);
    RunInv(run, steps, i);
    PrintedGrows(run, steps, k, i);
    var before, after := |run[k].printed|, |run[i].printed|;
    if 0 < before < after {
      SpacedApart(run[i].printed, before - 1, after - 1);
      assert run[k].printed[before - 1] == run[i].printed[before - 1];
    }
  }

  lemma LastIsStale(run: seq<State>, steps: seq<Step>, k: nat, i: nat, now: nat)
    requires IsRun(run, steps) && k <= i < |run| && |run[k].printed| < |run[i].printed|
    ensures OnlyStaleLines(run, k, i, now) <==> !SaidLately(run[i], now)
  {
    RunInv(run, steps, i);
    var last := |run[i].printed| - 1;
    forall n | |run[k].printed| <= n < last ensures run[i].printed[n].stamp <= run[i].printed[last].stamp {
      SpacedApart(run[i].printed, n, last);
    }
  }

  /**
   No flood goes on in silence: when a thread that shed a connection is done, the last line printed is
   less than an interval older than its own look at the clock; with one exception, which is exact.
   It looked at the last stamp, and before its swap others printed, all of whom had read the clock
   an interval or more before it did.
   */
  lemma EachShedIsSaidLately(run: seq<State>, steps: seq<Step>, t: nat, c: nat, r: nat, k: nat, i: nat)
    requires IsRun(run, steps) && NotesShed(run, steps, t, c, r, k, i)
    ensures t !in run[i + 1].threads
    ensures SaidLately(run[i + 1], run[r].clock) <==> !OnlyStaleLines(run, k, i, run[r].clock)
  {
    var now := run[r].clock;
    NotesKnown(run, steps, t, c, r, k, i);
    RunInv(run, steps, k);
    PrintedGrows(run, steps, k, i);
    LastStampTells(run, steps, k, i);
    if |run[k].printed| < |run[i].printed| {
      LastIsStale(run, steps, k, i, now);
    }
    assert run[i + 1] == Apply(run[i], steps[i]);
  }

  /** A line carries its thread's look at the clock, and the number of connections shed up to its own. */
  lemma LinesReportTheCount(run: seq<State>, steps: seq<Step>, t: nat, c: nat, r: nat, k: nat, i: nat)
    requires IsRun(run, steps) && NotesShed(run, steps, t, c, r, k, i)
    ensures run[i + 1].printed == run[i].printed || run[i + 1].printed == run[i].printed + [Line(run[r].clock, Sheds(steps, c + 1))]
  {
    NotesKnown(run, steps, t, c, r, k, i);
    assert run[i + 1] == Apply(run[i], steps[i]);
  }

  // ----- the exception happens ------------------------------------------------------------------------

  lemma Advance(run: seq<State>, steps: seq<Step>, step: Step) returns (run': seq<State>, steps': seq<Step>)
    requires IsRun(run, steps) && Enabled(run[|steps|], step)
    ensures IsRun(run', steps') && run <= run' && steps' == steps + [step] && run'[|steps'|] == Apply(run[|steps|], step)
  {
    run', steps' := run + [Apply(run[|steps|], step)], steps + [step];
    forall i | 0 <= i < |steps'|
      ensures Enabled(run'[i], steps'[i]) && run'[i + 1] == Apply(run'[i], steps'[i])
    {
      if i < |steps| {
        assert run'[i] == run[i] && run'[i + 1] == run[i + 1];
      }
    }
  }

  function Holders(n: nat): (threads: map<nat, Pc>)
    ensures forall t: nat :: t in threads <==> t < n
  {
    if n == 0 then map[] else Holders(n - 1)[n - 1 := Holding]
  }

  lemma {:induction false} GateFills(n: nat) returns (run: seq<State>, steps: seq<Step>)
    requires n <= MAX_IN_FLIGHT_HANDSHAKES
    ensures IsRun(run, steps) && |steps| == n && run[|steps|] == State(n, 0, SHED_WARN_NEVER, 0, Holders(n), 0, [])
  {
    if n == 0 {
      run, steps := [State(0, 0, SHED_WARN_NEVER, 0, map[], 0, [])], [];
    } else {
      run, steps := GateFills(n - 1);
      run, steps := Advance(run, steps, Acquire(n - 1));
      assert run[|steps|].threads == Holders(n);
    }
  }

  lemma {:induction false} TimePasses(run: seq<State>, steps: seq<Step>, ms: nat) returns (run': seq<State>, steps': seq<Step>)
    requires IsRun(run, steps) && run[|steps|].clock + ms < SHED_WARN_NEVER
    ensures IsRun(run', steps') && run <= run' && steps <= steps' && |steps'| == |steps| + ms
    ensures forall i :: |steps| <= i < |steps'| ==> steps'[i].Tick?
    ensures run'[|steps'|] == run[|steps|].(clock := run[|steps|].clock + ms)
  {
    run', steps' := run, steps;
    if ms > 0 {
      run', steps' := TimePasses(run, steps, ms - 1);
      run', steps' := Advance(run', steps', Tick);
    }
  }

  /** Threads that hold the gate, with 128 and 129 not among them. */
  ghost predicate LeavesOut(base: map<nat, Pc>) {
    128 !in base && 129 !in base
  }

  /** One more connection is shed, by thread `t`. */
  lemma OneShed(run: seq<State>, steps: seq<Step>, t: nat) returns (run': seq<State>, steps': seq<Step>)
    requires IsRun(run, steps)
    requires var s := run[|steps|]; t !in s.threads && s.slots == MAX_IN_FLIGHT_HANDSHAKES
    ensures IsRun(run', steps') && run <= run' && steps' == steps + [Acquire(t), RollBack(t), Count(t)]
    ensures var s := run[|steps|];
            run'[|steps'|] == s.(sheds := s.sheds + 1, refused := s.refused + 1, threads := s.threads[t := Counted(s.sheds + 1)])
  {
    run', steps' := Advance(run, steps, Acquire(t));
    run', steps' := Advance(run', steps', RollBack(t));
    run', steps' := Advance(run', steps', Count(t));
    assert run'[|steps'|].threads == run[|steps|].threads[t := Counted(run[|steps|].sheds + 1)];
  }

  /** The gate is full, and two connections have been shed and counted, the second by step 133. */
  lemma TwoShed() returns (run: seq<State>, steps: seq<Step>, base: map<nat, Pc>)
    ensures LeavesOut(base) && IsRun(run, steps) && |steps| == 134 && steps[133] == Count(129)
    ensures run[|steps|] == State(128, 2, SHED_WARN_NEVER, 0, base[128 := Counted(1)][129 := Counted(2)], 2, [])
  {
    run, steps := GateFills(128);
    base := run[|steps|].threads;
    run, steps := OneShed(run, steps, 128);
    run, steps := OneShed(run, steps, 129);
  }

  /** Thread 128 has read the clock a minute before thread 129, whose look at it is the last step. */
  lemma MinuteApart() returns (run: seq<State>, steps: seq<Step>, base: map<nat, Pc>)
    ensures IsRun(run, steps) && |steps| > 134 && steps[133] == Count(129) && Rests(steps, 129, 133, |steps| - 1)
    ensures steps[|steps| - 1] == ReadClock(129) && run[|steps| - 1].clock == SHED_WARN_INTERVAL_MS
    ensures LeavesOut(base)
    ensures run[|steps|] == State(128, 2, SHED_WARN_NEVER, SHED_WARN_INTERVAL_MS,
                                  base[128 := Timed(1, 0)][129 := Timed(2, SHED_WARN_INTERVAL_MS)], 2, [])
  {
    var first, early;
    first, early, base := TwoShed();
    run, steps := Advance(first, early, ReadClock(128));
    assert run[|steps|].threads == base[128 := Timed(1, 0)][129 := Counted(2)];
    ghost var looked := steps;
    run, steps := TimePasses(run, steps, SHED_WARN_INTERVAL_MS);
    forall m | 133 < m < |steps| ensures steps[m].Tick? || steps[m].thread != 129 {
      if m < |looked| {
        assert steps[m] == looked[m] == ReadClock(128);
      }
    }
    assert steps[133] == looked[133];
    run, steps := Advance(run, steps, ReadClock(129));
    assert run[|steps|].threads == base[128 := Timed(1, 0)][129 := Timed(2, SHED_WARN_INTERVAL_MS)];
  }

  /** Both look at the last stamp, thread 129 first. */
  lemma BothLook(run: seq<State>, steps: seq<Step>, base: map<nat, Pc>) returns (run': seq<State>, steps': seq<Step>)
    requires IsRun(run, steps) && LeavesOut(base)
    requires run[|steps|] == State(128, 2, SHED_WARN_NEVER, SHED_WARN_INTERVAL_MS,
                                   base[128 := Timed(1, 0)][129 := Timed(2, SHED_WARN_INTERVAL_MS)], 2, [])
    ensures IsRun(run', steps') && run <= run' && steps' == steps + [ReadLast(129), ReadLast(128)]
    ensures run'[|steps'|] == State(128, 2, SHED_WARN_NEVER, SHED_WARN_INTERVAL_MS,
                                    base[128 := Warning(1, 0, SHED_WARN_NEVER)][129 := Warning(2, SHED_WARN_INTERVAL_MS, SHED_WARN_NEVER)], 2, [])
  {
    run', steps' := Advance(run, steps, ReadLast(129));
    assert run'[|steps'|].threads == base[128 := Timed(1, 0)][129 := Warning(2, SHED_WARN_INTERVAL_MS, SHED_WARN_NEVER)];
    run', steps' := Advance(run', steps', ReadLast(128));
    assert run'[|steps'|].threads ==
           base[128 := Warning(1, 0, SHED_WARN_NEVER)][129 := Warning(2, SHED_WARN_INTERVAL_MS, SHED_WARN_NEVER)];
  }

  /** Thread 128 swaps and prints. */
  lemma EarlierPrints(run: seq<State>, steps: seq<Step>, base: map<nat, Pc>) returns (run': seq<State>, steps': seq<Step>)
    requires IsRun(run, steps) && LeavesOut(base)
    requires run[|steps|] == State(128, 2, SHED_WARN_NEVER, SHED_WARN_INTERVAL_MS,
                                   base[128 := Warning(1, 0, SHED_WARN_NEVER)][129 := Warning(2, SHED_WARN_INTERVAL_MS, SHED_WARN_NEVER)], 2, [])
    ensures IsRun(run', steps') && run <= run' && steps' == steps + [Swap(128)]
    ensures run'[|steps'|] == State(128, 2, 0, SHED_WARN_INTERVAL_MS,
                                    base[129 := Warning(2, SHED_WARN_INTERVAL_MS, SHED_WARN_NEVER)], 2, [Line(0, 1)])
  {
    run', steps' := Advance(run, steps, Swap(128));
    assert run'[|steps'|].threads == base[129 := Warning(2, SHED_WARN_INTERVAL_MS, SHED_WARN_NEVER)];
  }

  /**
   The exception happens: one thread reads the clock and is held up; a minute later another reads it, and
   finds no line printed yet; the first one prints, with its old stamp, and the second prints nothing.
   */
  lemma SlowThreadHidesALine() returns (run: seq<State>, steps: seq<Step>, t: nat, c: nat, r: nat, k: nat, i: nat)
    ensures IsRun(run, steps) && NotesShed(run, steps, t, c, r, k, i) && OnlyStaleLines(run, k, i, run[r].clock)
    ensures run[i + 1].printed == run[i].printed == [Line(0, 1)] && run[r].clock == SHED_WARN_INTERVAL_MS
  {
    var early, begun, base := MinuteApart();
    t, c, r, k, i := 129, 133, |begun| - 1, |begun|, |begun| + 3;
    run, steps := BothLook(early, begun, base);
    run, steps := EarlierPrints(run, steps, base);
    run, steps := Advance(run, steps, Swap(129));
    assert steps == begun + [ReadLast(129), ReadLast(128), Swap(128), Swap(129)];
    assert forall m :: 0 <= m < |begun| ==> steps[m] == begun[m];
    assert run[r] == early[r] && run[k] == early[k];
  }
}
