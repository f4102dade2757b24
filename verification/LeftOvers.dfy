/**
 Which couplings are left over once a node is gone and quiet. Monitors never are. A process
 link is exactly when the node's own reader recorded it too late for anyone to resolve it: such
 a request was still buffered when its connection had been swept.
 */
module LeftOvers {
  import opened Wrappers
  import opened Couplings
  import opened Causes

  /** The step resolves `c`, or gives it somebody to: an exit, a cancel, a setup of it, or a new link to its node. */
  predicate Relieves(s: State, step: Step, c: Coupling) {
    match step
    case Inbound(d) => d == c
    case DoCancel(d) => d == c
    case DoRecord(_, d) => d == c
    case Enqueue(t, accepted) => !accepted && t in s.setups && s.setups[t].coupling == c
    case DoRegister(id) => id in s.net.joining && s.net.joining[id].0 == c.node
    case _ => false
  }

  /** The step records a peer's request for the link `c`, and nothing attends to `c`. */
  ghost predicate Strands(s: State, step: Step, c: Coupling) {
    step.InboundLink? && step.coupling == c && !Attended(s, c)
  }

  /** Step `j` strands `c`, and nothing up to state `i` relieves it. */
  ghost predicate StrandedAt(run: seq<State>, steps: seq<Step>, j: nat, i: nat, c: Coupling)
    requires |run| == |steps| + 1 && i <= |steps|
  {
    && j < i && Strands(run[j], steps[j], c)
    && forall k :: j < k < i ==> !Relieves(run[k], steps[k], c)
  }

  ghost predicate LeftOver(s: State, c: Coupling) {
    c in s.ledger.pending && !Attended(s, c)
  }

  lemma RegisterElsewhere(n: Net, id: nat, node: string)
    requires id in n.joining && n.joining[id].0 != node
    ensures node in Register(n, id).nodes <==> node in n.nodes
    ensures node in Register(n, id).teardowns <==> node in n.teardowns
  {}

  /** A node with no link and nothing under way stays so until a link to it registers. */
  lemma NobodyComes(s: State, step: Step, node: string)
    requires Enabled(s, step) && node !in s.net.nodes && node !in s.net.teardowns && node !in s.monitorSweeps
    requires !(step.DoRegister? && s.net.joining[step.id].0 == node)
    ensures var s' := Apply(s, step); node !in s'.net.nodes && node !in s'.net.teardowns && node !in s'.monitorSweeps
    ensures node !in s.linkSweeps ==> node !in Apply(s, step).linkSweeps
  {
    match step
    case DoRegister(id) =>
      RegisterElsewhere(s.net, id, node);
    case DoDrop(_, _) =>
    case DoNodedown(_) =>
    case SweepMonitors(_) =>
    case _ =>
  }

  lemma NoSetupComes(s: State, step: Step, c: Coupling, t: nat)
    requires Enabled(s, step) && !Relieves(s, step, c)
    requires t in Apply(s, step).setups && Apply(s, step).setups[t].coupling == c && !Apply(s, step).setups[t].stage.Routed?
    ensures t in s.setups && s.setups[t].coupling == c && !s.setups[t].stage.Routed?
  {}

  lemma UnattendedKept(s: State, step: Step, c: Coupling)
    requires Enabled(s, step) && !Attended(s, c) && !Relieves(s, step, c)
    ensures !Attended(Apply(s, step), c)
  {
    NobodyComes(s, step, c.node);
    var s' := Apply(s, step);
    forall t | t in s'.setups && s'.setups[t].coupling == c && !s'.setups[t].stage.Routed?
      ensures t in s.setups && s.setups[t].coupling == c && !s.setups[t].stage.Routed?
    {
      NoSetupComes(s, step, c, t);
    }
  }

  /** A step after which nothing attends to `c` did not relieve it. */
  lemma ReliefAttends(s: State, step: Step, c: Coupling)
    requires Enabled(s, step) && !Attended(s, c) && Relieves(s, step, c)
    ensures c !in Apply(s, step).ledger.pending || Attended(Apply(s, step), c)
  {
    var s' := Apply(s, step);
    if step.DoRecord? || step.Enqueue? {
      assert s'.setups[step.thread].coupling == c && !s'.setups[step.thread].stage.Routed?;
      assert SettingUp(s', c);
    }
  }

  lemma LeftOverStays(s: State, step: Step, c: Coupling)
    requires Enabled(s, step) && LeftOver(s, c) && !Relieves(s, step, c)
    ensures LeftOver(Apply(s, step), c)
  {
    UnattendedKept(s, step, c);
    PendingStays(s, step, c);
  }

  /** Only an exit, a cancel, a sweep of the node or the fallback of a setup takes an entry off. */
  lemma PendingStays(s: State, step: Step, c: Coupling)
    requires Enabled(s, step) && LeftOver(s, c) && !Relieves(s, step, c)
    ensures c in Apply(s, step).ledger.pending
  {
    match step
    case SweepMonitors(_) =>
    case SweepLinks(_) =>
    case Fallback(t) => assert s.setups[t].coupling == c ==> SettingUp(s, c);
    case Inbound(_) =>
    case DoCancel(_) =>
    case _ =>
  }

  /** An entry is left over after a step exactly when the step strands it, or it was before and the step does not relieve it. */
  lemma LeftOverLaw(s: State, step: Step, c: Coupling)
    requires Enabled(s, step)
    ensures LeftOver(Apply(s, step), c) <==> Strands(s, step, c) || (LeftOver(s, c) && !Relieves(s, step, c))
  {
    if Strands(s, step, c) {
      UnattendedKept(s, step, c);
    } else if LeftOver(s, c) {
      if Relieves(s, step, c) {
        ReliefAttends(s, step, c);
      } else {
        LeftOverStays(s, step, c);
      }
    } else if LeftOver(Apply(s, step), c) {
      NotLeftOverBefore(s, step, c);
    }
  }

  lemma NotLeftOverBefore(s: State, step: Step, c: Coupling)
    requires Enabled(s, step) && !LeftOver(s, c) && LeftOver(Apply(s, step), c)
    ensures Strands(s, step, c)
  {
    if Attended(s, c) {
      AttendedKept(s, step, c);
    } else {
      RecordedNow(s, step, c);
    }
  }

  /** What is set by one kind of event and cleared by another is set exactly when no clearing followed the last setting. */
  lemma {:induction false} SinceLast(on: nat -> bool, sets: nat -> bool, clears: nat -> bool, i: nat)
    requires !on(0) && forall k: nat :: k < i ==> (on(k + 1) <==> sets(k) || (on(k) && !clears(k)))
    ensures on(i) <==> exists j: nat :: j < i && sets(j) && forall k: nat :: j < k < i ==> !clears(k)
  {
    if i > 0 {
      SinceLast(on, sets, clears, i - 1);
      assert on(i - 1 + 1) <==> sets(i - 1) || (on(i - 1) && !clears(i - 1));
      if on(i) {
        if sets(i - 1) {
          assert forall k: nat :: i - 1 < k < i ==> !clears(k);
        } else {
          var j: nat :| j < i - 1 && sets(j) && forall k: nat :: j < k < i - 1 ==> !clears(k);
          assert forall k: nat :: j < k < i ==> !clears(k);
        }
      }
      if j: nat :| j < i && sets(j) && forall k: nat :: j < k < i ==> !clears(k) {
        if j < i - 1 {
          assert forall k: nat :: j < k < i - 1 ==> !clears(k);
        }
      }
    }
  }

  /** The law holds at every step, and nothing is left over at first. */
  ghost predicate Lawful(run: seq<State>, steps: seq<Step>, c: Coupling) {
    && |run| == |steps| + 1 && !LeftOver(run[0], c)
    && forall k: nat :: k < |steps| ==>
         (LeftOver(run[k + 1], c) <==> Strands(run[k], steps[k], c) || (LeftOver(run[k], c) && !Relieves(run[k], steps[k], c)))
  }

  lemma RunIsLawful(run: seq<State>, steps: seq<Step>, c: Coupling)
    requires IsRun(run, steps)
    ensures Lawful(run, steps, c)
  {
    forall k: nat | k < |steps|
      ensures LeftOver(run[k + 1], c) <==> Strands(run[k], steps[k], c) || (LeftOver(run[k], c) && !Relieves(run[k], steps[k], c))
    {
      LeftOverLaw(run[k], steps[k], c);
    }
  }

  lemma LeftOverSinceStranded(run: seq<State>, steps: seq<Step>, i: nat, c: Coupling)
    requires Lawful(run, steps, c) && i < |run|
    ensures LeftOver(run[i], c) <==> exists j: nat :: StrandedAt(run, steps, j, i, c)
  {
    var on := (k: nat) => k < |run| && LeftOver(run[k], c);
    var sets := (k: nat) => k < |steps| && Strands(run[k], steps[k], c);
    var clears := (k: nat) => k < |steps| && Relieves(run[k], steps[k], c);
    SinceLast(on, sets, clears, i);
    if j: nat :| j < i && sets(j) && forall k: nat :: j < k < i ==> !clears(k) {
      forall k | j < k < i ensures !Relieves(run[k], steps[k], c) {
        assert !clears(k);
      }
      assert StrandedAt(run, steps, j, i, c);
    }
    if j: nat :| StrandedAt(run, steps, j, i, c) {
      assert sets(j) && forall k: nat :: j < k < i ==> !clears(k);
    }
  }

  lemma RecordedNow(s: State, step: Step, c: Coupling)
    requires Enabled(s, step) && c !in s.ledger.pending && c in Apply(s, step).ledger.pending
    ensures if step.DoRecord? then Attended(Apply(s, step), c) else step.InboundLink? && step.coupling == c
  {
    if step.DoRecord? {
      assert Apply(s, step).setups[step.thread] == Setup(c, Recorded);
      assert SettingUp(Apply(s, step), c);
    }
  }

  /**
   Once a node is gone and quiet, what is still pending for it is exactly the process links
   that its reader recorded when nothing attended to them any more and that nothing has
   relieved since: no monitor, and no link any process here made.
   */
  lemma LeftOverExactlyWhenStranded(run: seq<State>, steps: seq<Step>, i: nat, c: Coupling)
    requires IsRun(run, steps) && i < |run| && QuietFor(run[i], c.node)
    ensures c in run[i].ledger.pending <==> exists j: nat :: StrandedAt(run, steps, j, i, c)
  {
    QuietIsUnattended(run[i], c);
    RunIsLawful(run, steps, c);
    LeftOverSinceStranded(run, steps, i, c);
  }

  lemma QuietIsUnattended(s: State, c: Coupling)
    requires QuietFor(s, c.node)
    ensures !Attended(s, c)
  {}

  /** A run in which every link request is read while somebody attends to it leaves nothing over. */
  lemma NothingOrphaned(run: seq<State>, steps: seq<Step>, i: nat, c: Coupling)
    requires IsRun(run, steps) && i < |run| && QuietFor(run[i], c.node)
    requires forall j :: 0 <= j < i && steps[j].InboundLink? && steps[j].coupling == c ==> Attended(run[j], c)
    ensures c !in run[i].ledger.pending
  {
    LeftOverExactlyWhenStranded(run, steps, i, c);
  }

  lemma MonitorsAreNotRequested(run: seq<State>, steps: seq<Step>, i: nat, c: Coupling)
    requires IsRun(run, steps) && i < |run| && c.Monitor?
    ensures forall j :: 0 <= j < i && steps[j].InboundLink? ==> steps[j].coupling != c
  {
    forall j | 0 <= j < i && steps[j].InboundLink? ensures steps[j].coupling != c {
      assert Enabled(run[j], steps[j]);
    }
  }

  /**
   And then a monitor of that node, if a process recorded one, was told of exactly once; or not at all, if a
   cancel found it pending.
   */
  lemma MonitorOfGoneNodeIsTold(run: seq<State>, steps: seq<Step>, i: nat, c: Coupling)
    requires IsRun(run, steps) && i < |run| && c.Monitor?
    requires exists j :: 0 <= j < i && steps[j].DoRecord? && steps[j].coupling == c
    requires QuietFor(run[i], c.node)
    ensures run[i].ledger.notices[c] == if WasCalledOff(run, steps, i, c) then 0 else 1
  {
    MonitorsAreNotRequested(run, steps, i, c);
    NothingOrphaned(run, steps, i, c);
    MonitorFiresAtMostOnce(run, steps, i, c);
  }
}
