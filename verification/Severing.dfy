/**
 What the sweep at an eviction is for. A monitor's request is queued on one link; if another
 link takes its place, whatever was queued dies with it. In every reachable state a pending
 monitor's request is on the registered link, or still to be put on one, or a sweep is on its
 way that will resolve the monitor.
 */
module Severing {
  import opened Wrappers
  import opened Couplings

  /** A teardown or sweep that will reach the monitors of `node` is under way. */
  ghost predicate Sweeping(s: State, node: string) {
    node in s.net.teardowns || node in s.monitorSweeps
  }

  /** Thread `t` has found the registered link and is about to queue the request on it. */
  ghost predicate AboutToSend(s: State, t: nat, c: Coupling) {
    && t in s.setups && s.setups[t].coupling == c && s.setups[t].stage.Routed?
    && IsCurrent(s.net, c.node, s.setups[t].stage.link)
  }

  /** The request for `c` is queued on the registered link, or its setup is still to find one, or a sweep is coming. */
  ghost predicate Carried(s: State, c: Coupling) {
    || Sweeping(s, c.node)
    || SettingUp(s, c)
    || (exists t :: AboutToSend(s, t, c))
    || (c in s.sentOn && IsCurrent(s.net, c.node, s.sentOn[c]))
  }

  ghost predicate MonitorsCarried(s: State) {
    forall c :: c in s.ledger.pending && c.Monitor? ==> Carried(s, c)
  }

  /** References are fresh, so a monitor has one setup, and none any more once its request is queued. */
  ghost predicate SetupsUnique(s: State) {
    && (forall t :: t in s.setups && s.setups[t].coupling.Monitor? ==> s.setups[t].coupling.mref < s.ledger.refs)
    && (forall t, u :: t in s.setups && u in s.setups && s.setups[t].coupling.Monitor? && s.setups[t].coupling == s.setups[u].coupling ==>
                         t == u)
    && (forall c :: c in s.sentOn && c.Monitor? ==> c.mref < s.ledger.refs && forall t :: t in s.setups ==> s.setups[t].coupling != c)
  }

  lemma RefsGrow(s: State, step: Step)
    requires Enabled(s, step)
    ensures Apply(s, step).ledger.refs >= s.ledger.refs
  {}

  lemma SetupsUniqueKept(s: State, step: Step)
    requires SetupsUnique(s) && Enabled(s, step)
    ensures SetupsUnique(Apply(s, step))
  {
    RefsGrow(s, step);
    if step.DoRecord? {
      RecordKeepsUnique(s, step);
    } else if step.Route? || step.Enqueue? || step.Fallback? {
      SetupKeepsUnique(s, step);
    } else {
      OtherStepsKeepSetups(s, step);
    }
  }

  lemma RecordKeepsUnique(s: State, step: Step)
    requires SetupsUnique(s) && Enabled(s, step) && step.DoRecord?
    ensures SetupsUnique(Apply(s, step))
  {}

  lemma SetupKeepsUnique(s: State, step: Step)
    requires SetupsUnique(s) && Enabled(s, step) && (step.Route? || step.Enqueue? || step.Fallback?)
    ensures SetupsUnique(Apply(s, step))
  {
    var s' := Apply(s, step);
    assert s'.ledger.refs == s.ledger.refs;
    assert forall t :: t in s'.setups ==> t in s.setups && s'.setups[t].coupling == s.setups[t].coupling;
  }

  lemma RegisterLeaves(n: Net, id: nat, node: string, current: nat)
    requires id in n.joining && IsCurrent(n, node, current)
    ensures || IsCurrent(Register(n, id), node, current) || node in Register(n, id).teardowns
            || (Evicts(n, id) && n.joining[id].0 == node)
  {}

  /** A registered link that stops being so leaves a teardown or a sweep: removal a teardown, eviction a sweep. */
  lemma LeavingLinkIsSwept(s: State, step: Step, node: string, id: nat)
    requires Enabled(s, step) && IsCurrent(s.net, node, id)
    ensures IsCurrent(Apply(s, step).net, node, id) || Sweeping(Apply(s, step), node)
  {
    if step.DoRegister? {
      RegisterLeaves(s.net, step.id, node, id);
    }
  }

  /** A sweep under way goes on until it has claimed every monitor of its node. */
  lemma SweepingKept(s: State, step: Step, c: Coupling)
    requires Enabled(s, step) && Sweeping(s, c.node) && c.Monitor? && c in Apply(s, step).ledger.pending
    ensures Sweeping(Apply(s, step), c.node)
  {
    if c.node in s.net.teardowns {
      TeardownKept(s, step, c.node);
    } else {
      MonitorSweepKept(s, step, c);
    }
  }

  lemma TeardownKept(s: State, step: Step, node: string)
    requires Enabled(s, step) && node in s.net.teardowns
    ensures Sweeping(Apply(s, step), node)
  {
    match step
    case DoRegister(id) => RegisterKeepsTeardowns(s.net, id, node);
    case DoDrop(_, _) =>
    case DoNodedown(_) =>
    case _ =>
  }

  lemma MonitorSweepKept(s: State, step: Step, c: Coupling)
    requires Enabled(s, step) && c.node in s.monitorSweeps && c.Monitor? && c in Apply(s, step).ledger.pending
    ensures c.node in Apply(s, step).monitorSweeps
  {
    match step
    case DoRegister(_) =>
    case DoNodedown(_) =>
    case SweepMonitors(_) =>
    case _ =>
  }

  lemma RegisterKeepsTeardowns(n: Net, id: nat, node: string)
    requires id in n.joining && node in n.teardowns
    ensures node in Register(n, id).teardowns
  {}

  lemma AboutToSendKept(s: State, step: Step, c: Coupling, t: nat)
    requires Enabled(s, step) && SetupsUnique(s) && c.Monitor? && AboutToSend(s, t, c)
    ensures Carried(Apply(s, step), c)
  {
    var s' := Apply(s, step);
    LeavingLinkIsSwept(s, step, c.node, s.setups[t].stage.link);
    if step.Enqueue? && step.thread == t {
      if !step.accepted {
        assert s'.setups[t] == Setup(c, Refused);
        assert SettingUp(s', c);
      }
    } else {
      assert t in s'.setups && s'.setups[t] == s.setups[t];
      assert IsCurrent(s'.net, c.node, s.setups[t].stage.link) ==> AboutToSend(s', t, c);
    }
  }

  lemma SettingUpCarries(s: State, step: Step, c: Coupling)
    requires Enabled(s, step) && SettingUp(s, c) && c in Apply(s, step).ledger.pending
    ensures Carried(Apply(s, step), c)
  {
    var s' := Apply(s, step);
    var t :| t in s.setups && s.setups[t].coupling == c && !s.setups[t].stage.Routed?;
    if t in s'.setups && s'.setups[t].coupling == c && !s'.setups[t].stage.Routed? {
      assert SettingUp(s', c);
    } else {
      assert step == Route(t) && AboutToSend(s', t, c);
    }
  }

  lemma CarriedKept(s: State, step: Step, c: Coupling)
    requires Enabled(s, step) && SetupsUnique(s) && Carried(s, c) && c.Monitor? && c in Apply(s, step).ledger.pending
    ensures Carried(Apply(s, step), c)
  {
    if Sweeping(s, c.node) {
      SweepingKept(s, step, c);
    } else if SettingUp(s, c) {
      SettingUpCarries(s, step, c);
    } else if t :| AboutToSend(s, t, c) {
      AboutToSendKept(s, step, c, t);
    } else {
      SentCarries(s, step, c);
    }
  }

  /** A request already queued stays on its link, for as long as that is registered. */
  lemma SentCarries(s: State, step: Step, c: Coupling)
    requires Enabled(s, step) && SetupsUnique(s) && c.Monitor?
    requires c in s.sentOn && IsCurrent(s.net, c.node, s.sentOn[c])
    ensures Carried(Apply(s, step), c)
  {
    LeavingLinkIsSwept(s, step, c.node, s.sentOn[c]);
  }

  lemma MonitorsCarriedKept(s: State, step: Step)
    requires MonitorsCarried(s) && SetupsUnique(s) && Enabled(s, step)
    ensures MonitorsCarried(Apply(s, step))
  {
    var s' := Apply(s, step);
    forall c | c in s'.ledger.pending && c.Monitor? ensures Carried(s', c) {
      if c in s.ledger.pending {
        CarriedKept(s, step, c);
      } else {
        assert step.DoRecord? && s'.setups[step.thread] == Setup(c, Recorded);
        assert SettingUp(s', c);
      }
    }
  }

  lemma {:induction false} RunCarries(run: seq<State>, steps: seq<Step>, i: nat)
    requires IsRun(run, steps) && i < |run|
    ensures SetupsUnique(run[i]) && MonitorsCarried(run[i])
  {
    if i > 0 {
      RunCarries(run, steps, i - 1);
      SetupsUniqueKept(run[i - 1], steps[i - 1]);
      MonitorsCarriedKept(run[i - 1], steps[i - 1]);
    }
  }

  /**
   A pending monitor whose setup is done has its request queued on the link that is
   registered now, or its node has a teardown or sweep under way: an eviction never leaves it
   on a link that is gone.
   */
  lemma MonitorIsOnTheRegisteredLink(run: seq<State>, steps: seq<Step>, i: nat, c: Coupling)
    requires IsRun(run, steps) && i < |run| && c.Monitor? && c in run[i].ledger.pending
    requires forall t :: t in run[i].setups ==> run[i].setups[t].coupling != c
    ensures || c.node in run[i].net.teardowns || c.node in run[i].monitorSweeps
            || (c in run[i].sentOn && IsCurrent(run[i].net, c.node, run[i].sentOn[c]))
  {
    RunCarries(run, steps, i);
    assert Carried(run[i], c);
  }
}
