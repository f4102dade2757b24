/**
 What every result of a run had for a cause. A monitor is told exactly by the step that claims it
 while it is pending, and called off exactly by a cancel that finds it so; what is made was
 recorded; a sweep was earned by a node-down or an eviction; a setup falls back only when no
 link was there or the link's queue refused; and a link that has been decided on was either
 registered, or lost to one that was not dialed by a later name.
 */
module Causes {
  import opened Wrappers
  import opened NodeNames
  import opened Couplings
  import Links

  /** How many of the first `i` steps are of a kind. */
  ghost function Count(kind: (State, Step) -> bool, run: seq<State>, steps: seq<Step>, i: nat): nat
    requires |run| == |steps| + 1 && i <= |steps|
  {
    if i == 0 then 0 else Count(kind, run, steps, i - 1) + if kind(run[i - 1], steps[i - 1]) then 1 else 0
  }

  lemma {:induction false} CountTells(kind: (State, Step) -> bool, run: seq<State>, steps: seq<Step>, i: nat)
    requires |run| == |steps| + 1 && i <= |steps|
    ensures Count(kind, run, steps, i) > 0 <==> exists j :: 0 <= j < i && kind(run[j], steps[j])
  {
    if i > 0 {
      CountTells(kind, run, steps, i - 1);
    }
  }

  /** A number that starts at 0 and grows by one with every step of a kind counts those steps. */
  lemma {:induction false} Counts(number: State -> int, kind: (State, Step) -> bool, run: seq<State>, steps: seq<Step>, i: nat)
    requires |run| == |steps| + 1 && i <= |steps| && number(run[0]) == 0
    requires forall j :: 0 <= j < i ==> number(run[j + 1]) == number(run[j]) + if kind(run[j], steps[j]) then 1 else 0
    ensures number(run[i]) == Count(kind, run, steps, i)
  {
    if i > 0 {
      Counts(number, kind, run, steps, i - 1);
      assert number(run[i - 1 + 1]) == number(run[i - 1]) + if kind(run[i - 1], steps[i - 1]) then 1 else 0;
    }
  }

  // ----- couplings --------------------------------------------------------------------------------------

  /** The step calls `c` off, which it finds pending. */
  predicate CallsOff(s: State, step: Step, c: Coupling) {
    step == DoCancel(c) && c in s.ledger.pending
  }

  /** The step records `c`, which is not pending: a process here asks for it, or the peer's frame does. */
  predicate Makes(s: State, step: Step, c: Coupling) {
    c !in s.ledger.pending && ((step.DoRecord? && step.coupling == c) || (step.InboundLink? && step.coupling == c))
  }

  /**
   The step resolves `c`, which it finds pending: the peer's exit, a sweep of the node, or the fallback
   of a setup of `c` that could not reach the peer.
   */
  predicate Resolves(s: State, step: Step, c: Coupling) {
    && c in s.ledger.pending
    && (|| step == Inbound(c)
        || step == (if c.Monitor? then SweepMonitors(c.node) else SweepLinks(c.node))
        || (step.Fallback? && step.thread in s.setups && s.setups[step.thread].coupling == c))
  }

  lemma CancelCounts(s: State, step: Step, c: Coupling)
    requires Enabled(s, step)
    ensures Apply(s, step).ledger.cancelled[c] == s.ledger.cancelled[c] + if CallsOff(s, step, c) then 1 else 0
  {}

  lemma RecordCounts(l: Ledger, d: Coupling, c: Coupling)
    ensures Record(l, d).made[c] == l.made[c] + if d == c && c !in l.pending then 1 else 0
  {}

  lemma OthersMakeNothing(s: State, step: Step)
    requires Enabled(s, step) && !step.DoRecord? && !step.InboundLink?
    ensures Apply(s, step).ledger.made == s.ledger.made
  {}

  lemma MakingCounts(s: State, step: Step, c: Coupling)
    requires Enabled(s, step)
    ensures Apply(s, step).ledger.made[c] == s.ledger.made[c] + if Makes(s, step, c) then 1 else 0
  {
    match step
    case DoRecord(_, d) => RecordCounts(s.ledger, d, c);
    case InboundLink(_, _, d) => RecordCounts(s.ledger, d, c);
    case _ => OthersMakeNothing(s, step);
  }

  /** The couplings a step claims. */
  function Taken(s: State, step: Step): set<Coupling> {
    match step
    case SweepMonitors(peer) => MonitorsOf(s.ledger, peer)
    case SweepLinks(peer) => LinksOf(s.ledger, peer)
    case Fallback(t) => if t in s.setups then Only(s.ledger, s.setups[t].coupling) else {}
    case Inbound(c) => Only(s.ledger, c)
    case _ => {}
  }

  predicate IsClaim(step: Step) {
    step.SweepMonitors? || step.SweepLinks? || step.Fallback? || step.Inbound?
  }

  lemma TakenIsResolved(s: State, step: Step, c: Coupling)
    requires Enabled(s, step)
    ensures c in Taken(s, step) <==> Resolves(s, step, c)
  {
    match step
    case SweepMonitors(_) =>
    case SweepLinks(_) =>
    case Fallback(_) =>
    case Inbound(_) =>
    case _ =>
  }

  lemma ClaimsWhatItTakes(s: State, step: Step)
    requires Enabled(s, step) && IsClaim(step)
    ensures Apply(s, step).ledger == Claim(s.ledger, Taken(s, step))
  {
    match step
    case SweepMonitors(_) =>
    case SweepLinks(_) =>
    case Fallback(_) =>
    case Inbound(_) =>
  }

  lemma OthersTellNobody(s: State, step: Step, c: Coupling)
    requires Enabled(s, step) && !IsClaim(step)
    ensures Apply(s, step).ledger.notices[c] + Apply(s, step).ledger.claimed[c] == s.ledger.notices[c] + s.ledger.claimed[c]
  {}

  /** A monitor is told there and then, a link's exit is taken to be delivered. */
  lemma ResolvingCounts(s: State, step: Step, c: Coupling)
    requires Enabled(s, step)
    ensures var l, l' := s.ledger, Apply(s, step).ledger;
            l'.notices[c] + l'.claimed[c] == l.notices[c] + l.claimed[c] + if Resolves(s, step, c) then 1 else 0
  {
    TakenIsResolved(s, step, c);
    if IsClaim(step) {
      ClaimsWhatItTakes(s, step);
      ClaimCounts(s.ledger, Taken(s, step), c);
    } else {
      OthersTellNobody(s, step, c);
    }
  }

  lemma ClaimCounts(l: Ledger, taken: set<Coupling>, c: Coupling)
    ensures var l' := Claim(l, taken);
            l'.notices[c] + l'.claimed[c] == l.notices[c] + l.claimed[c] + if c in taken then 1 else 0
  {
    SplitByKind(taken);
    assert multiset(taken)[c] == if c in taken then 1 else 0;
  }

  ghost function CalledOff(run: seq<State>, steps: seq<Step>, i: nat, c: Coupling): nat
    requires |run| == |steps| + 1 && i <= |steps|
  {
    Count((s, step) => CallsOff(s, step, c), run, steps, i)
  }

  ghost function Made(run: seq<State>, steps: seq<Step>, i: nat, c: Coupling): nat
    requires |run| == |steps| + 1 && i <= |steps|
  {
    Count((s, step) => Makes(s, step, c), run, steps, i)
  }

  ghost function Resolved(run: seq<State>, steps: seq<Step>, i: nat, c: Coupling): nat
    requires |run| == |steps| + 1 && i <= |steps|
  {
    Count((s, step) => Resolves(s, step, c), run, steps, i)
  }

  /**
   In every run, couplings are called off exactly by the cancels that find them pending, made exactly by
   the records that do not, and told or on their way to be exactly by the steps that resolve them.
   */
  lemma EverythingHasItsStep(run: seq<State>, steps: seq<Step>, i: nat, c: Coupling)
    requires IsRun(run, steps) && i < |run|
    ensures run[i].ledger.cancelled[c] == CalledOff(run, steps, i, c)
    ensures run[i].ledger.made[c] == Made(run, steps, i, c)
    ensures run[i].ledger.notices[c] + run[i].ledger.claimed[c] == Resolved(run, steps, i, c)
  {
    forall j | 0 <= j < i
      ensures run[j + 1].ledger.cancelled[c] == run[j].ledger.cancelled[c] + if CallsOff(run[j], steps[j], c) then 1 else 0
    {
      CancelCounts(run[j], steps[j], c);
    }
    Counts((s: State) => s.ledger.cancelled[c], (s, step) => CallsOff(s, step, c), run, steps, i);
    forall j | 0 <= j < i
      ensures run[j + 1].ledger.made[c] == run[j].ledger.made[c] + if Makes(run[j], steps[j], c) then 1 else 0
    {
      MakingCounts(run[j], steps[j], c);
    }
    Counts((s: State) => s.ledger.made[c], (s, step) => Makes(s, step, c), run, steps, i);
    ResolvedHasItsStep(run, steps, i, c);
  }

  lemma ResolvedHasItsStep(run: seq<State>, steps: seq<Step>, i: nat, c: Coupling)
    requires IsRun(run, steps) && i < |run|
    ensures run[i].ledger.notices[c] + run[i].ledger.claimed[c] == Resolved(run, steps, i, c)
  {
    forall j | 0 <= j < i
      ensures run[j + 1].ledger.notices[c] + run[j + 1].ledger.claimed[c] ==
              run[j].ledger.notices[c] + run[j].ledger.claimed[c] + if Resolves(run[j], steps[j], c) then 1 else 0
    {
      ResolvingCounts(run[j], steps[j], c);
    }
    Counts((s: State) => s.ledger.notices[c] + s.ledger.claimed[c], (s, step) => Resolves(s, step, c), run, steps, i);
  }

  /** Some step before state `i` called `c` off. */
  ghost predicate WasCalledOff(run: seq<State>, steps: seq<Step>, i: nat, c: Coupling)
    requires |run| == |steps| + 1 && i <= |steps|
  {
    exists j :: 0 <= j < i && CallsOff(run[j], steps[j], c)
  }

  /** Some step before state `i` resolved `c`. */
  ghost predicate WasResolved(run: seq<State>, steps: seq<Step>, i: nat, c: Coupling)
    requires |run| == |steps| + 1 && i <= |steps|
  {
    exists j :: 0 <= j < i && Resolves(run[j], steps[j], c)
  }

  /**
   A monitor is told at most once: exactly when a step has resolved it, and then nobody had called it off
   or ever will. One that was recorded is pending, resolved or called off, and only one of these.
   */
  lemma MonitorFiresAtMostOnce(run: seq<State>, steps: seq<Step>, i: nat, c: Coupling)
    requires IsRun(run, steps) && i < |run| && c.Monitor?
    ensures run[i].ledger.notices[c] == if WasResolved(run, steps, i, c) then 1 else 0
    ensures !(WasResolved(run, steps, i, c) && WasCalledOff(run, steps, i, c))
    ensures c in run[i].ledger.pending ==> !WasResolved(run, steps, i, c) && !WasCalledOff(run, steps, i, c)
    ensures (exists j :: 0 <= j < i && steps[j].DoRecord? && steps[j].coupling == c) ==>
              c in run[i].ledger.pending || WasResolved(run, steps, i, c) || WasCalledOff(run, steps, i, c)
  {
    var l := run[i].ledger;
    RunInv(run, steps, i);
    EverythingHasItsStep(run, steps, i, c);
    CountTells((s, step) => Resolves(s, step, c), run, steps, i);
    CountTells((s, step) => CallsOff(s, step, c), run, steps, i);
    assert l.made[c] == multiset(l.pending)[c] + l.claimed[c] + l.notices[c] + l.cancelled[c];
    assert l.claimed[c] == 0 by {
      assert c in l.claimed ==> c.Link?;
    }
    if j :| 0 <= j < i && steps[j].DoRecord? && steps[j].coupling == c {
      RecordedIsMade(run, steps, j, i, c);
    }
  }

  lemma {:induction false} RecordedIsMade(run: seq<State>, steps: seq<Step>, j: nat, i: nat, c: Coupling)
    requires IsRun(run, steps) && j < i < |run| && steps[j].DoRecord? && steps[j].coupling == c
    ensures c in run[i].ledger.made
    decreases i
  {
    var s, step := run[i - 1], steps[i - 1];
    RunInv(run, steps, i - 1);
    MakingCounts(s, step, c);
    if j < i - 1 {
      RecordedIsMade(run, steps, j, i - 1, c);
    } else if c in s.ledger.pending {
      assert multiset(s.ledger.pending)[c] == 1;
    }
  }

  lemma MadeCouplings(run: seq<State>, steps: seq<Step>, i: nat, c: Coupling)
    requires IsRun(run, steps) && i < |run| && c in run[i].ledger.notices
    ensures c in run[i].ledger.made
  {
    RunInv(run, steps, i);
  }

  /** Two monitors told of under one reference are one monitor: the reference is its key. */
  lemma OneNoticePerReference(run: seq<State>, steps: seq<Step>, i: nat, c: Coupling, d: Coupling)
    requires IsRun(run, steps) && i < |run|
    requires c.Monitor? && d.Monitor? && c.mref == d.mref
    requires c in run[i].ledger.notices && d in run[i].ledger.notices
    ensures c == d && run[i].ledger.notices[c] == 1
  {
    RunInv(run, steps, i);
    MonitorFiresAtMostOnce(run, steps, i, c);
    MadeCouplings(run, steps, i, c);
    MadeCouplings(run, steps, i, d);
  }

  /**
   Every time a link between two processes was made it is pending, or was called off, or resolved; and
   each resolution is one exit, told or on its way.
   */
  lemma LinkExitsAreEarned(run: seq<State>, steps: seq<Step>, i: nat, c: Coupling)
    requires IsRun(run, steps) && i < |run| && c.Link?
    ensures Made(run, steps, i, c) ==
            Resolved(run, steps, i, c) + CalledOff(run, steps, i, c) + if c in run[i].ledger.pending then 1 else 0
    ensures run[i].ledger.notices[c] + run[i].ledger.claimed[c] == Resolved(run, steps, i, c)
  {
    var l := run[i].ledger;
    RunInv(run, steps, i);
    EverythingHasItsStep(run, steps, i, c);
    assert l.made[c] == multiset(l.pending)[c] + l.claimed[c] + l.notices[c] + l.cancelled[c];
  }

  // ----- sweeps -------------------------------------------------------------------------------------------

  /** The step registers a link to `peer` over a link to the same life of it that a later name dialed. */
  predicate Replaces(s: State, step: Step, peer: string) {
    && step.DoRegister? && step.id in s.net.joining && s.net.joining[step.id].0 == peer && peer in s.net.nodes
    && s.net.nodes[peer].incarnation == s.net.joining[step.id].1.incarnation
    && Before(s.net.joining[step.id].1.connector, s.net.nodes[peer].connector)
  }

  lemma SweepMoves(s: State, step: Step, peer: string)
    requires Enabled(s, step)
    ensures var s' := Apply(s, step);
            && s'.monitorSweeps[peer] + (if step == SweepMonitors(peer) then 1 else 0) ==
               s.monitorSweeps[peer] + (if step == DoNodedown(peer) || Replaces(s, step, peer) then 1 else 0)
            && s'.linkSweeps[peer] + (if step == SweepLinks(peer) then 1 else 0) ==
               s.linkSweeps[peer] + (if step == SweepMonitors(peer) then 1 else 0)
  {
    if step.DoRegister? {
      EvictsExactlyWhenReplacing(s, step, peer);
    }
  }

  lemma EvictsExactlyWhenReplacing(s: State, step: Step, peer: string)
    requires Enabled(s, step) && step.DoRegister?
    ensures Replaces(s, step, peer) <==> Evicts(s.net, step.id) && s.net.joining[step.id].0 == peer
  {}

  /**
   Couplings are swept for a reason, and for every reason: in every run the sweeps of a node's monitors, done
   and to be done, are as many as its node-downs and the links to it that were replaced; and each goes on to
   its process links.
   */
  lemma {:induction false} SweepsAreEarned(run: seq<State>, steps: seq<Step>, i: nat, peer: string)
    requires IsRun(run, steps) && i < |run|
    ensures var sweeps := Count((s, step) => step == SweepMonitors(peer), run, steps, i);
            && sweeps + run[i].monitorSweeps[peer] ==
               Count((s, step) => step == DoNodedown(peer) || Replaces(s, step, peer), run, steps, i)
            && Count((s, step) => step == SweepLinks(peer), run, steps, i) + run[i].linkSweeps[peer] == sweeps
  {
    if i > 0 {
      SweepsAreEarned(run, steps, i - 1, peer);
      SweepMoves(run[i - 1], steps[i - 1], peer);
    }
  }

  // ----- setups -------------------------------------------------------------------------------------------

  /** The setup in thread `t` finds no link to the node, or is refused by the link's queue. */
  predicate FailsToReach(s: State, step: Step, t: nat) {
    t in s.setups && ((step == Route(t) && s.setups[t].coupling.node !in s.net.nodes) || step == Enqueue(t, false))
  }

  /** The setup in thread `t` finds link `id` registered for its node. */
  predicate Finds(s: State, step: Step, t: nat, id: nat) {
    t in s.setups && step == Route(t) && IsCurrent(s.net, s.setups[t].coupling.node, id)
  }

  /** A setup has been refused only after it failed to reach its node, and goes to send only on a link that it found registered. */
  lemma {:induction false} SetupsHaveTheirReason(run: seq<State>, steps: seq<Step>, i: nat, t: nat)
    requires IsRun(run, steps) && i < |run| && t in run[i].setups
    ensures run[i].setups[t].stage.Refused? ==>
              exists j :: 0 <= j < i && FailsToReach(run[j], steps[j], t) && run[j].setups[t].coupling == run[i].setups[t].coupling
    ensures run[i].setups[t].stage.Routed? ==>
              exists j :: 0 <= j < i && Finds(run[j], steps[j], t, run[i].setups[t].stage.link)
                          && run[j].setups[t].coupling == run[i].setups[t].coupling
  {
    if i > 0 {
      var s, step, s' := run[i - 1], steps[i - 1], run[i];
      SetupMoves(s, step, s', t);
      if t in s.setups && s'.setups[t] == s.setups[t] {
        SetupsHaveTheirReason(run, steps, i - 1, t);
      }
    }
  }

  lemma SetupMoves(s: State, step: Step, s': State, t: nat)
    requires Enabled(s, step) && s' == Apply(s, step) && t in s'.setups
    ensures || (t in s.setups && s'.setups[t] == s.setups[t])
            || s'.setups[t].stage.Recorded?
            || (t in s.setups && s'.setups[t].coupling == s.setups[t].coupling
                && match s'.setups[t].stage
                   case Refused => FailsToReach(s, step, t)
                   case Routed(id) => Finds(s, step, t, id)
                   case Recorded => false)
  {
    match step
    case DoRecord(_, _) =>
    case Route(_) =>
    case Enqueue(_, _) =>
    case Fallback(_) =>
    case _ => OtherStepsKeepSetups(s, step);
  }

  /** A monitor is told that its node cannot be reached only by its own setup, which failed to reach it. */
  lemma FallbackHasItsReason(run: seq<State>, steps: seq<Step>, i: nat, t: nat)
    requires IsRun(run, steps) && i < |steps| && steps[i] == Fallback(t)
    ensures t in run[i].setups
    ensures exists j :: 0 <= j < i && FailsToReach(run[j], steps[j], t) && run[j].setups[t].coupling == run[i].setups[t].coupling
  {
    assert Enabled(run[i], steps[i]);
    SetupsHaveTheirReason(run, steps, i, t);
  }

  // ----- links --------------------------------------------------------------------------------------------

  /** The step makes `conn` the registered link of `peer`: there was none, or one to the same life, dialed by a later name. */
  predicate Wins(s: State, s': State, peer: string, conn: Links.Conn) {
    && s'.net.nodes == s.net.nodes[peer := conn]
    && (peer in s.net.nodes ==> s.net.nodes[peer].incarnation == conn.incarnation && Before(conn.connector, s.net.nodes[peer].connector))
  }

  /** The step turns `conn` away for a registered link to the same life, dialed by a name that is not later. */
  predicate Loses(s: State, s': State, peer: string, conn: Links.Conn) {
    && s'.net.nodes == s.net.nodes
    && peer in s.net.nodes && s.net.nodes[peer].incarnation == conn.incarnation && !Before(conn.connector, s.net.nodes[peer].connector)
  }

  lemma RegisteringDecides(s: State, step: Step, id: nat)
    requires Enabled(s, step) && GenerationsFresh(s.net) && id in s.net.joining
    ensures var (peer, conn), s' := s.net.joining[id], Apply(s, step);
            if id in s'.net.joining then s'.net.joining[id] == (peer, conn)
            else step == DoRegister(id) && (Wins(s, s', peer, conn) || Loses(s, s', peer, conn))
  {}

  /** A link that was to be registered and no longer is, was decided on by its own registration: it won, or it lost. */
  lemma {:induction false} EveryLinkIsDecided(run: seq<State>, steps: seq<Step>, i: nat, j: nat, id: nat)
    requires IsRun(run, steps) && i <= j < |run| && id in run[i].net.joining && id !in run[j].net.joining
    ensures var (peer, conn) := run[i].net.joining[id];
            exists k :: i <= k < j && steps[k] == DoRegister(id)
                        && (Wins(run[k], run[k + 1], peer, conn) || Loses(run[k], run[k + 1], peer, conn))
    decreases j - i
  {
    RunInv(run, steps, i);
    RegisteringDecides(run[i], steps[i], id);
    if id in run[i + 1].net.joining {
      EveryLinkIsDecided(run, steps, i + 1, j, id);
    }
  }
}
