/**
 One node under any interleaving of its threads: links register, restart, are evicted and
 drop; processes monitor and link across them; peers answer; net-splits sweep. Each step
 below is one critical section of one thread, so a run is any schedule of the node's
 dialers, readers, sweepers and processes.

 Three laws hold in every reachable state. Links: joins of a name are its node-downs, plus
 teardowns under way, plus one if it is registered. Couplings: every coupling made is
 pending, claimed by one party, or resolved once. Cleanup: a pending coupling to a node
 without a link still has a sweep or its own setup to resolve it.
 */
module Couplings {
  import opened Wrappers
  import Links

  /**
   A cross-node coupling as the node that made it records it: a monitor (its reference is
   minted fresh) or a link between two processes (which can be made again later).
   */
  datatype Coupling =
    | Monitor(node: string, target: nat, watcher: nat, mref: nat)
    | Link(node: string, remote: nat, local: nat)

  /** Where `monitor_remote` or `link_remote` has got to after recording its entry. */
  datatype Stage = Recorded | Routed(link: nat) | Refused

  datatype Setup = Setup(coupling: Coupling, stage: Stage)

  /** NODES with the source of link generations, and the history of joins and node-downs. */
  datatype Net = Net(
    nodes: map<string, Links.Conn>,
    minted: nat,
    // links that have an id and are about to be registered
    joining: map<nat, (string, Links.Conn)>,
    // links removed from NODES whose [:nodedown] is still to be delivered
    teardowns: multiset<string>,
    // brand-new joins, and [:nodedown]s delivered
    joins: multiset<string>,
    downs: multiset<string>)

  /** PENDING_REMOTE and REMOTE_LINKS with the history of what was recorded in them. */
  datatype Ledger = Ledger(
    pending: set<Coupling>,
    refs: nat,
    // link exits claimed from the table and not yet delivered
    claimed: multiset<Coupling>,
    // couplings made, resolved by a message, and called off
    made: multiset<Coupling>,
    notices: multiset<Coupling>,
    cancelled: multiset<Coupling>)

  datatype State = State(
    net: Net,
    ledger: Ledger,
    // nodes whose monitors, then links, some thread is still to sever
    monitorSweeps: multiset<string>,
    linkSweeps: multiset<string>,
    setups: map<nat, Setup>,
    // history: the link whose queue took the request for a coupling
    sentOn: map<Coupling, nat>)

  datatype Step =
    | DoMint(peer: string, conn: Links.Conn)
    | DoRegister(id: nat)
    | DoDrop(peer: string, id: nat)
    | DoNodedown(peer: string)
    | SweepMonitors(peer: string)
    | SweepLinks(peer: string)
    | DoDeliverExit(coupling: Coupling)
    | DoRecord(thread: nat, coupling: Coupling)
    | Route(thread: nat)
    | Enqueue(thread: nat, accepted: bool)
    | Fallback(thread: nat)
    | Inbound(coupling: Coupling)
    | DoCancel(coupling: Coupling)
    | InboundLink(peer: string, id: nat, coupling: Coupling)

  // ----- the link table's steps --------------------------------------------------------

  function Mint(n: Net, peer: string, conn: Links.Conn): Net {
    n.(minted := n.minted + 1, joining := n.joining[conn.id := (peer, conn)])
  }

  function Register(n: Net, id: nat): Net
    requires id in n.joining
  {
    var (peer, conn) := n.joining[id];
    match Links.Resolve(Links.Lookup(n.nodes, peer), conn)
    case Retire => n.(nodes := n.nodes - {peer}, teardowns := n.teardowns + multiset{peer})
    case Keep => n.(joining := n.joining - {id})
    case Take =>
      n.(nodes := n.nodes[peer := conn], joining := n.joining - {id},
      joins := if peer in n.nodes then n.joins else n.joins + multiset{peer})
  }

  /** Registering `id` replaces a link to the same life of its peer. */
  predicate Evicts(n: Net, id: nat)
    requires id in n.joining
  {
    var (peer, conn) := n.joining[id];
    peer in n.nodes && Links.Resolve(Some(n.nodes[peer]), conn).Take?
  }

  predicate IsCurrent(n: Net, peer: string, id: nat) {
    peer in n.nodes && n.nodes[peer].id == id
  }

  function Drop(n: Net, peer: string, id: nat): Net {
    if IsCurrent(n, peer, id)
    then n.(nodes := n.nodes - {peer}, teardowns := n.teardowns + multiset{peer})
    else n
  }

  function Nodedown(n: Net, peer: string): Net {
    n.(teardowns := n.teardowns - multiset{peer}, downs := n.downs + multiset{peer})
  }

  // ----- the coupling tables' steps ------------------------------------------------------

  /** Recording an entry: a link already there is left alone. */
  function Record(l: Ledger, c: Coupling): Ledger {
    var refs := if c.Monitor? then l.refs + 1 else l.refs;
    if c in l.pending then l.(refs := refs)
    else l.(refs := refs, pending := l.pending + {c}, made := l.made + multiset{c})
  }

  /**
   The couplings `taken` are claimed by this one step. A monitor's message is pushed under
   the table's lock; a link's after it is released.
   */
  function Claim(l: Ledger, taken: set<Coupling>): Ledger {
    var monitors := set c | c in taken && c.Monitor?;
    var links := set c | c in taken && c.Link?;
    l.(pending := l.pending - taken,
    notices := l.notices + multiset(monitors),
    claimed := l.claimed + multiset(links))
  }

  function DeliverExit(l: Ledger, c: Coupling): Ledger {
    l.(claimed := l.claimed - multiset{c}, notices := l.notices + multiset{c})
  }

  function Cancel(l: Ledger, c: Coupling): Ledger {
    if c in l.pending
    then l.(pending := l.pending - {c}, cancelled := l.cancelled + multiset{c})
    else l
  }

  function Only(l: Ledger, c: Coupling): set<Coupling> {
    if c in l.pending then {c} else {}
  }

  function MonitorsOf(l: Ledger, peer: string): set<Coupling> {
    set c | c in l.pending && c.Monitor? && c.node == peer
  }

  function LinksOf(l: Ledger, peer: string): set<Coupling> {
    set c | c in l.pending && c.Link? && c.node == peer
  }

  // ----- the node -------------------------------------------------------------------------

  ghost predicate Init(s: State) {
    s == State(Net(map[], 0, map[], multiset{}, multiset{}, multiset{}),
    Ledger({}, 0, multiset{}, multiset{}, multiset{}, multiset{}),
    multiset{}, multiset{}, map[], map[])
  }

  predicate Enabled(s: State, step: Step) {
    match step
    case DoMint(_, conn) => conn.id == s.net.minted
    case DoRegister(id) => id in s.net.joining
    case DoDrop(_, _) => true
    case DoNodedown(peer) => peer in s.net.teardowns
    case SweepMonitors(peer) => peer in s.monitorSweeps
    case SweepLinks(peer) => peer in s.linkSweeps
    case DoDeliverExit(c) => c in s.ledger.claimed
    case DoRecord(t, c) => t !in s.setups && (c.Monitor? ==> c.mref == s.ledger.refs)
    case Route(t) => t in s.setups && s.setups[t].stage.Recorded?
    case Enqueue(t, _) => t in s.setups && s.setups[t].stage.Routed?
    case Fallback(t) => t in s.setups && s.setups[t].stage.Refused?
    case Inbound(_) => true
    case DoCancel(_) => true
    case InboundLink(peer, id, c) => c.Link? && c.node == peer && id < s.net.minted
  }

  function Apply(s: State, step: Step): State
    requires Enabled(s, step)
  {
    match step
    case DoMint(peer, conn) => s.(net := Mint(s.net, peer, conn))
    case DoRegister(id) =>
      s.(net := Register(s.net, id),
      monitorSweeps := if Evicts(s.net, id) then s.monitorSweeps + multiset{s.net.joining[id].0} else s.monitorSweeps)
    case DoDrop(peer, id) => s.(net := Drop(s.net, peer, id))
    case DoNodedown(peer) =>
      s.(net := Nodedown(s.net, peer), monitorSweeps := s.monitorSweeps + multiset{peer})
    case SweepMonitors(peer) =>
      s.(ledger := Claim(s.ledger, MonitorsOf(s.ledger, peer)),
      monitorSweeps := s.monitorSweeps - multiset{peer}, linkSweeps := s.linkSweeps + multiset{peer})
    case SweepLinks(peer) =>
      s.(ledger := Claim(s.ledger, LinksOf(s.ledger, peer)), linkSweeps := s.linkSweeps - multiset{peer})
    case DoDeliverExit(c) => s.(ledger := DeliverExit(s.ledger, c))
    case DoRecord(t, c) =>
      s.(ledger := Record(s.ledger, c), setups := s.setups[t := Setup(c, Recorded)])
    case Route(t) =>
      var c := s.setups[t].coupling;
      var stage := if c.node in s.net.nodes then Routed(s.net.nodes[c.node].id) else Refused;
      s.(setups := s.setups[t := Setup(c, stage)])
    case Enqueue(t, accepted) =>
      var c := s.setups[t].coupling;
      if accepted then s.(setups := s.setups - {t}, sentOn := s.sentOn[c := s.setups[t].stage.link])
      else s.(setups := s.setups[t := Setup(c, Refused)])
    case Fallback(t) =>
      s.(ledger := Claim(s.ledger, Only(s.ledger, s.setups[t].coupling)), setups := s.setups - {t})
    case Inbound(c) => s.(ledger := Claim(s.ledger, Only(s.ledger, c)))
    case DoCancel(c) => s.(ledger := Cancel(s.ledger, c))
    case InboundLink(peer, id, c) => s.(ledger := Record(s.ledger, c))
  }

  ghost predicate IsRun(run: seq<State>, steps: seq<Step>) {
    && |run| == |steps| + 1
    && Init(run[0])
    && forall i :: 0 <= i < |steps| ==> Enabled(run[i], steps[i]) && run[i + 1] == Apply(run[i], steps[i])
  }

  // ----- node-down accounting -----------------------------------------------------------

  /** Joins of a name = node-downs delivered + teardowns under way + whether it is registered. */
  ghost predicate LinksBalance(n: Net) {
    n.joins == n.downs + n.teardowns + multiset(n.nodes.Keys)
  }

  lemma RemovalBalances(n: Net, peer: string)
    requires LinksBalance(n) && peer in n.nodes
    ensures LinksBalance(n.(nodes := n.nodes - {peer}, teardowns := n.teardowns + multiset{peer}))
  {
    assert (n.nodes - {peer}).Keys == n.nodes.Keys - {peer};
    assert multiset(n.nodes.Keys) == multiset(n.nodes.Keys - {peer}) + multiset{peer};
  }

  lemma RegisterBalances(n: Net, id: nat)
    requires LinksBalance(n) && id in n.joining
    ensures LinksBalance(Register(n, id))
  {
    var (peer, conn) := n.joining[id];
    if peer in n.nodes {
      RemovalBalances(n, peer);
      assert n.nodes[peer := conn].Keys == n.nodes.Keys;
    } else {
      assert n.nodes[peer := conn].Keys == n.nodes.Keys + {peer};
      assert multiset(n.nodes.Keys + {peer}) == multiset(n.nodes.Keys) + multiset{peer};
    }
  }

  lemma LinksBalanceKept(s: State, step: Step)
    requires LinksBalance(s.net) && Enabled(s, step)
    ensures LinksBalance(Apply(s, step).net)
  {
    match step
    case DoRegister(id) => RegisterBalances(s.net, id);
    case DoDrop(peer, id) =>
      if IsCurrent(s.net, peer, id) {
        RemovalBalances(s.net, peer);
      }
    case _ =>
  }

  // ----- link generations ------------------------------------------------------------------

  /** Every id in use was minted, no id is in use twice, and a joining link carries its own. */
  ghost predicate GenerationsFresh(n: Net) {
    && (forall p :: p in n.nodes ==> n.nodes[p].id < n.minted && n.nodes[p].id !in n.joining)
    && (forall id :: id in n.joining ==> id < n.minted && n.joining[id].1.id == id)
  }

  lemma MintKeepsFresh(n: Net, peer: string, conn: Links.Conn)
    requires GenerationsFresh(n) && conn.id == n.minted
    ensures GenerationsFresh(Mint(n, peer, conn))
  {}

  lemma RegisterKeepsFresh(n: Net, id: nat)
    requires GenerationsFresh(n) && id in n.joining
    ensures GenerationsFresh(Register(n, id))
  {}

  lemma GenerationsFreshKept(s: State, step: Step)
    requires GenerationsFresh(s.net) && Enabled(s, step)
    ensures GenerationsFresh(Apply(s, step).net)
  {
    match step
    case DoMint(peer, conn) => MintKeepsFresh(s.net, peer, conn);
    case DoRegister(id) => RegisterKeepsFresh(s.net, id);
    case _ =>
  }

  /** Link `id` was registered or turned away, and is now the registered link of no peer. */
  ghost predicate IsGone(n: Net, id: nat) {
    && id < n.minted
    && id !in n.joining
    && forall p :: !IsCurrent(n, p, id)
  }

  lemma GoneStaysGone(s: State, step: Step, id: nat)
    requires GenerationsFresh(s.net) && Enabled(s, step) && IsGone(s.net, id)
    ensures IsGone(Apply(s, step).net, id)
  {
    var n' := Apply(s, step).net;
    forall p ensures !IsCurrent(n', p, id) {
      assert !IsCurrent(s.net, p, id);
    }
  }

  // ----- couplings are resolved once ------------------------------------------------------

  /** Each coupling made is pending, claimed, told, or called off: once for each time made. */
  ghost predicate CouplingsBalance(l: Ledger) {
    && l.made == multiset(l.pending) + l.claimed + l.notices + l.cancelled
    && (forall c :: c in l.made && c.Monitor? ==> l.made[c] == 1 && c.mref < l.refs)
    && (forall c, d :: c in l.made && d in l.made && c.Monitor? && d.Monitor? && c.mref == d.mref ==> c == d)
    && (forall c :: c in l.claimed ==> c.Link?)
  }

  lemma SplitByKind(taken: set<Coupling>)
    ensures multiset(taken) == multiset(set c | c in taken && c.Monitor?) + multiset(set c | c in taken && c.Link?)
  {}

  lemma ClaimBalances(l: Ledger, taken: set<Coupling>)
    requires CouplingsBalance(l) && taken <= l.pending
    ensures CouplingsBalance(Claim(l, taken))
  {
    assert multiset(l.pending) == multiset(l.pending - taken) + multiset(taken);
    SplitByKind(taken);
  }

  lemma RecordBalances(l: Ledger, c: Coupling)
    requires CouplingsBalance(l) && (c.Monitor? ==> c.mref == l.refs)
    ensures CouplingsBalance(Record(l, c))
  {
    if c in l.pending {
      assert c in l.made;
    } else {
      assert multiset(l.pending + {c}) == multiset(l.pending) + multiset{c};
    }
  }

  lemma CancelBalances(l: Ledger, c: Coupling)
    requires CouplingsBalance(l)
    ensures CouplingsBalance(Cancel(l, c))
  {
    if c in l.pending {
      assert multiset(l.pending) == multiset(l.pending - {c}) + multiset{c};
    }
  }

  lemma CouplingsBalanceKept(s: State, step: Step)
    requires CouplingsBalance(s.ledger) && Enabled(s, step)
    ensures CouplingsBalance(Apply(s, step).ledger)
  {
    match step
    case SweepMonitors(peer) => ClaimBalances(s.ledger, MonitorsOf(s.ledger, peer));
    case SweepLinks(peer) => ClaimBalances(s.ledger, LinksOf(s.ledger, peer));
    case DoDeliverExit(c) => DeliverBalances(s.ledger, c);
    case DoRecord(t, c) => RecordBalances(s.ledger, c);
    case Fallback(t) => ClaimBalances(s.ledger, Only(s.ledger, s.setups[t].coupling));
    case Inbound(c) => ClaimBalances(s.ledger, Only(s.ledger, c));
    case DoCancel(c) => CancelBalances(s.ledger, c);
    case InboundLink(peer, id, c) => RecordBalances(s.ledger, c);
    case _ =>
  }

  lemma DeliverBalances(l: Ledger, c: Coupling)
    requires CouplingsBalance(l) && c in l.claimed
    ensures CouplingsBalance(DeliverExit(l, c))
  {
    assert l.claimed - multiset{c} + multiset{c} == l.claimed;
  }

  // ----- no coupling is orphaned ------------------------------------------------------------

  /** Some thread's own setup of `c` is still to look for the link, or to fall back. */
  ghost predicate SettingUp(s: State, c: Coupling) {
    exists t :: t in s.setups && s.setups[t].coupling == c && !s.setups[t].stage.Routed?
  }

  /** What will resolve `c` if nothing else does. */
  ghost predicate Attended(s: State, c: Coupling) {
    || c.node in s.net.nodes
    || c.node in s.net.teardowns
    || c.node in s.monitorSweeps
    || (c.Link? && c.node in s.linkSweeps)
    || SettingUp(s, c)
  }

  /** A setup that looks for the link finds it, or goes on to its fallback. */
  lemma SettingUpKept(s: State, step: Step, c: Coupling)
    requires Enabled(s, step) && SettingUp(s, c)
    requires c in Apply(s, step).ledger.pending
    ensures Attended(Apply(s, step), c)
  {
    var s' := Apply(s, step);
    var t :| t in s.setups && s.setups[t].coupling == c && !s.setups[t].stage.Routed?;
    if t in s'.setups && s'.setups[t].coupling == c && !s'.setups[t].stage.Routed? {
      assert SettingUp(s', c);
    }
  }

  lemma RegisterHandsOver(n: Net, id: nat, peer: string)
    requires id in n.joining && peer in n.nodes
    ensures peer in Register(n, id).nodes || peer in Register(n, id).teardowns
  {}

  /** A link that leaves the table leaves a teardown; a delivered node-down starts a sweep. */
  lemma NetHandsOver(s: State, step: Step, peer: string)
    requires Enabled(s, step) && (peer in s.net.nodes || peer in s.net.teardowns)
    ensures var s' := Apply(s, step); peer in s'.net.nodes || peer in s'.net.teardowns || peer in s'.monitorSweeps
  {
    match step
    case DoRegister(id) =>
      if peer in s.net.nodes {
        RegisterHandsOver(s.net, id, peer);
      }
    case _ =>
  }

  /** A sweep of the monitors goes on to the links, and each takes all of its kind. */
  lemma SweepHandsOver(s: State, step: Step, c: Coupling)
    requires Enabled(s, step) && c in Apply(s, step).ledger.pending
    requires c.node in s.monitorSweeps || (c.Link? && c.node in s.linkSweeps)
    ensures var s' := Apply(s, step); c.node in s'.monitorSweeps || (c.Link? && c.node in s'.linkSweeps)
  {}

  /** Whatever attends to a coupling hands over to the next: removal, node-down, sweep. */
  lemma AttendedKept(s: State, step: Step, c: Coupling)
    requires Enabled(s, step) && Attended(s, c)
    requires c in Apply(s, step).ledger.pending
    ensures Attended(Apply(s, step), c)
  {
    if c.node in s.net.nodes || c.node in s.net.teardowns {
      NetHandsOver(s, step, c.node);
    } else if SettingUp(s, c) {
      SettingUpKept(s, step, c);
    } else {
      SweepHandsOver(s, step, c);
    }
  }

  /** Only the steps of a setup change the setups. */
  lemma OtherStepsKeepSetups(s: State, step: Step)
    requires Enabled(s, step) && !step.DoRecord? && !step.Route? && !step.Enqueue? && !step.Fallback?
    ensures Apply(s, step).setups == s.setups && Apply(s, step).sentOn == s.sentOn
  {
    match step
    case DoMint(_, _) =>
    case DoRegister(_) =>
    case DoDrop(_, _) =>
    case DoNodedown(_) =>
    case SweepMonitors(_) =>
    case SweepLinks(_) =>
    case DoDeliverExit(_) =>
    case Inbound(_) =>
    case DoCancel(_) =>
    case InboundLink(_, _, _) =>
  }

  // ----- over whole runs ----------------------------------------------------------------------

  ghost predicate Inv(s: State) {
    LinksBalance(s.net) && GenerationsFresh(s.net) && CouplingsBalance(s.ledger)
  }

  lemma {:induction false} RunInv(run: seq<State>, steps: seq<Step>, i: nat)
    requires IsRun(run, steps) && i < |run|
    ensures Inv(run[i])
  {
    if i > 0 {
      RunInv(run, steps, i - 1);
      LinksBalanceKept(run[i - 1], steps[i - 1]);
      GenerationsFreshKept(run[i - 1], steps[i - 1]);
      CouplingsBalanceKept(run[i - 1], steps[i - 1]);
    }
  }

  /**
   In every state of every run, once no teardown of `peer` is under way, its brand-new
   joins exceed its node-downs by one if it is registered and by none if it is not.
   */
  lemma NodedownsMatchJoins(run: seq<State>, steps: seq<Step>, i: nat, peer: string)
    requires IsRun(run, steps) && i < |run|
    requires peer !in run[i].net.teardowns
    ensures run[i].net.joins[peer] == run[i].net.downs[peer] + if peer in run[i].net.nodes then 1 else 0
  {
    RunInv(run, steps, i);
    assert multiset(run[i].net.nodes.Keys)[peer] == if peer in run[i].net.nodes.Keys then 1 else 0;
  }

  /**
   A link that has been replaced, dropped or turned away is never the registered link
   again, so its reader's late `Drop` leaves the node exactly as it was.
   */
  lemma {:induction false} StaleReaderChangesNothing(
    run: seq<State>, steps: seq<Step>, i: nat, j: nat, peer: string, id: nat)
    requires IsRun(run, steps) && i <= j < |steps|
    requires IsGone(run[i].net, id) && steps[j] == DoDrop(peer, id)
    ensures run[j + 1] == run[j]
  {
    GoneForGood(run, steps, i, j, id);
    assert !IsCurrent(run[j].net, peer, id);
  }

  lemma {:induction false} GoneForGood(run: seq<State>, steps: seq<Step>, i: nat, j: nat, id: nat)
    requires IsRun(run, steps) && i <= j < |run| && IsGone(run[i].net, id)
    ensures IsGone(run[j].net, id)
    decreases j
  {
    if i < j {
      GoneForGood(run, steps, i, j - 1, id);
      RunIsFresh(run, steps, j - 1);
      GoneStaysGone(run[j - 1], steps[j - 1], id);
    }
  }

  lemma RunIsFresh(run: seq<State>, steps: seq<Step>, i: nat)
    requires IsRun(run, steps) && i < |run|
    ensures GenerationsFresh(run[i].net)
  {
    RunInv(run, steps, i);
  }

  /** The step finds that `peer` has restarted, and takes the link to its old life out of the table. */
  predicate IsRestart(s: State, step: Step, peer: string) {
    && step.DoRegister? && step.id in s.net.joining && s.net.joining[step.id].0 == peer
    && peer in s.net.nodes && s.net.nodes[peer].incarnation != s.net.joining[step.id].1.incarnation
  }

  /** The step loses the registered link of `peer`: its reader ends, or it is disconnected. */
  predicate IsLoss(s: State, step: Step, peer: string) {
    step.DoDrop? && step.peer == peer && IsCurrent(s.net, peer, step.id)
  }

  /** How often among the first `i` steps `peer` restarted or its link was lost. */
  ghost function Departures(run: seq<State>, steps: seq<Step>, i: nat, peer: string): nat
    requires |run| == |steps| + 1 && i <= |steps|
  {
    if i == 0 then 0
    else Departures(run, steps, i - 1, peer) +
         if IsRestart(run[i - 1], steps[i - 1], peer) || IsLoss(run[i - 1], steps[i - 1], peer) then 1 else 0
  }

  /** Registering tears down exactly a link to another life of the peer. */
  lemma RegisterTearsDown(n: Net, id: nat, peer: string)
    requires id in n.joining
    ensures var (name, conn) := n.joining[id];
            var restart := name == peer && peer in n.nodes && n.nodes[peer].incarnation != conn.incarnation;
            && Register(n, id).downs == n.downs
            && Register(n, id).teardowns[peer] == n.teardowns[peer] + if restart then 1 else 0
  {}

  lemma DepartureTearsDown(s: State, step: Step, peer: string)
    requires Enabled(s, step)
    ensures var n, n' := s.net, Apply(s, step).net;
            n'.downs[peer] + n'.teardowns[peer] ==
            n.downs[peer] + n.teardowns[peer] + if IsRestart(s, step, peer) || IsLoss(s, step, peer) then 1 else 0
  {
    if step.DoRegister? {
      RegisterTearsDown(s.net, step.id, peer);
    } else if step.DoDrop? {
      assert Apply(s, step).net == Drop(s.net, step.peer, step.id);
    } else if step.DoNodedown? {
      assert Apply(s, step).net == Nodedown(s.net, step.peer);
    } else {
      OtherStepsKeepDowns(s, step);
    }
  }

  lemma OtherStepsKeepDowns(s: State, step: Step)
    requires Enabled(s, step) && !step.DoRegister? && !step.DoDrop? && !step.DoNodedown?
    ensures Apply(s, step).net.downs == s.net.downs && Apply(s, step).net.teardowns == s.net.teardowns
  {}

  /**
   In every run, node-downs delivered and under way are as many as restarts and lost links:
   one for each, and none for a replacement of a link to the same life of the peer.
   */
  lemma {:induction false} OneNodedownPerDeparture(run: seq<State>, steps: seq<Step>, i: nat, peer: string)
    requires IsRun(run, steps) && i < |run|
    ensures run[i].net.downs[peer] + run[i].net.teardowns[peer] == Departures(run, steps, i, peer)
  {
    if i > 0 {
      OneNodedownPerDeparture(run, steps, i - 1, peer);
      DepartureTearsDown(run[i - 1], steps[i - 1], peer);
    }
  }

  /** No link to `peer`, and no thread left with a teardown, a sweep or a setup for it. */
  ghost predicate QuietFor(s: State, peer: string) {
    && peer !in s.net.nodes
    && peer !in s.net.teardowns && peer !in s.monitorSweeps && peer !in s.linkSweeps
    && forall t :: t in s.setups ==> s.setups[t].coupling.node != peer
  }

  lemma Extend(run: seq<State>, steps: seq<Step>, step: Step) returns (run': seq<State>, steps': seq<Step>)
    requires IsRun(run, steps) && Enabled(run[|steps|], step)
    ensures IsRun(run', steps') && run'[|steps'|] == Apply(run[|steps|], step)
  {
    run', steps' := run + [Apply(run[|steps|], step)], steps + [step];
    forall i | 0 <= i < |steps'|
      ensures Enabled(run'[i], steps'[i]) && run'[i + 1] == Apply(run'[i], steps'[i])
    {
      if i < |steps| {
        assert run'[i] == run[i] && run'[i + 1] == run[i + 1];
      }
    }
  }

  /** A link to `conn`'s peer that was made and dropped, its node-down not yet delivered. */
  lemma Dropped(peer: string, conn: Links.Conn) returns (run: seq<State>, steps: seq<Step>)
    requires conn.id == 0
    ensures IsRun(run, steps)
    ensures run[|steps|] == State(Net(map[], 1, map[], multiset{peer}, multiset{peer}, multiset{}),
            Ledger({}, 0, multiset{}, multiset{}, multiset{}, multiset{}), multiset{}, multiset{}, map[], map[])
  {
    var s0 := State(Net(map[], 0, map[], multiset{}, multiset{}, multiset{}),
    Ledger({}, 0, multiset{}, multiset{}, multiset{}, multiset{}), multiset{}, multiset{}, map[], map[]);
    run, steps := [s0], [];
    run, steps := Extend(run, steps, DoMint(peer, conn));
    assert run[|steps|].net == Net(map[], 1, map[0 := (peer, conn)], multiset{}, multiset{}, multiset{});
    run, steps := Extend(run, steps, DoRegister(0));
    assert run[|steps|].net == Net(map[peer := conn], 1, map[], multiset{}, multiset{peer}, multiset{});
    run, steps := Extend(run, steps, DoDrop(peer, 0));
    assert run[|steps|].net == Net(map[], 1, map[], multiset{peer}, multiset{peer}, multiset{});
  }

  /** The same, with the node-down delivered and the couplings swept. */
  lemma Swept(peer: string, conn: Links.Conn) returns (run: seq<State>, steps: seq<Step>)
    requires conn.id == 0
    ensures IsRun(run, steps)
    ensures QuietFor(run[|steps|], peer) && run[|steps|].net.minted == 1
  {
    run, steps := Dropped(peer, conn);
    run, steps := Extend(run, steps, DoNodedown(peer));
    run, steps := Extend(run, steps, SweepMonitors(peer));
    run, steps := Extend(run, steps, SweepLinks(peer));
  }

  /**
   The exception happens: a reader that still holds a buffered link request after its
   connection was disconnected and swept records an entry that nothing will resolve.
   */
  lemma StrayLinkOutlivesItsNode(peer: string, remote: nat, local: nat)
    returns (run: seq<State>, steps: seq<Step>, c: Coupling)
    ensures IsRun(run, steps) && c == Link(peer, remote, local)
    ensures QuietFor(run[|steps|], peer) && c in run[|steps|].ledger.pending
  {
    c := Link(peer, remote, local);
    run, steps := Swept(peer, Links.Conn(0, peer, 1, "", false));
    run, steps := Extend(run, steps, InboundLink(peer, 0, c));
  }
}
