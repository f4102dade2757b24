/**
 How a cluster meshes. A node that gains a brand-new peer sends every peer of its own the
 names of the others; a node told of a peer it has no link to dials it, and the new link is
 news again at both ends. The news rides on a physical link, and when two nodes dial each other
 at once one of their links is shut with whatever was queued on it. Here every dial reaches its
 peer, no link is lost otherwise, every node can be dialed and none is a guest.
 */
module Mesh {
  import opened Wrappers
  import opened MeshLinks

  /** Gossip queued on a link, for the node at its far end: peers it may not know. */
  datatype Message = Message(link: nat, to: nat, peers: set<nat>)

  /**
   A list a node has to look at: let go after its programs have dialed; let through, as no
   program is dialing; and compared with the peers it has a link to.
   */
  datatype Look =
    | Drained(to: nat, peers: set<nat>)
    | Passed(to: nat, peers: set<nat>)
    | Compared(to: nat, peers: set<nat>, seen: set<nat>)

  datatype Gossip = Gossip(
    // nodes about to broadcast their peer table
    owing: multiset<nat>,
    messages: multiset<Message>,
    looks: multiset<Look>,
    // (x, y): gossip about y held at x until its programs have dialed
    held: set<(nat, nat)>)

  datatype State = State(
    wires: Wires,
    dials: Dials,
    // (x, y): a program dial of y at x is counted, and waits for the claim
    waiting: multiset<(nat, nat)>,
    // nodes where a program dial has let its claim go, and is still counted
    ending: multiset<nat>,
    gossip: Gossip,
    // dials programs are still to ask for
    budget: nat)

  datatype Step =
    | Program(x: nat, y: nat)
    | Claim(x: nat, y: nat)
    | Clear(x: nat, y: nat)
    | Greet(x: nat, y: nat)
    | Finish(x: nat, y: nat)
    | EndProgram(x: nat)
    | Register(end: nat, l: nat)
    | Shut(end: nat, l: nat)
    | Eof(end: nat, l: nat)
    | Broadcast(x: nat)
    | Receive(message: Message)
    | Lose(message: Message)
    | Recheck(look: Look)
    | Compare(look: Look)
    | ClaimAll(look: Look)

  function PeersOf(w: Wires, x: nat): set<nat> {
    set p | p in w.nodes && p.0 == x :: p.1
  }

  /** A program's dial is counted at `x`: it waits for its claim, or is under way, or has let its claim go. */
  predicate ProgramDialing(s: State, x: nat) {
    (exists p :: p in s.waiting && p.0 == x) || (exists p :: p in s.dials && p.0 == x && s.dials[p].program) || x in s.ending
  }

  function HeldAt(g: Gossip, x: nat): set<nat> {
    set p | p in g.held && p.0 == x :: p.1
  }

  function From(x: nat, ys: set<nat>): set<(nat, nat)> {
    set y | y in ys :: (x, y)
  }

  /** The peer table as each peer gets it: without itself, and not at all when that leaves nothing. */
  function Tables(w: Wires, x: nat): set<Message> {
    set y | y in PeersOf(w, x) && (x, y) in w.nodes && PeersOf(w, x) - {y} != {} :: Message(w.nodes[(x, y)], y, PeersOf(w, x) - {y})
  }

  /** The claims a list adds: the names that are not the node itself, nor linked when it compared, nor being dialed. */
  function WithClaims(dials: Dials, look: Look): Dials
    requires look.Compared?
  {
    var claims := From(look.to, look.peers - {look.to} - look.seen) - dials.Keys;
    map p | p in dials.Keys + claims :: if p in dials then dials[p] else Dial(Claimed, false)
  }

  /** A dial ends once its own end has decided on its link, or at once if it finds a link in the table. */
  predicate IsOver(s: State, p: (nat, nat)) {
    && p in s.dials
    && (match s.dials[p].stage
        case Claimed => p in s.wires.nodes
        case Cleared => false
        case Greeted(l) => (p.0, l) !in s.wires.undecided)
  }

  predicate Enabled(all: set<nat>, s: State, step: Step) {
    match step
    case Program(x, y) => s.budget > 0 && x in all && y in all && x != y
    case Claim(x, y) => (x, y) in s.waiting && (x, y) !in s.dials
    case Clear(x, y) => (x, y) in s.dials && s.dials[(x, y)].stage.Claimed? && (x, y) !in s.wires.nodes
    case Greet(x, y) => (x, y) in s.dials && s.dials[(x, y)].stage.Cleared?
    case Finish(x, y) => IsOver(s, (x, y))
    case EndProgram(x) => x in s.ending
    case Register(e, l) => (e, l) in s.wires.undecided && l < |s.wires.links|
    case Shut(e, l) => (e, l) in s.wires.owed
    case Eof(e, l) => (e, l) in s.wires.readers && l in s.wires.shut && l < |s.wires.links|
    case Broadcast(x) => x in s.gossip.owing
    case Receive(m) => m in s.gossip.messages && (m.to, m.link) in s.wires.readers
    case Lose(m) => m in s.gossip.messages && m.link in s.wires.shut
    case Recheck(look) => look in s.gossip.looks && look.Drained?
    case Compare(look) => look in s.gossip.looks && look.Passed?
    case ClaimAll(look) => look in s.gossip.looks && look.Compared?
  }

  // ----- what each step does, table by table ---------------------------------------------------------

  function WiresAfter(s: State, step: Step): Wires {
    match step
    case Greet(x, y) => Open(s.wires, x, y)
    case Register(e, l) => if l < |s.wires.links| then Decide(s.wires, e, l) else s.wires
    case Shut(e, l) => ShutDown(s.wires, e, l)
    case Eof(e, l) => if l < |s.wires.links| then EndReader(s.wires, e, l) else s.wires
    case _ => s.wires
  }

  function DialsAfter(s: State, step: Step): Dials {
    match step
    case Claim(x, y) => s.dials[(x, y) := Dial(Claimed, true)]
    case Clear(x, y) => if (x, y) in s.dials then s.dials[(x, y) := s.dials[(x, y)].(stage := Cleared)] else s.dials
    case Greet(x, y) =>
      if (x, y) in s.dials then s.dials[(x, y) := s.dials[(x, y)].(stage := Greeted(|s.wires.links|))] else s.dials
    case Finish(x, y) => s.dials - {(x, y)}
    case ClaimAll(look) => if look.Compared? then WithClaims(s.dials, look) else s.dials
    case _ => s.dials
  }

  function WaitingAfter(s: State, step: Step): multiset<(nat, nat)> {
    match step
    case Program(x, y) => s.waiting + multiset{(x, y)}
    case Claim(x, y) => s.waiting - multiset{(x, y)}
    case _ => s.waiting
  }

  function EndingAfter(s: State, step: Step): multiset<nat> {
    match step
    case Finish(x, y) => if (x, y) in s.dials && s.dials[(x, y)].program then s.ending + multiset{x} else s.ending
    case EndProgram(x) => s.ending - multiset{x}
    case _ => s.ending
  }

  /** A node owes a broadcast for each peer it registers that it had no link to. */
  function OwingAfter(s: State, step: Step): multiset<nat> {
    match step
    case Register(e, l) => if l < |s.wires.links| && IsNew(s.wires, e, l) then s.gossip.owing + multiset{e} else s.gossip.owing
    case Broadcast(x) => s.gossip.owing - multiset{x}
    case _ => s.gossip.owing
  }

  function MessagesAfter(s: State, step: Step): multiset<Message> {
    match step
    case Broadcast(x) => s.gossip.messages + multiset(Tables(s.wires, x))
    case Receive(m) => s.gossip.messages - multiset{m}
    case Lose(m) => s.gossip.messages - multiset{m}
    case _ => s.gossip.messages
  }

  /** The last of a node's program dials to end lets the held gossip go, if there is any. */
  predicate LetsGo(s: State, step: Step) {
    step.EndProgram? && !ProgramDialing(s.(ending := s.ending - multiset{step.x}), step.x) && HeldAt(s.gossip, step.x) != {}
  }

  function LooksAfter(s: State, step: Step): multiset<Look> {
    match step
    case EndProgram(x) => if LetsGo(s, step) then s.gossip.looks + multiset{Drained(x, HeldAt(s.gossip, x))} else s.gossip.looks
    case Receive(m) => if ProgramDialing(s, m.to) then s.gossip.looks else s.gossip.looks + multiset{Passed(m.to, m.peers)}
    case Recheck(look) =>
      if ProgramDialing(s, look.to) then s.gossip.looks - multiset{look}
      else s.gossip.looks - multiset{look} + multiset{Passed(look.to, look.peers)}
    case Compare(look) =>
      s.gossip.looks - multiset{look} + multiset{Compared(look.to, look.peers, PeersOf(s.wires, look.to))}
    case ClaimAll(look) => s.gossip.looks - multiset{look}
    case _ => s.gossip.looks
  }

  function HeldAfter(s: State, step: Step): set<(nat, nat)> {
    match step
    case EndProgram(x) => if LetsGo(s, step) then s.gossip.held - From(x, HeldAt(s.gossip, x)) else s.gossip.held
    case Receive(m) => if ProgramDialing(s, m.to) then s.gossip.held + From(m.to, m.peers) else s.gossip.held
    case Recheck(look) => if ProgramDialing(s, look.to) then s.gossip.held + From(look.to, look.peers) else s.gossip.held
    case _ => s.gossip.held
  }

  function Apply(all: set<nat>, s: State, step: Step): State
    requires Enabled(all, s, step)
  {
    State(WiresAfter(s, step), DialsAfter(s, step), WaitingAfter(s, step), EndingAfter(s, step),
          Gossip(OwingAfter(s, step), MessagesAfter(s, step), LooksAfter(s, step), HeldAfter(s, step)),
          if step.Program? then s.budget - 1 else s.budget)
  }

  ghost predicate Next(all: set<nat>, s: State, s': State) {
    exists step :: Enabled(all, s, step) && s' == Apply(all, s, step)
  }

  ghost predicate Init(s: State) {
    s == State(Wires([], {}, map[], {}, {}, {}), map[], multiset{}, multiset{}, Gossip(multiset{}, multiset{}, multiset{}, {}), s.budget)
  }

  ghost predicate IsRun(all: set<nat>, run: seq<State>) {
    && |run| > 0
    && Init(run[0])
    && forall i :: 0 <= i < |run| - 1 ==> Next(all, run[i], run[i + 1])
  }

  ghost predicate Reachable(all: set<nat>, s: State) {
    exists run :: IsRun(all, run) && run[|run| - 1] == s
  }

  // ----- who is who ---------------------------------------------------------------------------------

  /** A pair of two different nodes of the cluster. */
  predicate Proper(all: set<nat>, p: (nat, nat)) {
    p.0 in all && p.1 in all && p.0 != p.1
  }

  ghost predicate DialsProper(all: set<nat>, s: State) {
    && (forall p :: p in s.dials ==> Proper(all, p))
    && (forall p :: p in s.waiting ==> Proper(all, p))
    && (forall l :: 0 <= l < |s.wires.links| ==> Proper(all, s.wires.links[l]))
  }

  ghost predicate GossipProper(all: set<nat>, g: Gossip) {
    && (forall p :: p in g.held ==> Proper(all, p))
    && (forall m, y :: m in g.messages && y in m.peers ==> Proper(all, (m.to, y)))
    && (forall look, y :: look in g.looks && y in look.peers ==> Proper(all, (look.to, y)))
  }

  lemma RegisteredProper(all: set<nat>, s: State, p: (nat, nat))
    requires DialsProper(all, s) && Registered(s.wires) && p in s.wires.nodes
    ensures Proper(all, p)
  {
    assert Proper(all, s.wires.links[s.wires.nodes[p]]);
  }

  lemma ClaimsProper(all: set<nat>, s: State, look: Look, p: (nat, nat))
    requires DialsProper(all, s) && GossipProper(all, s.gossip) && look in s.gossip.looks && look.Compared?
    requires p in WithClaims(s.dials, look)
    ensures Proper(all, p)
  {
    if p !in s.dials {
      assert p.1 in look.peers && p.0 == look.to;
    }
  }

  lemma WaitingProper(all: set<nat>, s: State, step: Step)
    requires Enabled(all, s, step) && forall p :: p in s.waiting ==> Proper(all, p)
    ensures forall p :: p in WaitingAfter(s, step) ==> Proper(all, p)
  {}

  lemma LinksProper(all: set<nat>, s: State, step: Step)
    requires Enabled(all, s, step) && DialsProper(all, s)
    ensures forall l :: 0 <= l < |WiresAfter(s, step).links| ==> Proper(all, WiresAfter(s, step).links[l])
  {
    if step.Greet? {
      assert Proper(all, (step.x, step.y));
    }
  }

  lemma DialsProperKept(all: set<nat>, s: State, step: Step)
    requires DialsProper(all, s) && GossipProper(all, s.gossip) && Enabled(all, s, step)
    ensures DialsProper(all, Apply(all, s, step))
  {
    WaitingProper(all, s, step);
    LinksProper(all, s, step);
    forall p | p in DialsAfter(s, step) ensures Proper(all, p) {
      if step.ClaimAll? {
        ClaimsProper(all, s, step.look, p);
      }
    }
  }

  lemma TablesProper(all: set<nat>, s: State, x: nat, m: Message, y: nat)
    requires DialsProper(all, s) && Registered(s.wires) && m in Tables(s.wires, x) && y in m.peers
    ensures Proper(all, (m.to, y))
  {
    RegisteredProper(all, s, (x, m.to));
    RegisteredProper(all, s, (x, y));
  }

  /** A list looked at anew has the names of a message, of a list, or of the held gossip. */
  ghost predicate HasList(s: State, to: nat, peers: set<nat>) {
    || (exists m :: m in s.gossip.messages && m.to == to && m.peers == peers)
    || (exists look :: look in s.gossip.looks && look.to == to && look.peers == peers)
    || peers == HeldAt(s.gossip, to)
  }

  lemma ListProper(all: set<nat>, s: State, to: nat, peers: set<nat>, y: nat)
    requires GossipProper(all, s.gossip) && HasList(s, to, peers) && y in peers
    ensures Proper(all, (to, y))
  {
    if peers == HeldAt(s.gossip, to) {
      assert (to, y) in s.gossip.held;
    }
  }

  lemma LooksAreLists(s: State, step: Step, look: Look)
    requires look in LooksAfter(s, step)
    requires step.Receive? ==> step.message in s.gossip.messages
    requires step.Recheck? || step.Compare? ==> step.look in s.gossip.looks
    ensures HasList(s, look.to, look.peers)
  {}

  lemma HeldIsListed(s: State, step: Step, p: (nat, nat))
    requires p in HeldAfter(s, step)
    requires step.Receive? ==> step.message in s.gossip.messages
    requires step.Recheck? ==> step.look in s.gossip.looks
    ensures p in s.gossip.held || exists peers :: HasList(s, p.0, peers) && p.1 in peers
  {
    if step.Receive? {
      assert HasList(s, step.message.to, step.message.peers);
    } else if step.Recheck? {
      assert HasList(s, step.look.to, step.look.peers);
    }
  }

  lemma MessagesAreTables(s: State, step: Step, m: Message)
    requires m in MessagesAfter(s, step)
    ensures m in s.gossip.messages || (step.Broadcast? && m in Tables(s.wires, step.x))
  {}

  lemma GossipProperKept(all: set<nat>, s: State, step: Step)
    requires DialsProper(all, s) && Registered(s.wires) && GossipProper(all, s.gossip) && Enabled(all, s, step)
    ensures GossipProper(all, Apply(all, s, step).gossip)
  {
    var g := Apply(all, s, step).gossip;
    forall p | p in g.held ensures Proper(all, p) {
      HeldIsListed(s, step, p);
      if p !in s.gossip.held {
        var peers :| HasList(s, p.0, peers) && p.1 in peers;
        ListProper(all, s, p.0, peers, p.1);
      }
    }
    forall m, y | m in g.messages && y in m.peers ensures Proper(all, (m.to, y)) {
      MessagesAreTables(s, step, m);
      if m !in s.gossip.messages {
        TablesProper(all, s, step.x, m, y);
      }
    }
    forall look, y | look in g.looks && y in look.peers ensures Proper(all, (look.to, y)) {
      LooksAreLists(s, step, look);
      ListProper(all, s, look.to, look.peers, y);
    }
  }

  lemma DialStepKeepsWires(all: set<nat>, s: State, step: Step)
    requires MeshLinks.Inv(s.wires, s.dials) && DialsProper(all, s) && Enabled(all, s, step)
    requires step.Claim? || step.Clear? || step.Greet? || step.Finish? || step.ClaimAll?
    ensures MeshLinks.Inv(WiresAfter(s, step), DialsAfter(s, step))
  {
    match step
    case Claim(x, y) => AddDialsKeepsInv(s.wires, s.dials, s.dials[(x, y) := Dial(Claimed, true)]);
    case Clear(x, y) => ClearKeepsInv(s.wires, s.dials, (x, y));
    case Greet(x, y) =>
      assert Proper(all, (x, y));
      OpenKeepsInv(s.wires, s.dials, (x, y));
    case Finish(x, y) => DropDialKeepsInv(s.wires, s.dials, (x, y));
    case ClaimAll(look) => AddDialsKeepsInv(s.wires, s.dials, WithClaims(s.dials, look));
  }

  lemma WireStepKeepsWires(all: set<nat>, s: State, step: Step)
    requires MeshLinks.Inv(s.wires, s.dials) && Enabled(all, s, step)
    requires step.Register? || step.Shut? || step.Eof?
    ensures MeshLinks.Inv(WiresAfter(s, step), DialsAfter(s, step))
  {
    match step
    case Register(e, l) => DecideKeepsInv(s.wires, s.dials, e, l);
    case Shut(e, l) => ShutDownKeepsInv(s.wires, s.dials, e, l);
    case Eof(e, l) => EndReaderKeepsInv(s.wires, s.dials, e, l);
  }

  lemma WiresKept(all: set<nat>, s: State, step: Step)
    requires MeshLinks.Inv(s.wires, s.dials) && DialsProper(all, s) && Enabled(all, s, step)
    ensures MeshLinks.Inv(WiresAfter(s, step), DialsAfter(s, step))
  {
    if step.Claim? || step.Clear? || step.Greet? || step.Finish? || step.ClaimAll? {
      DialStepKeepsWires(all, s, step);
    } else if step.Register? || step.Shut? || step.Eof? {
      WireStepKeepsWires(all, s, step);
    } else {
      assert WiresAfter(s, step) == s.wires && DialsAfter(s, step) == s.dials;
    }
  }

  /** What holds of links and dials in every reachable state. */
  ghost predicate Sound(all: set<nat>, s: State) {
    MeshLinks.Inv(s.wires, s.dials) && DialsProper(all, s) && GossipProper(all, s.gossip) && HeldRight(s) && LooksRight(s)
  }

  /** Gossip is held only where a program is dialing. */
  ghost predicate HeldRight(s: State) {
    forall p :: p in s.gossip.held ==> ProgramDialing(s, p.0)
  }

  lemma WaitingStays(all: set<nat>, s: State, step: Step, p: (nat, nat))
    requires Enabled(all, s, step) && p in s.waiting && step != Claim(p.0, p.1)
    ensures p in Apply(all, s, step).waiting
  {}

  lemma ProgramDialStays(all: set<nat>, s: State, step: Step, p: (nat, nat))
    requires Enabled(all, s, step) && p in s.dials && s.dials[p].program && step != Finish(p.0, p.1)
    ensures p in Apply(all, s, step).dials && Apply(all, s, step).dials[p].program
  {}

  lemma EndingStays(all: set<nat>, s: State, step: Step, x: nat)
    requires Enabled(all, s, step) && x in s.ending && step != EndProgram(x)
    ensures x in Apply(all, s, step).ending
  {}

  lemma ProgramStays(all: set<nat>, s: State, step: Step, x: nat)
    requires Enabled(all, s, step) && ProgramDialing(s, x) && step != EndProgram(x)
    ensures ProgramDialing(Apply(all, s, step), x)
  {
    if x in s.ending {
      EndingStays(all, s, step, x);
    } else if p :| p in s.waiting && p.0 == x {
      WaitingProgramStays(all, s, step, p);
    } else {
      var p :| p in s.dials && p.0 == x && s.dials[p].program;
      DialingProgramStays(all, s, step, p);
    }
  }

  lemma WaitingProgramStays(all: set<nat>, s: State, step: Step, p: (nat, nat))
    requires Enabled(all, s, step) && p in s.waiting
    ensures ProgramDialing(Apply(all, s, step), p.0)
  {
    if step == Claim(p.0, p.1) {
      assert p in Apply(all, s, step).dials && Apply(all, s, step).dials[p].program;
    } else {
      WaitingStays(all, s, step, p);
    }
  }

  lemma DialingProgramStays(all: set<nat>, s: State, step: Step, p: (nat, nat))
    requires Enabled(all, s, step) && p in s.dials && s.dials[p].program
    ensures ProgramDialing(Apply(all, s, step), p.0)
  {
    if step == Finish(p.0, p.1) {
      assert p.0 in Apply(all, s, step).ending;
    } else {
      ProgramDialStays(all, s, step, p);
    }
  }

  lemma NewlyHeld(all: set<nat>, s: State, step: Step, p: (nat, nat))
    requires Enabled(all, s, step) && p in Apply(all, s, step).gossip.held
    ensures p in s.gossip.held || (ProgramDialing(s, p.0) && step != EndProgram(p.0))
    ensures step == EndProgram(p.0) ==> ProgramDialing(Apply(all, s, step), p.0)
  {
    if step == EndProgram(p.0) {
      assert p.1 in HeldAt(s.gossip, p.0);
    }
  }

  lemma HeldRightKept(all: set<nat>, s: State, step: Step)
    requires HeldRight(s) && Enabled(all, s, step)
    ensures HeldRight(Apply(all, s, step))
  {
    forall p | p in Apply(all, s, step).gossip.held ensures ProgramDialing(Apply(all, s, step), p.0) {
      NewlyHeld(all, s, step, p);
      if step != EndProgram(p.0) {
        ProgramStays(all, s, step, p.0);
      }
    }
  }

  /** A name a list leaves out because it was linked has had a link made to it. */
  ghost predicate LooksRight(s: State) {
    forall look, z :: look in s.gossip.looks && look.Compared? && z in look.seen ==> Joined(s.wires.links, look.to, z)
  }

  /** Links are never unmade. */
  lemma JoinedStays(all: set<nat>, s: State, step: Step, x: nat, y: nat)
    requires Enabled(all, s, step) && Joined(s.wires.links, x, y)
    ensures Joined(Apply(all, s, step).wires.links, x, y)
  {
    var l: nat :| l < |s.wires.links| && SamePair(s.wires.links[l], (x, y));
    assert Apply(all, s, step).wires.links[l] == s.wires.links[l];
  }

  lemma NewlyCompared(s: State, step: Step, look: Look)
    requires look in LooksAfter(s, step) && look.Compared?
    ensures look in s.gossip.looks || look.seen == PeersOf(s.wires, look.to)
  {}

  lemma LooksRightKept(all: set<nat>, s: State, step: Step)
    requires LooksRight(s) && Registered(s.wires) && Enabled(all, s, step)
    ensures LooksRight(Apply(all, s, step))
  {
    forall look, z | look in Apply(all, s, step).gossip.looks && look.Compared? && z in look.seen
      ensures Joined(Apply(all, s, step).wires.links, look.to, z)
    {
      NewlyCompared(s, step, look);
      if look !in s.gossip.looks {
        assert (look.to, z) in s.wires.nodes;
        RegisteredIsJoined(s.wires, look.to, z);
      }
      JoinedStays(all, s, step, look.to, z);
    }
  }

  lemma SoundKept(all: set<nat>, s: State, step: Step)
    requires Sound(all, s) && Enabled(all, s, step)
    ensures Sound(all, Apply(all, s, step))
  {
    WiresKept(all, s, step);
    DialsProperKept(all, s, step);
    GossipProperKept(all, s, step);
    HeldRightKept(all, s, step);
    LooksRightKept(all, s, step);
  }

  lemma RecheckHolds(s: State, look: Look, passed: Look)
    requires look.Drained? && passed.Passed? && ProgramDialing(s, passed.to)
    ensures LooksAfter(s, Recheck(look))[passed] <= s.gossip.looks[passed]
  {
    if look.to == passed.to {
      assert LooksAfter(s, Recheck(look)) == s.gossip.looks - multiset{look};
    } else {
      assert Passed(look.to, look.peers) != passed;
    }
  }

  /** While a program's dial is counted at a node, no list gets past the check there. */
  lemma NothingPassesWhileDialing(all: set<nat>, s: State, step: Step, passed: Look)
    requires Enabled(all, s, step) && passed.Passed? && ProgramDialing(s, passed.to)
    ensures LooksAfter(s, step)[passed] <= s.gossip.looks[passed]
  {
    match step
    case Recheck(look) => RecheckHolds(s, look, passed);
    case _ =>
  }
}
