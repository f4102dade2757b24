/**
 When a quiet cluster is fully meshed. News sent over the only link two nodes ever make is
 never lost; news sent over one of two may be. So a node's introduction of two of its peers can
 fail only if it made two links with each of them, and closure holds in every run exactly when
 no node may do that with two others.
 */
module MeshClosure {
  import opened Wrappers
  import opened MeshLinks
  import opened Mesh

  /** Two nodes, the one that sorts first in front. */
  function Pair(x: nat, y: nat): (nat, nat) {
    if x < y then (x, y) else (y, x)
  }

  /** Only the pairs in `doubled` have made more than one link. */
  ghost predicate DoubledOnly(links: seq<(nat, nat)>, doubled: set<(nat, nat)>) {
    forall l: nat, m: nat :: l < |links| && m < |links| && l != m && SamePair(links[l], links[m]) ==>
                               Pair(links[l].0, links[l].1) in doubled
  }

  /** The link is between nodes that make no second one. */
  ghost predicate Safe(links: seq<(nat, nat)>, doubled: set<(nat, nat)>, l: nat) {
    l < |links| && Pair(links[l].0, links[l].1) !in doubled
  }

  lemma SafeStands(links: seq<(nat, nat)>, doubled: set<(nat, nat)>, l: nat)
    requires DoubledOnly(links, doubled) && Safe(links, doubled, l) && links[l].0 != links[l].1
    ensures Stands(links, l)
  {
    forall m | 0 <= m < |links| ensures links[m] != (links[l].1, links[l].0) {
      assert m != l ==> !SamePair(links[l], links[m]);
    }
  }

  // ----- who has been told of whom ----------------------------------------------------------------------

  /** News of `z` is on its way to `y` over a link that will not be shut. */
  ghost predicate Told(s: State, doubled: set<(nat, nat)>, y: nat, z: nat) {
    exists m :: m in s.gossip.messages && m.to == y && z in m.peers && Safe(s.wires.links, doubled, m.link)
  }

  /** `y` has a list with `z` to look at, and has not found it linked. */
  ghost predicate LooksAt(s: State, y: nat, z: nat) {
    exists look :: look in s.gossip.looks && look.to == y && z in look.peers && !(look.Compared? && z in look.seen)
  }

  /** A link between the two was made, or `y` is dialing `z`, or will hear of it. */
  ghost predicate Aware(s: State, doubled: set<(nat, nat)>, y: nat, z: nat) {
    || Joined(s.wires.links, y, z) || (y, z) in s.dials || (y, z) in s.gossip.held
    || LooksAt(s, y, z) || Told(s, doubled, y, z)
  }

  lemma LooksAtWitness(s: State, look: Look, z: nat)
    requires look in s.gossip.looks && z in look.peers && !(look.Compared? && z in look.seen)
    ensures LooksAt(s, look.to, z)
  {}

  lemma TakenMessageHeeded(all: set<nat>, s: State, doubled: set<(nat, nat)>, m: Message, z: nat)
    requires Enabled(all, s, Receive(m)) && z in m.peers
    ensures Aware(Apply(all, s, Receive(m)), doubled, m.to, z)
  {
    var s' := Apply(all, s, Receive(m));
    if ProgramDialing(s, m.to) {
      assert (m.to, z) in From(m.to, m.peers);
    } else {
      LooksAtWitness(s', Passed(m.to, m.peers), z);
    }
  }

  lemma RecheckedHeeded(all: set<nat>, s: State, doubled: set<(nat, nat)>, look: Look, z: nat)
    requires Enabled(all, s, Recheck(look)) && z in look.peers
    ensures Aware(Apply(all, s, Recheck(look)), doubled, look.to, z)
  {
    var s' := Apply(all, s, Recheck(look));
    if ProgramDialing(s, look.to) {
      assert (look.to, z) in From(look.to, look.peers);
    } else {
      LooksAtWitness(s', Passed(look.to, look.peers), z);
    }
  }

  lemma ComparedHeeded(all: set<nat>, s: State, doubled: set<(nat, nat)>, look: Look, z: nat)
    requires Registered(s.wires) && Enabled(all, s, Compare(look)) && z in look.peers
    ensures Aware(Apply(all, s, Compare(look)), doubled, look.to, z)
  {
    var s', seen := Apply(all, s, Compare(look)), PeersOf(s.wires, look.to);
    if z in seen {
      RegisteredIsJoined(s.wires, look.to, z);
    } else {
      LooksAtWitness(s', Compared(look.to, look.peers, seen), z);
    }
  }

  lemma ClaimedHeeded(all: set<nat>, s: State, doubled: set<(nat, nat)>, look: Look, z: nat)
    requires Enabled(all, s, ClaimAll(look)) && z in look.peers && z !in look.seen && z != look.to
    ensures Aware(Apply(all, s, ClaimAll(look)), doubled, look.to, z)
  {
    assert (look.to, z) in From(look.to, look.peers - {look.to} - look.seen);
  }

  lemma LooksAtKept(all: set<nat>, s: State, doubled: set<(nat, nat)>, step: Step, y: nat, z: nat)
    requires Registered(s.wires) && Enabled(all, s, step) && LooksAt(s, y, z) && y != z
    ensures Aware(Apply(all, s, step), doubled, y, z)
  {
    var look :| look in s.gossip.looks && look.to == y && z in look.peers && !(look.Compared? && z in look.seen);
    if step == Recheck(look) {
      RecheckedHeeded(all, s, doubled, look, z);
    } else if step == Compare(look) {
      ComparedHeeded(all, s, doubled, look, z);
    } else if step == ClaimAll(look) {
      ClaimedHeeded(all, s, doubled, look, z);
    } else {
      LookStays(s, step, look);
      LooksAtWitness(Apply(all, s, step), look, z);
    }
  }

  lemma LookStays(s: State, step: Step, look: Look)
    requires look in s.gossip.looks && step != Recheck(look) && step != Compare(look) && step != ClaimAll(look)
    ensures look in LooksAfter(s, step)
  {}

  lemma SafeStays(all: set<nat>, s: State, doubled: set<(nat, nat)>, step: Step, l: nat)
    requires Enabled(all, s, step) && Safe(s.wires.links, doubled, l)
    ensures Safe(Apply(all, s, step).wires.links, doubled, l)
  {}

  /** A message on the only link of its nodes is never lost. */
  lemma ToldKept(all: set<nat>, s: State, doubled: set<(nat, nat)>, step: Step, y: nat, z: nat)
    requires MeshLinks.Inv(s.wires, s.dials) && DoubledOnly(s.wires.links, doubled)
    requires Enabled(all, s, step) && Told(s, doubled, y, z)
    ensures Aware(Apply(all, s, step), doubled, y, z)
  {
    var m :| m in s.gossip.messages && m.to == y && z in m.peers && Safe(s.wires.links, doubled, m.link);
    if step == Receive(m) {
      TakenMessageHeeded(all, s, doubled, m, z);
    } else {
      SafeNotShut(s, doubled, m.link);
      MessageStays(s, step, m);
      SafeStays(all, s, doubled, step, m.link);
      assert Told(Apply(all, s, step), doubled, y, z);
    }
  }

  lemma SafeNotShut(s: State, doubled: set<(nat, nat)>, l: nat)
    requires MeshLinks.Inv(s.wires, s.dials) && DoubledOnly(s.wires.links, doubled) && Safe(s.wires.links, doubled, l)
    ensures l !in s.wires.shut
  {
    SafeStands(s.wires.links, doubled, l);
    assert IsEnd(s.wires.links, s.wires.links[l].0, l);
    assert HoldsAt(s.wires, s.wires.links[l].0, l);
  }

  lemma MessageStays(s: State, step: Step, m: Message)
    requires m in s.gossip.messages && step != Receive(m) && step != Lose(m)
    ensures m in MessagesAfter(s, step)
  {}

  lemma DialingKept(all: set<nat>, s: State, step: Step, y: nat, z: nat)
    requires MeshLinks.Inv(s.wires, s.dials) && Enabled(all, s, step) && (y, z) in s.dials
    ensures (y, z) in Apply(all, s, step).dials || Joined(Apply(all, s, step).wires.links, y, z)
  {
    if step == Finish(y, z) {
      if s.dials[(y, z)].stage.Greeted? {
        assert SamePair(s.wires.links[s.dials[(y, z)].stage.link], (y, z));
      } else {
        RegisteredIsJoined(s.wires, y, z);
      }
      JoinedStays(all, s, step, y, z);
    }
  }

  lemma HeldKept(all: set<nat>, s: State, doubled: set<(nat, nat)>, step: Step, y: nat, z: nat)
    requires Enabled(all, s, step) && (y, z) in s.gossip.held
    ensures Aware(Apply(all, s, step), doubled, y, z)
  {
    var s' := Apply(all, s, step);
    if (y, z) !in s'.gossip.held {
      assert step == EndProgram(y) && z in HeldAt(s.gossip, y);
      LooksAtWitness(s', Drained(y, HeldAt(s.gossip, y)), z);
    }
  }

  /** Once aware, always aware. */
  lemma AwareKept(all: set<nat>, s: State, doubled: set<(nat, nat)>, step: Step, y: nat, z: nat)
    requires MeshLinks.Inv(s.wires, s.dials) && DoubledOnly(s.wires.links, doubled)
    requires Enabled(all, s, step) && Aware(s, doubled, y, z) && y != z
    ensures Aware(Apply(all, s, step), doubled, y, z)
  {
    if Joined(s.wires.links, y, z) {
      JoinedStays(all, s, step, y, z);
    } else if (y, z) in s.dials {
      DialingKept(all, s, step, y, z);
    } else if (y, z) in s.gossip.held {
      HeldKept(all, s, doubled, step, y, z);
    } else if LooksAt(s, y, z) {
      LooksAtKept(all, s, doubled, step, y, z);
    } else {
      ToldKept(all, s, doubled, step, y, z);
    }
  }

  // ----- introductions --------------------------------------------------------------------------------------

  /** A node's peers are told of each other over safe links, unless it is still to broadcast. */
  ghost predicate Introduced(s: State, doubled: set<(nat, nat)>) {
    forall x: nat, y: nat, z: nat ::
      (x, y) in s.wires.nodes && (x, z) in s.wires.nodes && y != z && Pair(x, y) !in doubled ==>
        x in s.gossip.owing || Aware(s, doubled, y, z)
  }

  lemma BroadcastTells(all: set<nat>, s: State, doubled: set<(nat, nat)>, x: nat, y: nat, z: nat)
    requires Registered(s.wires) && Enabled(all, s, Broadcast(x)) && Pair(x, y) !in doubled
    requires (x, y) in s.wires.nodes && (x, z) in s.wires.nodes && y != z
    ensures Told(Apply(all, s, Broadcast(x)), doubled, y, z)
  {
    var peers := PeersOf(s.wires, x);
    assert (x, y).1 in peers && (x, z).1 in peers;
    assert z in peers - {y};
    var m := Message(s.wires.nodes[(x, y)], y, peers - {y});
    assert m in Tables(s.wires, x);
    assert m in Apply(all, s, Broadcast(x)).gossip.messages;
    assert SamePair(s.wires.links[m.link], (x, y));
    assert Safe(Apply(all, s, Broadcast(x)).wires.links, doubled, m.link);
  }

  /** The peers of a node are those it had, and one it has just registered as new. */
  lemma PeersGrowByRegistering(s: State, step: Step, p: (nat, nat))
    requires p in WiresAfter(s, step).nodes && p !in s.wires.nodes
    ensures p.0 in OwingAfter(s, step)
  {}

  lemma OwingStays(s: State, step: Step, x: nat)
    requires x in s.gossip.owing && step != Broadcast(x)
    ensures x in OwingAfter(s, step)
  {}

  lemma PairIntroduced(all: set<nat>, s: State, doubled: set<(nat, nat)>, step: Step, x: nat, y: nat, z: nat)
    requires MeshLinks.Inv(s.wires, s.dials) && DoubledOnly(s.wires.links, doubled)
    requires Introduced(s, doubled) && Enabled(all, s, step) && y != z && Pair(x, y) !in doubled
    requires (x, y) in Apply(all, s, step).wires.nodes && (x, z) in Apply(all, s, step).wires.nodes
    ensures x in Apply(all, s, step).gossip.owing || Aware(Apply(all, s, step), doubled, y, z)
  {
    if (x, y) !in s.wires.nodes {
      PeersGrowByRegistering(s, step, (x, y));
    } else if (x, z) !in s.wires.nodes {
      PeersGrowByRegistering(s, step, (x, z));
    } else if step == Broadcast(x) {
      BroadcastTells(all, s, doubled, x, y, z);
    } else if x in s.gossip.owing {
      OwingStays(s, step, x);
    } else {
      AwareKept(all, s, doubled, step, y, z);
    }
  }

  lemma IntroducedKept(all: set<nat>, s: State, doubled: set<(nat, nat)>, step: Step)
    requires MeshLinks.Inv(s.wires, s.dials) && DoubledOnly(s.wires.links, doubled)
    requires Introduced(s, doubled) && Enabled(all, s, step)
    ensures Introduced(Apply(all, s, step), doubled)
  {
    forall x: nat, y: nat, z: nat |
      && (x, y) in Apply(all, s, step).wires.nodes && (x, z) in Apply(all, s, step).wires.nodes
      && y != z && Pair(x, y) !in doubled
      ensures x in Apply(all, s, step).gossip.owing || Aware(Apply(all, s, step), doubled, y, z)
    {
      PairIntroduced(all, s, doubled, step, x, y, z);
    }
  }

  // ----- over whole runs --------------------------------------------------------------------------------------

  lemma DoubledBefore(all: set<nat>, s: State, step: Step, doubled: set<(nat, nat)>)
    requires Enabled(all, s, step) && DoubledOnly(Apply(all, s, step).wires.links, doubled)
    ensures DoubledOnly(s.wires.links, doubled)
  {
    var links := Apply(all, s, step).wires.links;
    assert |s.wires.links| <= |links| && forall l :: 0 <= l < |s.wires.links| ==> links[l] == s.wires.links[l];
  }

  lemma NextKeeps(all: set<nat>, s: State, s': State, doubled: set<(nat, nat)>)
    requires Next(all, s, s') && DoubledOnly(s'.wires.links, doubled)
    ensures DoubledOnly(s.wires.links, doubled)
    ensures Sound(all, s) && Introduced(s, doubled) ==> Sound(all, s') && Introduced(s', doubled)
  {
    var step :| Enabled(all, s, step) && s' == Apply(all, s, step);
    DoubledBefore(all, s, step, doubled);
    if Sound(all, s) && Introduced(s, doubled) {
      SoundKept(all, s, step);
      IntroducedKept(all, s, doubled, step);
    }
  }

  lemma {:induction false} RunIntroduces(all: set<nat>, run: seq<State>, i: nat, doubled: set<(nat, nat)>)
    requires IsRun(all, run) && i < |run| && DoubledOnly(run[i].wires.links, doubled)
    ensures Sound(all, run[i]) && Introduced(run[i], doubled)
  {
    if i == 0 {
      InitIntroduces(all, run[0], doubled);
    } else {
      assert Next(all, run[i - 1], run[i - 1 + 1]);
      NextKeeps(all, run[i - 1], run[i], doubled);
      RunIntroduces(all, run, i - 1, doubled);
    }
  }

  lemma InitIntroduces(all: set<nat>, s: State, doubled: set<(nat, nat)>)
    requires Init(s)
    ensures Sound(all, s) && Introduced(s, doubled)
  {}

  lemma ReachableIntroduces(all: set<nat>, s: State, doubled: set<(nat, nat)>)
    requires Reachable(all, s) && DoubledOnly(s.wires.links, doubled)
    ensures Sound(all, s) && Introduced(s, doubled)
  {
    var run :| IsRun(all, run) && run[|run| - 1] == s;
    RunIntroduces(all, run, |run| - 1, doubled);
  }

  /** Nothing is left to happen. */
  ghost predicate Quiet(s: State) {
    && s.budget == 0 && s.waiting == multiset{} && s.ending == multiset{} && s.dials == map[]
    && s.wires.undecided == {} && s.wires.owed == {} && (forall p :: p in s.wires.readers ==> p.1 !in s.wires.shut)
    && s.gossip.owing == multiset{} && s.gossip.messages == multiset{} && s.gossip.looks == multiset{}
  }

  /** Both have registered a link to the other, and it is the same link. */
  ghost predicate Linked(s: State, x: nat, y: nat) {
    (x, y) in s.wires.nodes && (y, x) in s.wires.nodes && s.wires.nodes[(x, y)] == s.wires.nodes[(y, x)]
  }

  /** In a quiet state, a node's introduction of two peers has failed only if it made two links with each. */
  lemma IntroductionsFailOnlyTwice(all: set<nat>, s: State, x: nat, y: nat, z: nat, doubled: set<(nat, nat)>)
    requires Reachable(all, s) && Quiet(s) && DoubledOnly(s.wires.links, doubled)
    requires (x, y) in s.wires.nodes && (x, z) in s.wires.nodes && y != z
    ensures Linked(s, y, z) || (Pair(x, y) in doubled && Pair(x, z) in doubled)
  {
    ReachableIntroduces(all, s, doubled);
    if Pair(x, y) !in doubled {
      QuietIntroduced(all, s, doubled, x, y, z);
    } else if Pair(x, z) !in doubled {
      QuietIntroduced(all, s, doubled, x, z, y);
    }
  }

  lemma QuietIntroduced(all: set<nat>, s: State, doubled: set<(nat, nat)>, x: nat, y: nat, z: nat)
    requires Sound(all, s) && Quiet(s) && Introduced(s, doubled)
    requires (x, y) in s.wires.nodes && (x, z) in s.wires.nodes && y != z && Pair(x, y) !in doubled
    ensures Linked(s, y, z) && Linked(s, z, y)
  {
    IntroducedAware(s, doubled, x, y, z);
    QuietAwareIsLinked(all, s, doubled, y, z);
  }

  lemma IntroducedAware(s: State, doubled: set<(nat, nat)>, x: nat, y: nat, z: nat)
    requires Introduced(s, doubled) && x !in s.gossip.owing
    requires (x, y) in s.wires.nodes && (x, z) in s.wires.nodes && y != z && Pair(x, y) !in doubled
    ensures Aware(s, doubled, y, z)
  {}

  lemma NothingHeld(s: State)
    requires HeldRight(s) && s.waiting == multiset{} && s.ending == multiset{} && s.dials == map[]
    ensures s.gossip.held == {}
  {
    assert forall x :: !ProgramDialing(s, x);
  }

  lemma QuietAwareIsLinked(all: set<nat>, s: State, doubled: set<(nat, nat)>, y: nat, z: nat)
    requires Sound(all, s) && Quiet(s) && Aware(s, doubled, y, z) && y != z
    ensures Linked(s, y, z) && Linked(s, z, y)
  {
    NothingHeld(s);
    JoinedIsRegistered(s.wires, y, z);
  }

  /** No node is in two of the pairs. */
  ghost predicate Apart(all: set<nat>, doubled: set<(nat, nat)>) {
    forall x: nat, y: nat, z: nat ::
      x in all && y in all && z in all && x != y && x != z && y != z ==> !(Pair(x, y) in doubled && Pair(x, z) in doubled)
  }

  /** `path` goes from link to link. */
  ghost predicate IsPath(s: State, path: seq<nat>) {
    |path| > 0 && forall i :: 0 <= i < |path| - 1 ==> (path[i], path[i + 1]) in s.wires.nodes
  }

  lemma QuietTransitive(all: set<nat>, s: State, x: nat, y: nat, z: nat, doubled: set<(nat, nat)>)
    requires Reachable(all, s) && Quiet(s) && DoubledOnly(s.wires.links, doubled) && Apart(all, doubled)
    requires Linked(s, x, y) && (y, z) in s.wires.nodes && x != z
    ensures Linked(s, x, z)
  {
    ReachableIntroduces(all, s, doubled);
    RegisteredProper(all, s, (y, x));
    RegisteredProper(all, s, (y, z));
    IntroductionsFailOnlyTwice(all, s, y, x, z, doubled);
  }

  lemma QuietIsSymmetric(all: set<nat>, s: State, x: nat, y: nat)
    requires Sound(all, s) && Quiet(s) && (x, y) in s.wires.nodes
    ensures Linked(s, x, y)
  {
    RegisteredIsJoined(s.wires, x, y);
    RegisteredProper(all, s, (x, y));
    JoinedIsRegistered(s.wires, x, y);
  }

  /**
   In a quiet state in which no node made two links with each of two others, any two nodes
   joined by a chain of links have a link of their own, the same one at both ends.
   */
  lemma {:induction false} MeshIsClosed(all: set<nat>, s: State, path: seq<nat>, doubled: set<(nat, nat)>)
    requires Reachable(all, s) && Quiet(s) && DoubledOnly(s.wires.links, doubled) && Apart(all, doubled)
    requires IsPath(s, path)
    ensures path[0] == path[|path| - 1] || Linked(s, path[0], path[|path| - 1])
    decreases |path|
  {
    if |path| > 1 {
      var last := |path| - 1;
      var shorter := path[..last];
      assert IsPath(s, shorter);
      MeshIsClosed(all, s, shorter, doubled);
      assert (path[last - 1], path[last]) in s.wires.nodes;
      if path[0] == path[last - 1] {
        ReachableIntroduces(all, s, doubled);
        QuietIsSymmetric(all, s, path[0], path[last]);
      } else if path[0] != path[last] {
        QuietTransitive(all, s, path[0], path[last - 1], path[last], doubled);
      }
    }
  }

  lemma DialNext(all: set<nat>, s: State, s': State, p: (nat, nat))
    requires MeshLinks.Inv(s.wires, s.dials) && Next(all, s, s') && (p in s.dials || Joined(s.wires.links, p.0, p.1))
    ensures p in s'.dials || Joined(s'.wires.links, p.0, p.1)
  {
    var step :| Enabled(all, s, step) && s' == Apply(all, s, step);
    if p in s.dials {
      DialingKept(all, s, step, p.0, p.1);
    } else {
      JoinedStays(all, s, step, p.0, p.1);
    }
  }

  /** What every step keeps holds from one state of a run to any later one. */
  lemma {:induction false} RunKeeps(all: set<nat>, run: seq<State>, i: nat, j: nat, holds: State -> bool)
    requires IsRun(all, run) && i <= j < |run| && holds(run[i])
    requires forall s, s' :: holds(s) && Next(all, s, s') ==> holds(s')
    ensures holds(run[j])
    decreases j
  {
    if i < j {
      RunKeeps(all, run, i, j - 1, holds);
      assert Next(all, run[j - 1], run[j - 1 + 1]);
    }
  }

  lemma SoundNext(all: set<nat>, s: State, s': State)
    requires Sound(all, s) && Next(all, s, s')
    ensures Sound(all, s')
  {
    var step :| Enabled(all, s, step) && s' == Apply(all, s, step);
    SoundKept(all, s, step);
  }

  lemma DialsMakeLinks(all: set<nat>, run: seq<State>, i: nat, j: nat, p: (nat, nat))
    requires IsRun(all, run) && i <= j < |run| && p in run[i].dials
    ensures p in run[j].dials || Joined(run[j].wires.links, p.0, p.1)
  {
    var holds := (s: State) => Sound(all, s) && (p in s.dials || Joined(s.wires.links, p.0, p.1));
    forall s, s' | holds(s) && Next(all, s, s') ensures holds(s') {
      SoundNext(all, s, s');
      DialNext(all, s, s', p);
    }
    RunIsSound(all, run, i);
    RunKeeps(all, run, i, j, holds);
  }

  lemma RunIsSound(all: set<nat>, run: seq<State>, i: nat)
    requires IsRun(all, run) && i < |run|
    ensures Sound(all, run[i])
  {
    var every := set l | l in run[i].wires.links :: Pair(l.0, l.1);
    assert DoubledOnly(run[i].wires.links, every);
    RunIntroduces(all, run, i, every);
  }

  /** A dial, once claimed, is a link at both ends when the cluster has come to rest. */
  lemma DialsEndInLinks(all: set<nat>, run: seq<State>, i: nat, j: nat, p: (nat, nat))
    requires IsRun(all, run) && i <= j < |run| && p in run[i].dials && Quiet(run[j])
    ensures Linked(run[j], p.0, p.1)
  {
    DialsMakeLinks(all, run, i, j, p);
    RunIsSound(all, run, i);
    RunIsSound(all, run, j);
    assert Proper(all, p);
    JoinedIsRegistered(run[j].wires, p.0, p.1);
  }
}
