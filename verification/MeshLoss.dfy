/**
 How gossip is lost. Between a node and two others all dial each other at once. The node
 registers the two links that will lose first, and its news of each peer to the other rides on
 them; by the time it has the two links that stand, both peers are known to it, and it has no
 news to tell. The two never hear of each other.
 */
module MeshLoss {
  import opened Wrappers
  import opened MeshLinks
  import opened Mesh
  import opened MeshClosure
  import opened MeshEnd

  lemma Take(all: set<nat>, s: State, step: Step) returns (s': State)
    requires Reachable(all, s) && Enabled(all, s, step)
    ensures Reachable(all, s') && s' == Apply(all, s, step)
  {
    var run :| IsRun(all, run) && run[|run| - 1] == s;
    s' := Apply(all, s, step);
    var longer := run + [s'];
    forall i | 0 <= i < |longer| - 1 ensures Next(all, longer[i], longer[i + 1]) {
      if i < |run| - 1 {
        assert Next(all, run[i], run[i + 1]);
      } else {
        assert longer[i] == s && longer[i + 1] == s';
      }
    }
    assert IsRun(all, longer);
  }

  /** A program dials, claims, finds no link in the table, and greets. */
  lemma DialAndGreet(all: set<nat>, s: State, x: nat, y: nat) returns (s': State)
    requires Reachable(all, s) && s.budget > 0 && x in all && y in all && x != y
    requires (x, y) !in s.dials && (x, y) !in s.wires.nodes
    ensures Reachable(all, s')
    ensures s' == s.(budget := s.budget - 1, wires := Open(s.wires, x, y),
                  dials := s.dials[(x, y) := Dial(Greeted(|s.wires.links|), true)])
  {
    var s1 := Take(all, s, Program(x, y));
    var s2 := Take(all, s1, Claim(x, y));
    assert s2.waiting == s.waiting;
    var s3 := Take(all, s2, Clear(x, y));
    s' := Take(all, s3, Greet(x, y));
    assert s'.dials == s.dials[(x, y) := Dial(Greeted(|s.wires.links|), true)];
  }

  /** The links of the story: 0 and 2 will lose, 1 and 3 will stand. */
  function LinksOf(n: nat, p: nat, q: nat): seq<(nat, nat)> {
    [Second(n, p), First(n, p), Second(n, q), First(n, q)]
  }

  /** A dial by the node that sorts first, and one by the other. */
  function First(x: nat, y: nat): (nat, nat) {
    if x < y then (x, y) else (y, x)
  }

  function Second(x: nat, y: nat): (nat, nat) {
    if x < y then (y, x) else (x, y)
  }

  function EndsOf(n: nat, p: nat, q: nat): set<(nat, nat)> {
    {(n, 0), (p, 0), (n, 1), (p, 1), (n, 2), (q, 2), (n, 3), (q, 3)}
  }

  ghost predicate Three(all: set<nat>, n: nat, p: nat, q: nat) {
    n in all && p in all && q in all && n != p && n != q && p != q
  }

  /** `x` and `y` both dial, the one that sorts second first, and greet. */
  lemma BothGreet(all: set<nat>, s: State, x: nat, y: nat) returns (s': State)
    requires Reachable(all, s) && s.budget >= 2 && x in all && y in all && x != y
    requires (x, y) !in s.dials && (y, x) !in s.dials && s.wires.nodes == map[]
    ensures Reachable(all, s') && s'.budget == s.budget - 2 && s'.waiting == s.waiting && s'.ending == s.ending
    ensures s'.gossip == s.gossip
    ensures var k := |s.wires.links|;
            s'.wires == s.wires.(links := s.wires.links + [Second(x, y), First(x, y)],
                          undecided := s.wires.undecided + {(x, k), (y, k), (x, k + 1), (y, k + 1)})
    ensures s'.dials.Keys == s.dials.Keys + {(x, y), (y, x)}
    ensures forall d :: d in s'.dials && d !in s.dials ==> s'.dials[d].stage.Greeted?
    ensures forall d :: d in s.dials ==> s'.dials[d] == s.dials[d]
  {
    var a, b := Second(x, y), First(x, y);
    var s1 := DialAndGreet(all, s, a.0, a.1);
    s' := DialAndGreet(all, s1, b.0, b.1);
    assert s'.wires.links == s.wires.links + [a, b];
    var k := |s.wires.links|;
    assert s'.wires.undecided == s.wires.undecided + {(x, k), (y, k), (x, k + 1), (y, k + 1)};
  }

  /** All four dials have greeted, and nobody has registered anything. */
  lemma AllGreeted(all: set<nat>, n: nat, p: nat, q: nat) returns (s: State)
    requires Three(all, n, p, q)
    ensures Reachable(all, s) && s.budget == 0 && s.waiting == multiset{} && s.ending == multiset{}
    ensures s.gossip == Gossip(multiset{}, multiset{}, multiset{}, {})
    ensures s.wires == Wires(LinksOf(n, p, q), EndsOf(n, p, q), map[], {}, {}, {})
    ensures forall d :: d in s.dials ==> s.dials[d].stage.Greeted?
  {
    var s0 := Start(all);
    var s1 := BothGreet(all, s0, n, p);
    s := BothGreet(all, s1, n, q);
    assert s.wires.links == LinksOf(n, p, q);
    assert s.wires.undecided == EndsOf(n, p, q);
  }

  lemma Start(all: set<nat>) returns (s: State)
    ensures Reachable(all, s) && Init(s) && s.budget == 4
  {
    s := State(Wires([], {}, map[], {}, {}, {}), map[], multiset{}, multiset{}, Gossip(multiset{}, multiset{}, multiset{}, {}), 4);
    assert IsRun(all, [s]) && [s][|[s]| - 1] == s;
  }

  // ----- the order of registering -------------------------------------------------------------------------

  /** The wires after some ends have decided. */
  function WiresOf(n: nat, p: nat, q: nat, decided: set<(nat, nat)>, nodes: map<(nat, nat), nat>, readers: set<(nat, nat)>,
                   owed: set<(nat, nat)>): Wires {
    Wires(LinksOf(n, p, q), EndsOf(n, p, q) - decided, nodes, readers, owed, {})
  }

  /** `n` registers the two links that will lose, and then broadcasts, once for each. */
  lemma LosersFirst(all: set<nat>, n: nat, p: nat, q: nat) returns (s: State)
    requires Three(all, n, p, q)
    ensures Reachable(all, s) && s.budget == 0 && s.waiting == multiset{} && s.ending == multiset{}
    ensures s.wires == LosersAtN(n, p, q)
    ensures s.gossip.owing == multiset{} && s.gossip.looks == multiset{} && s.gossip.held == {}
    ensures forall m :: m in s.gossip.messages ==> (m.to, m.link) == (p, 0) || (m.to, m.link) == (q, 2)
    ensures forall d :: d in s.dials ==> s.dials[d].stage.Greeted?
  {
    var s0 := AllGreeted(all, n, p, q);
    assert Across(s0.wires.links[0], n) == p && Across(s0.wires.links[2], n) == q;
    var s1 := Take(all, s0, Register(n, 0));
    assert s1.wires == WiresOf(n, p, q, {(n, 0)}, map[(n, p) := 0], {(n, 0)}, {});
    assert s1.gossip == Gossip(multiset{n}, multiset{}, multiset{}, {});
    var s2 := Take(all, s1, Register(n, 2));
    assert s2.wires == WiresOf(n, p, q, {(n, 0), (n, 2)}, map[(n, p) := 0, (n, q) := 2], {(n, 0), (n, 2)}, {});
    assert s2.gossip == Gossip(multiset{n, n}, multiset{}, multiset{}, {});
    var s3 := Take(all, s2, Broadcast(n));
    TablesOnLosers(n, p, q, s2.wires);
    s := Take(all, s3, Broadcast(n));
  }

  lemma TablesOnLosers(n: nat, p: nat, q: nat, w: Wires)
    requires n != p && n != q && p != q && w.nodes == map[(n, p) := 0, (n, q) := 2]
    ensures forall m :: m in Tables(w, n) ==> (m.to, m.link) == (p, 0) || (m.to, m.link) == (q, 2)
  {}

  /** What every state from here on shares: the news that was to be told is on the losing links, and there is no other. */
  ghost predicate AllSaid(n: nat, p: nat, q: nat, s: State) {
    && s.budget == 0 && s.waiting == multiset{} && s.gossip.looks == multiset{} && s.gossip.held == {}
    && n !in s.gossip.owing
    && (forall m :: m in s.gossip.messages ==> (m.to, m.link) == (p, 0) || (m.to, m.link) == (q, 2))
    && (forall d :: d in s.dials ==> s.dials[d].stage.Greeted?)
  }

  lemma RegisterKeepsAllSaid(all: set<nat>, n: nat, p: nat, q: nat, s: State, e: nat, l: nat)
    requires AllSaid(n, p, q, s) && Enabled(all, s, Register(e, l)) && (e == n ==> !IsNew(s.wires, e, l))
    ensures AllSaid(n, p, q, Apply(all, s, Register(e, l)))
  {}

  lemma TakeRegister(all: set<nat>, n: nat, p: nat, q: nat, s: State, e: nat, l: nat) returns (s': State)
    requires Reachable(all, s) && AllSaid(n, p, q, s) && (e, l) in s.wires.undecided && l < |s.wires.links|
    requires e == n ==> !IsNew(s.wires, e, l)
    ensures Reachable(all, s') && AllSaid(n, p, q, s') && s'.wires == Decide(s.wires, e, l)
  {
    s' := Take(all, s, Register(e, l));
    RegisterKeepsAllSaid(all, n, p, q, s, e, l);
  }

  function LosersAtN(n: nat, p: nat, q: nat): Wires {
    WiresOf(n, p, q, {(n, 0), (n, 2)}, map[(n, p) := 0, (n, q) := 2], {(n, 0), (n, 2)}, {})
  }

  function WinnerAtP(n: nat, p: nat, q: nat): Wires {
    WiresOf(n, p, q, {(n, 0), (n, 2), (p, 1)}, map[(n, p) := 0, (n, q) := 2, (p, n) := 1], {(n, 0), (n, 2), (p, 1)}, {})
  }

  function WinnersAtBoth(n: nat, p: nat, q: nat): Wires {
    WiresOf(n, p, q, {(n, 0), (n, 2), (p, 1), (q, 3)},
            map[(n, p) := 0, (n, q) := 2, (p, n) := 1, (q, n) := 3], {(n, 0), (n, 2), (p, 1), (q, 3)}, {})
  }

  function LoserRefused(n: nat, p: nat, q: nat): Wires {
    WiresOf(n, p, q, {(n, 0), (n, 2), (p, 1), (q, 3), (p, 0)},
            map[(n, p) := 0, (n, q) := 2, (p, n) := 1, (q, n) := 3], {(n, 0), (n, 2), (p, 1), (q, 3)}, {(p, 0)})
  }

  function LosersRefused(n: nat, p: nat, q: nat): Wires {
    WiresOf(n, p, q, {(n, 0), (n, 2), (p, 1), (q, 3), (p, 0), (q, 2)},
            map[(n, p) := 0, (n, q) := 2, (p, n) := 1, (q, n) := 3], {(n, 0), (n, 2), (p, 1), (q, 3)}, {(p, 0), (q, 2)})
  }

  lemma PDecides(n: nat, p: nat, q: nat)
    requires n != p && n != q && p != q
    ensures Decide(LosersAtN(n, p, q), p, 1) == WinnerAtP(n, p, q)
  {
    assert Across(LinksOf(n, p, q)[1], p) == n;
  }

  lemma QDecides(n: nat, p: nat, q: nat)
    requires n != p && n != q && p != q
    ensures Decide(WinnerAtP(n, p, q), q, 3) == WinnersAtBoth(n, p, q)
  {
    assert Across(LinksOf(n, p, q)[3], q) == n;
  }

  lemma PRefuses(n: nat, p: nat, q: nat)
    requires n != p && n != q && p != q
    ensures Decide(WinnersAtBoth(n, p, q), p, 0) == LoserRefused(n, p, q)
  {
    assert Across(LinksOf(n, p, q)[0], p) == n;
  }

  lemma QRefuses(n: nat, p: nat, q: nat)
    requires n != p && n != q && p != q
    ensures Decide(LoserRefused(n, p, q), q, 2) == LosersRefused(n, p, q)
  {
    assert Across(LinksOf(n, p, q)[2], q) == n;
  }

  /** The two peers have registered the links that stand, and turned the losers away unread. */
  lemma LosersTurnedAway(all: set<nat>, n: nat, p: nat, q: nat) returns (s: State)
    requires Three(all, n, p, q)
    ensures Reachable(all, s) && AllSaid(n, p, q, s) && s.wires == LosersRefused(n, p, q)
  {
    s := LosersFirst(all, n, p, q);
    PDecides(n, p, q);
    s := TakeRegister(all, n, p, q, s, p, 1);
    QDecides(n, p, q);
    s := TakeRegister(all, n, p, q, s, q, 3);
    PRefuses(n, p, q);
    s := TakeRegister(all, n, p, q, s, p, 0);
    QRefuses(n, p, q);
    s := TakeRegister(all, n, p, q, s, q, 2);
  }

  function WinnerAtN(n: nat, p: nat, q: nat): Wires {
    WiresOf(n, p, q, {(n, 0), (n, 2), (p, 1), (q, 3), (p, 0), (q, 2), (n, 1)},
            map[(n, p) := 1, (n, q) := 2, (p, n) := 1, (q, n) := 3],
            {(n, 0), (n, 2), (p, 1), (q, 3), (n, 1)}, {(p, 0), (q, 2), (n, 0)})
  }

  function WinnersAtN(n: nat, p: nat, q: nat): Wires {
    WiresOf(n, p, q, EndsOf(n, p, q), map[(n, p) := 1, (n, q) := 3, (p, n) := 1, (q, n) := 3],
            {(n, 0), (n, 2), (p, 1), (q, 3), (n, 1), (n, 3)}, {(p, 0), (q, 2), (n, 0), (n, 2)})
  }

  lemma NEvictsForP(n: nat, p: nat, q: nat)
    requires n != p && n != q && p != q
    ensures !IsNew(LosersRefused(n, p, q), n, 1) && Decide(LosersRefused(n, p, q), n, 1) == WinnerAtN(n, p, q)
  {
    assert Across(LinksOf(n, p, q)[1], n) == p;
    assert Wins(LosersRefused(n, p, q), n, 1);
  }

  lemma NEvictsForQ(n: nat, p: nat, q: nat)
    requires n != p && n != q && p != q
    ensures !IsNew(WinnerAtN(n, p, q), n, 3) && Decide(WinnerAtN(n, p, q), n, 3) == WinnersAtN(n, p, q)
  {
    assert Across(LinksOf(n, p, q)[3], n) == q;
    assert Wins(WinnerAtN(n, p, q), n, 3);
  }

  /** And `n` has registered the links that stand in place of the losers, with nothing to tell. */
  lemma WinnersLast(all: set<nat>, n: nat, p: nat, q: nat) returns (s: State)
    requires Three(all, n, p, q)
    ensures Reachable(all, s) && AllSaid(n, p, q, s) && s.wires == WinnersAtN(n, p, q)
  {
    s := LosersTurnedAway(all, n, p, q);
    NEvictsForP(n, p, q);
    s := TakeRegister(all, n, p, q, s, n, 1);
    NEvictsForQ(n, p, q);
    s := TakeRegister(all, n, p, q, s, n, 3);
  }

  // ----- nothing comes of it any more ----------------------------------------------------------------------

  /** The two have no link, and no step will make them one. */
  ghost predicate Doomed(n: nat, p: nat, q: nat, s: State) {
    && AllSaid(n, p, q, s) && s.wires.links == LinksOf(n, p, q) && s.wires.undecided == {}
    && (p, 0) !in s.wires.readers && (q, 2) !in s.wires.readers
    && (forall x: nat, y: nat :: (x, y) in s.wires.nodes && x != n ==> y == n)
  }

  lemma LonePeerTellsNothing(w: Wires, n: nat, x: nat)
    requires x != n && forall y: nat :: (x, y) in w.nodes ==> y == n
    ensures Tables(w, x) == {}
  {
    assert PeersOf(w, x) <= {n};
    assert forall y :: y in PeersOf(w, x) ==> PeersOf(w, x) - {y} == {};
  }

  lemma DoomedStays(all: set<nat>, n: nat, p: nat, q: nat, s: State, step: Step)
    requires Doomed(n, p, q, s) && Enabled(all, s, step)
    ensures Doomed(n, p, q, Apply(all, s, step))
  {
    DoomedWires(all, n, p, q, s, step);
    DoomedGossip(all, n, p, q, s, step);
  }

  lemma DoomedWires(all: set<nat>, n: nat, p: nat, q: nat, s: State, step: Step)
    requires Doomed(n, p, q, s) && Enabled(all, s, step)
    ensures var w := WiresAfter(s, step);
            && w.links == LinksOf(n, p, q) && w.undecided == {} && w.readers <= s.wires.readers
            && (forall k :: k in w.nodes ==> k in s.wires.nodes)
    ensures forall d :: d in DialsAfter(s, step) ==> DialsAfter(s, step)[d].stage.Greeted?
  {}

  /** The news on the losing links is read by nobody, so there is nothing to look at. */
  lemma DoomedLooks(all: set<nat>, n: nat, p: nat, q: nat, s: State, step: Step)
    requires Doomed(n, p, q, s) && Enabled(all, s, step)
    ensures LooksAfter(s, step) == multiset{} && HeldAfter(s, step) == {}
  {
    assert HeldAt(s.gossip, n) == {};
    if step.EndProgram? {
      assert HeldAt(s.gossip, step.x) == {};
    }
  }

  lemma DoomedMessages(all: set<nat>, n: nat, p: nat, q: nat, s: State, step: Step)
    requires Doomed(n, p, q, s) && Enabled(all, s, step)
    ensures n !in OwingAfter(s, step)
    ensures forall m :: m in MessagesAfter(s, step) ==> (m.to, m.link) == (p, 0) || (m.to, m.link) == (q, 2)
  {
    if step.Broadcast? {
      LonePeerTellsNothing(s.wires, n, step.x);
    }
  }

  lemma DoomedGossip(all: set<nat>, n: nat, p: nat, q: nat, s: State, step: Step)
    requires Doomed(n, p, q, s) && Enabled(all, s, step)
    ensures AllSaid(n, p, q, Apply(all, s, step))
  {
    DoomedLooks(all, n, p, q, s, step);
    DoomedMessages(all, n, p, q, s, step);
    DoomedWires(all, n, p, q, s, step);
    assert WaitingAfter(s, step) == multiset{} && !step.Program?;
  }

  /** However a doomed cluster goes on, it comes to rest with the two unlinked. */
  lemma {:induction false} DoomedRests(all: set<nat>, n: nat, p: nat, q: nat, s: State) returns (s': State)
    requires Reachable(all, s) && Doomed(n, p, q, s) && Sound(all, s) && MessagesRight(s)
    ensures Reachable(all, s') && Doomed(n, p, q, s') && Sound(all, s') && Quiet(s')
    decreases s.budget, Missing(all, s.wires), |s.gossip.owing|, ProgramWork(s.waiting, s.dials, s.ending),
              NewsWork(s.gossip.messages, s.gossip.looks), DialWork(s.dials), WireWork(s.wires)
  {
    if Quiet(s) {
      return s;
    }
    BusyCanStep(all, s);
    var step :| Enabled(all, s, step);
    assert Late(s.wires) == {};
    StepUsesUp(all, s, step);
    DoomedStays(all, n, p, q, s, step);
    SoundKept(all, s, step);
    MessagesRightKept(all, s, step);
    var next := Take(all, s, step);
    s' := DoomedRests(all, n, p, q, next);
  }

  /**
   Gossip can be lost for good: whichever way the three names sort, a run in which `n` makes two
   links with `p` and two with `q`, and no others, ends with both linked to `n` and not to each other.
   */
  lemma GossipCanBeLost(all: set<nat>, n: nat, p: nat, q: nat) returns (s: State)
    requires Three(all, n, p, q)
    ensures Reachable(all, s) && Quiet(s) && DoubledOnly(s.wires.links, {Pair(n, p), Pair(n, q)})
    ensures Linked(s, n, p) && Linked(s, n, q) && (p, q) !in s.wires.nodes && (q, p) !in s.wires.nodes
  {
    var last := WinnersLast(all, n, p, q);
    DoomedAtLast(n, p, q, last);
    DoubledInTheStory(n, p, q);
    ReachableIntroduces(all, last, {Pair(n, p), Pair(n, q)});
    s := DoomedRests(all, n, p, q, last);
    DoomedOutcome(all, n, p, q, s);
  }

  lemma DoomedAtLast(n: nat, p: nat, q: nat, s: State)
    requires n != p && n != q && p != q && AllSaid(n, p, q, s) && s.wires == WinnersAtN(n, p, q)
    ensures Doomed(n, p, q, s) && MessagesRight(s)
  {}

  lemma DoubledInTheStory(n: nat, p: nat, q: nat)
    requires n != p && n != q && p != q
    ensures DoubledOnly(LinksOf(n, p, q), {Pair(n, p), Pair(n, q)})
  {}

  lemma DoomedOutcome(all: set<nat>, n: nat, p: nat, q: nat, s: State)
    requires n != p && n != q && p != q && Sound(all, s) && Doomed(n, p, q, s)
    ensures Linked(s, n, p) && Linked(s, n, q) && (p, q) !in s.wires.nodes && (q, p) !in s.wires.nodes
  {
    assert SamePair(s.wires.links[1], (n, p)) && SamePair(s.wires.links[3], (n, q));
    JoinedIsRegistered(s.wires, n, p);
    JoinedIsRegistered(s.wires, n, q);
  }

  // ----- exactly when every run closes ----------------------------------------------------------------------

  /** Every run in which only these pairs make more than one link, once quiet, has linked every two peers of a node. */
  ghost predicate Closes(all: set<nat>, doubled: set<(nat, nat)>) {
    forall s, x: nat, y: nat, z: nat ::
      Reachable(all, s) && Quiet(s) && DoubledOnly(s.wires.links, doubled) && Linked(s, x, y) && Linked(s, y, z) && x != z ==>
        Linked(s, x, z)
  }

  /** The mesh closes in every run exactly when no node may make two links with each of two others. */
  lemma ClosesExactlyWhenApart(all: set<nat>, doubled: set<(nat, nat)>)
    ensures Closes(all, doubled) <==> Apart(all, doubled)
  {
    if Apart(all, doubled) {
      forall s, x: nat, y: nat, z: nat |
        Reachable(all, s) && Quiet(s) && DoubledOnly(s.wires.links, doubled) && Linked(s, x, y) && Linked(s, y, z) && x != z
        ensures Linked(s, x, z)
      {
        QuietTransitive(all, s, x, y, z, doubled);
      }
    } else {
      var n: nat, p: nat, q: nat :|
        n in all && p in all && q in all && n != p && n != q && p != q && Pair(n, p) in doubled && Pair(n, q) in doubled;
      var s := GossipCanBeLost(all, n, p, q);
      assert DoubledOnly(s.wires.links, doubled);
      assert Linked(s, p, n) && Linked(s, n, q) && !Linked(s, p, q);
    }
  }
}
