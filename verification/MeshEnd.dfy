/**
 Gossip comes to an end. A node can lose a link and dial again only while the link that will
 replace it is greeted and not yet registered there, so a schedule in which every end registers
 its links at some time comes to rest. And a cluster that is not at rest can always go on.
 */
module MeshEnd {
  import opened Wrappers
  import opened MeshLinks
  import opened Mesh
  import opened MeshClosure

  // ----- nothing gets stuck --------------------------------------------------------------------------

  lemma DialCanStep(all: set<nat>, s: State, p: (nat, nat))
    requires p in s.dials && MeshLinks.Inv(s.wires, s.dials)
    ensures exists step :: Enabled(all, s, step)
  {
    var step := match s.dials[p].stage
      case Claimed => if p in s.wires.nodes then Finish(p.0, p.1) else Clear(p.0, p.1)
      case Cleared => Greet(p.0, p.1)
      case Greeted(l) => if (p.0, l) in s.wires.undecided then Register(p.0, l) else Finish(p.0, p.1);
    assert Enabled(all, s, step);
  }

  lemma MessageCanStep(all: set<nat>, s: State, m: Message)
    requires m in s.gossip.messages && IsEnd(s.wires.links, m.to, m.link) && Accounted(s.wires)
    ensures exists step :: Enabled(all, s, step)
  {
    var step :=
      if (m.to, m.link) in s.wires.undecided then Register(m.to, m.link)
      else if (m.to, m.link) in s.wires.readers then Receive(m)
      else if (m.to, m.link) in s.wires.owed then Shut(m.to, m.link)
      else Lose(m);
    assert Enabled(all, s, step);
  }

  /** A message is for an end of the link it rides. */
  ghost predicate MessagesRight(s: State) {
    forall m :: m in s.gossip.messages ==> IsEnd(s.wires.links, m.to, m.link)
  }

  lemma MessagesRightKept(all: set<nat>, s: State, step: Step)
    requires MessagesRight(s) && Registered(s.wires) && Enabled(all, s, step)
    ensures MessagesRight(Apply(all, s, step))
  {
    forall m | m in MessagesAfter(s, step) ensures IsEnd(WiresAfter(s, step).links, m.to, m.link) {
      MessagesAreTables(s, step, m);
      if m !in s.gossip.messages {
        assert (step.x, m.to) in s.wires.nodes && Across(s.wires.links[m.link], step.x) == m.to;
      }
      assert IsEnd(s.wires.links, m.to, m.link);
    }
  }

  lemma LookCanStep(all: set<nat>, s: State, look: Look)
    requires look in s.gossip.looks
    ensures exists step :: Enabled(all, s, step)
  {
    var step := match look
      case Drained(_, _) => Recheck(look)
      case Passed(_, _) => Compare(look)
      case Compared(_, _, _) => ClaimAll(look);
    assert Enabled(all, s, step);
  }

  /** A cluster that is not quiet can go on, even if programs ask for nothing more. */
  lemma BusyCanStep(all: set<nat>, s: State)
    requires Sound(all, s) && MessagesRight(s) && !Quiet(s) && s.budget == 0
    ensures exists step :: Enabled(all, s, step)
  {
    if s.dials != map[] {
      var p :| p in s.dials;
      DialCanStep(all, s, p);
    } else if s.waiting != multiset{} {
      var p :| p in s.waiting;
      assert Enabled(all, s, Claim(p.0, p.1));
    } else if s.ending != multiset{} {
      var x :| x in s.ending;
      assert Enabled(all, s, EndProgram(x));
    } else if s.gossip.owing != multiset{} {
      var x :| x in s.gossip.owing;
      assert Enabled(all, s, Broadcast(x));
    } else if s.gossip.messages != multiset{} {
      var m :| m in s.gossip.messages;
      MessageCanStep(all, s, m);
    } else if s.gossip.looks != multiset{} {
      var look :| look in s.gossip.looks;
      LookCanStep(all, s, look);
    } else {
      WiresCanStep(all, s);
    }
  }

  lemma WiresCanStep(all: set<nat>, s: State)
    requires Shaped(s.wires)
    requires s.wires.undecided != {} || s.wires.owed != {} || exists p :: p in s.wires.readers && p.1 in s.wires.shut
    ensures exists step :: Enabled(all, s, step)
  {
    if s.wires.undecided != {} {
      var p :| p in s.wires.undecided;
      assert Enabled(all, s, Register(p.0, p.1));
    } else if s.wires.owed != {} {
      var p :| p in s.wires.owed;
      assert Enabled(all, s, Shut(p.0, p.1));
    } else {
      var p :| p in s.wires.readers && p.1 in s.wires.shut;
      assert Enabled(all, s, Eof(p.0, p.1));
    }
  }

  lemma RunMessagesRight(all: set<nat>, run: seq<State>, i: nat)
    requires IsRun(all, run) && i < |run|
    ensures Sound(all, run[i]) && MessagesRight(run[i])
  {
    var holds := (s: State) => Sound(all, s) && MessagesRight(s);
    forall s, s' | holds(s) && Next(all, s, s') ensures holds(s') {
      SoundNext(all, s, s');
      NextMessagesRight(all, s, s');
    }
    InitIntroduces(all, run[0], {});
    RunKeeps(all, run, 0, i, holds);
  }

  lemma NextMessagesRight(all: set<nat>, s: State, s': State)
    requires Next(all, s, s') && MessagesRight(s) && Registered(s.wires)
    ensures MessagesRight(s')
  {
    var step :| Enabled(all, s, step) && s' == Apply(all, s, step);
    MessagesRightKept(all, s, step);
  }

  /** In every reachable state that is not at rest somebody can go on. */
  lemma NothingGetsStuck(all: set<nat>, s: State)
    requires Reachable(all, s) && !Quiet(s) && s.budget == 0
    ensures exists step :: Enabled(all, s, step)
  {
    var run :| IsRun(all, run) && run[|run| - 1] == s;
    RunMessagesRight(all, run, |run| - 1);
    BusyCanStep(all, s);
  }

  // ----- the links that will stand ------------------------------------------------------------------------

  function Pairs(all: set<nat>): set<(nat, nat)> {
    set x, y | x in all && y in all :: (x, y)
  }

  /** The pairs of which the first has not dialed the second yet. */
  ghost function Undialed(all: set<nat>, links: seq<(nat, nat)>): set<(nat, nat)> {
    set p | p in Pairs(all) && p.0 < p.1 && p !in links
  }

  /** Where a link dialed by the node that sorts first is still to be registered. */
  ghost function Late(w: Wires): set<(nat, nat)> {
    set p | p in w.undecided && p.1 < |w.links| && w.links[p.1].0 < w.links[p.1].1
  }

  /** What is used up as such links are made and registered. */
  ghost function Potential(all: set<nat>, w: Wires): nat {
    3 * |Undialed(all, w.links)| + |Late(w)|
  }

  lemma FirstDialFalls(all: set<nat>, w: Wires, p: (nat, nat))
    requires p.0 < p.1 && p.0 in all && p.1 in all && p !in w.links && forall q :: q in w.undecided ==> q.1 < |w.links|
    ensures Potential(all, Open(w, p.0, p.1)) < Potential(all, w)
  {
    var w', links := Open(w, p.0, p.1), w.links;
    assert p in Pairs(all) && p in Undialed(all, links);
    assert Undialed(all, w'.links) == Undialed(all, links) - {p};
    assert Late(w') <= Late(w) + {(p.0, |links|), (p.1, |links|)};
    AddTwo(Late(w), (p.0, |links|), (p.1, |links|));
    Subset(Late(w'), Late(w) + {(p.0, |links|), (p.1, |links|)});
  }

  lemma Subset<T>(a: set<T>, b: set<T>)
    requires a <= b
    ensures |a| <= |b|
  {
    assert |b| == |a| + |b - a|;
  }

  lemma SecondDialKeeps(all: set<nat>, w: Wires, p: (nat, nat))
    requires p.1 < p.0 && forall q :: q in w.undecided ==> q.1 < |w.links|
    ensures Potential(all, Open(w, p.0, p.1)) == Potential(all, w) && Late(Open(w, p.0, p.1)) == Late(w)
  {
    var w', links := Open(w, p.0, p.1), w.links;
    assert forall q :: q in w'.links <==> q in links || q == p;
    assert Undialed(all, w'.links) == Undialed(all, links);
    assert Late(w') == Late(w);
  }

  lemma AddTwo(a: set<(nat, nat)>, p: (nat, nat), q: (nat, nat))
    ensures |a + {p, q}| <= |a| + 2
  {
    assert a + {p, q} == a + {p} + {q};
    AddOne(a, p);
    AddOne(a + {p}, q);
  }

  lemma AddOne<T>(a: set<T>, x: T)
    ensures |a + {x}| <= |a| + 1
  {
    if x in a {
      assert a + {x} == a;
    }
  }

  /** The node that sorts first dials once: its link stands, so it never finds the table without it. */
  lemma FirstDial(s: State, p: (nat, nat))
    requires DialsRight(s.wires, s.dials) && p in s.dials && s.dials[p].stage.Cleared? && p.0 < p.1
    ensures p !in s.wires.links
  {
    if p in s.wires.links {
      var l :| 0 <= l < |s.wires.links| && s.wires.links[l] == p;
      assert Stands(s.wires.links, l);
    }
  }

  lemma RegisterFalls(all: set<nat>, w: Wires, e: nat, l: nat)
    requires (e, l) in w.undecided && l < |w.links|
    ensures var w' := Decide(w, e, l);
            if w.links[l].0 < w.links[l].1 then Potential(all, w') < Potential(all, w)
            else Potential(all, w') == Potential(all, w) && Late(w') == Late(w)
  {
    var w' := Decide(w, e, l);
    assert w'.links == w.links && w'.undecided == w.undecided - {(e, l)};
    assert Late(w') == Late(w) - {(e, l)};
    if w.links[l].0 < w.links[l].1 {
      assert (e, l) in Late(w);
    }
  }

  lemma OthersKeepLate(all: set<nat>, s: State, step: Step)
    requires !step.Greet? && !step.Register?
    ensures Potential(all, WiresAfter(s, step)) == Potential(all, s.wires) && Late(WiresAfter(s, step)) == Late(s.wires)
  {
    var w := WiresAfter(s, step);
    assert w.links == s.wires.links && w.undecided == s.wires.undecided;
    assert Late(w) == Late(s.wires);
  }

  /** The potential never rises; while it does not fall, nobody registers such a link, and none is made. */
  lemma PotentialFalls(all: set<nat>, s: State, step: Step)
    requires Sound(all, s) && Enabled(all, s, step)
    ensures var w' := WiresAfter(s, step);
            Potential(all, w') < Potential(all, s.wires) || (Potential(all, w') == Potential(all, s.wires) && Late(w') == Late(s.wires))
  {
    if step.Greet? {
      var p := (step.x, step.y);
      assert Proper(all, p);
      if p.0 < p.1 {
        FirstDial(s, p);
        FirstDialFalls(all, s.wires, p);
      } else {
        SecondDialKeeps(all, s.wires, p);
      }
    } else if step.Register? {
      RegisterFalls(all, s.wires, step.end, step.l);
    } else {
      OthersKeepLate(all, s, step);
    }
  }

  // ----- what the other steps use up -----------------------------------------------------------------------

  /** The links still missing from the tables. */
  ghost function Missing(all: set<nat>, w: Wires): nat {
    |Pairs(all) - w.nodes.Keys|
  }

  ghost function ByProgram(dials: Dials): set<(nat, nat)> {
    set p | p in dials && dials[p].program
  }

  /** A program dial waits, dials, and ends. */
  ghost function ProgramWork(waiting: multiset<(nat, nat)>, dials: Dials, ending: multiset<nat>): nat {
    3 * |waiting| + 2 * |ByProgram(dials)| + |ending|
  }

  /** The sum of the weights of a bag's members. */
  ghost function Weigh<T>(bag: multiset<T>, weight: T -> nat): nat
    decreases |bag|
  {
    if bag == multiset{} then 0
    else
      var x :| x in bag;
      weight(x) + Weigh(bag - multiset{x}, weight)
  }

  lemma {:induction false} WeighRemove<T>(bag: multiset<T>, x: T, weight: T -> nat)
    requires x in bag
    ensures Weigh(bag, weight) == weight(x) + Weigh(bag - multiset{x}, weight)
    decreases |bag|
  {
    var y :| y in bag && Weigh(bag, weight) == weight(y) + Weigh(bag - multiset{y}, weight);
    if y != x {
      WeighRemove(bag - multiset{y}, x, weight);
      WeighRemove(bag - multiset{x}, y, weight);
      assert bag - multiset{y} - multiset{x} == bag - multiset{x} - multiset{y};
    }
  }

  lemma WeighAdd<T>(bag: multiset<T>, x: T, weight: T -> nat)
    ensures Weigh(bag + multiset{x}, weight) == weight(x) + Weigh(bag, weight)
  {
    WeighRemove(bag + multiset{x}, x, weight);
    assert bag + multiset{x} - multiset{x} == bag;
  }

  function Steps(look: Look): nat {
    match look
    case Drained(_, _) => 3
    case Passed(_, _) => 2
    case Compared(_, _, _) => 1
  }

  ghost function NewsWork(messages: multiset<Message>, looks: multiset<Look>): nat {
    4 * |messages| + Weigh(looks, Steps)
  }

  ghost function Ungreeted(dials: Dials): set<(nat, nat)> {
    set p | p in dials && !dials[p].stage.Greeted?
  }

  ghost function Uncleared(dials: Dials): set<(nat, nat)> {
    set p | p in dials && dials[p].stage.Claimed?
  }

  ghost function DialWork(dials: Dials): nat {
    |dials.Keys| + |Ungreeted(dials)| + |Uncleared(dials)|
  }

  ghost function WireWork(w: Wires): nat {
    2 * |w.undecided| + |w.owed| + |w.readers|
  }

  /** Each step lowers the first of these that it changes. */
  ghost predicate Less(all: set<nat>, t: State, s: State) {
    || t.budget < s.budget
    || (t.budget == s.budget && Missing(all, t.wires) < Missing(all, s.wires))
    || (t.budget == s.budget && Missing(all, t.wires) == Missing(all, s.wires) && LessNews(t, s))
  }

  ghost predicate LessNews(t: State, s: State) {
    || |t.gossip.owing| < |s.gossip.owing|
    || (&& |t.gossip.owing| == |s.gossip.owing|
        && (|| ProgramWork(t.waiting, t.dials, t.ending) < ProgramWork(s.waiting, s.dials, s.ending)
            || (ProgramWork(t.waiting, t.dials, t.ending) == ProgramWork(s.waiting, s.dials, s.ending) && LessTalk(t, s))))
  }

  ghost predicate LessTalk(t: State, s: State) {
    var now, before := NewsWork(t.gossip.messages, t.gossip.looks), NewsWork(s.gossip.messages, s.gossip.looks);
    || now < before
    || (now == before && (DialWork(t.dials) < DialWork(s.dials) || (DialWork(t.dials) == DialWork(s.dials) && WireWork(t.wires) < WireWork(s.wires))))
  }

  lemma FewerBy<T>(a: set<T>, b: set<T>, x: T)
    requires a == b - {x} && x in b
    ensures |a| == |b| - 1
  {}

  lemma ShutDoesNotStand(w: Wires, e: nat, l: nat)
    requires StandingHold(w) && IsEnd(w.links, e, l) && l in w.shut
    ensures !Stands(w.links, l)
  {
    assert Stands(w.links, l) ==> HoldsAt(w, e, l);
  }

  /** Where no first dial's link is left to be registered, a shut link is registered nowhere. */
  lemma ShutIsReplaced(w: Wires, e: nat, l: nat)
    requires Shaped(w) && StandingHold(w) && Late(w) == {} && IsEnd(w.links, e, l) && l in w.shut
    ensures !Has(w, (e, Across(w.links[l], e)), l)
  {
    ShutDoesNotStand(w, e, l);
    StandsOrLoses(w.links, l);
    var m :| 0 <= m < |w.links| && w.links[m] == (w.links[l].1, w.links[l].0);
    assert Stands(w.links, m) && IsEnd(w.links, e, m);
    assert HoldsAt(w, e, m) && (e, m) !in Late(w);
  }

  /** Nor does a second dial's link take the place of another. */
  lemma SecondDoesNotWin(w: Wires, e: nat, l: nat)
    requires Shaped(w) && Registered(w) && (e, l) in w.undecided && w.links[l].1 < w.links[l].0 && !IsNew(w, e, l)
    ensures !Wins(w, e, l)
  {
    var current := w.nodes[(e, Across(w.links[l], e))];
    assert SamePair(w.links[current], w.links[l]);
  }

  lemma SecondRegistered(all: set<nat>, w: Wires, e: nat, l: nat)
    requires Shaped(w) && Registered(w) && (e, l) in w.undecided && w.links[l].1 < w.links[l].0 && Proper(all, w.links[l])
    ensures var w' := Decide(w, e, l);
            if IsNew(w, e, l) then Missing(all, w') < Missing(all, w) else w'.nodes == w.nodes && WireWork(w') < WireWork(w)
  {
    var w', key := Decide(w, e, l), (e, Across(w.links[l], e));
    assert IsEnd(w.links, e, l);
    if IsNew(w, e, l) {
      assert key in Pairs(all) - w.nodes.Keys;
      FewerBy(Pairs(all) - w'.nodes.Keys, Pairs(all) - w.nodes.Keys, key);
    } else {
      SecondDoesNotWin(w, e, l);
      FewerBy(w'.undecided, w.undecided, (e, l));
      AddOne(w.owed, (e, l));
    }
  }

  /** A step at a link changes the table of links, and gossip only by owing a broadcast for a new peer. */
  lemma OnlyWires(all: set<nat>, s: State, step: Step)
    requires Enabled(all, s, step) && (step.Register? || step.Shut? || step.Eof?)
    ensures var s' := Apply(all, s, step);
            && s'.wires == WiresAfter(s, step)
            && s'.dials == s.dials && s'.waiting == s.waiting && s'.ending == s.ending && s'.budget == s.budget
            && s'.gossip.messages == s.gossip.messages && s'.gossip.looks == s.gossip.looks
            && (!(step.Register? && IsNew(s.wires, step.end, step.l)) ==> s'.gossip.owing == s.gossip.owing)
  {}

  lemma WireStepLess(all: set<nat>, s: State, t: State)
    requires t.budget == s.budget && t.dials == s.dials && t.waiting == s.waiting && t.ending == s.ending
    requires t.gossip.messages == s.gossip.messages && t.gossip.looks == s.gossip.looks
    requires || Missing(all, t.wires) < Missing(all, s.wires)
             || (t.gossip.owing == s.gossip.owing && t.wires.nodes == s.wires.nodes && WireWork(t.wires) < WireWork(s.wires))
    ensures Less(all, t, s)
  {}

  lemma RegisterUsesUp(all: set<nat>, s: State, e: nat, l: nat)
    requires Shaped(s.wires) && Registered(s.wires) && Late(s.wires) == {} && Enabled(all, s, Register(e, l))
    requires Proper(all, s.wires.links[l])
    ensures Less(all, Apply(all, s, Register(e, l)), s)
  {
    assert (e, l) !in Late(s.wires);
    SecondRegistered(all, s.wires, e, l);
    RegisterLess(all, s, e, l);
  }

  lemma RegisterLess(all: set<nat>, s: State, e: nat, l: nat)
    requires Enabled(all, s, Register(e, l))
    requires var w' := Decide(s.wires, e, l);
             if IsNew(s.wires, e, l) then Missing(all, w') < Missing(all, s.wires)
             else w'.nodes == s.wires.nodes && WireWork(w') < WireWork(s.wires)
    ensures Less(all, Apply(all, s, Register(e, l)), s)
  {
    OnlyWires(all, s, Register(e, l));
    WireStepLess(all, s, Apply(all, s, Register(e, l)));
  }

  lemma ShutUsesUp(all: set<nat>, s: State, e: nat, l: nat)
    requires Enabled(all, s, Shut(e, l))
    ensures Less(all, Apply(all, s, Shut(e, l)), s)
  {
    FewerBy(ShutDown(s.wires, e, l).owed, s.wires.owed, (e, l));
    OnlyWires(all, s, Shut(e, l));
    WireStepLess(all, s, Apply(all, s, Shut(e, l)));
  }

  lemma ReaderGone(w: Wires, e: nat, l: nat)
    requires Shaped(w) && StandingHold(w) && Late(w) == {} && (e, l) in w.readers && l in w.shut
    ensures EndReader(w, e, l).nodes == w.nodes && WireWork(EndReader(w, e, l)) < WireWork(w)
  {
    ShutIsReplaced(w, e, l);
    FewerBy(EndReader(w, e, l).readers, w.readers, (e, l));
  }

  lemma EofUsesUp(all: set<nat>, s: State, e: nat, l: nat)
    requires Shaped(s.wires) && StandingHold(s.wires) && Late(s.wires) == {} && Enabled(all, s, Eof(e, l))
    ensures Less(all, Apply(all, s, Eof(e, l)), s)
  {
    ReaderGone(s.wires, e, l);
    OnlyWires(all, s, Eof(e, l));
    WireStepLess(all, s, Apply(all, s, Eof(e, l)));
  }

  lemma GossipStepUsesUp(all: set<nat>, s: State, step: Step)
    requires Enabled(all, s, step) && (step.Broadcast? || step.Receive? || step.Lose? || step.Recheck? || step.Compare? || step.ClaimAll?)
    ensures Less(all, Apply(all, s, step), s)
  {
    OnlyGossip(all, s, step);
    if step.Broadcast? {
      assert |OwingAfter(s, step)| == |s.gossip.owing| - 1;
    } else if step.Receive? || step.Lose? {
      MessageStepUsesUp(s, step);
    } else {
      LookStepUsesUp(s, step);
    }
  }

  /** A step that changes gossip, and dials only by claiming for gossip. */
  lemma OnlyGossip(all: set<nat>, s: State, step: Step)
    requires Enabled(all, s, step) && (step.Broadcast? || step.Receive? || step.Lose? || step.Recheck? || step.Compare? || step.ClaimAll?)
    ensures var s' := Apply(all, s, step);
            && s'.wires == s.wires && s'.waiting == s.waiting && s'.ending == s.ending && s'.budget == s.budget
            && ByProgram(s'.dials) == ByProgram(s.dials) && (!step.Broadcast? ==> s'.gossip.owing == s.gossip.owing)
  {
    if step.ClaimAll? {
      assert ByProgram(DialsAfter(s, step)) == ByProgram(s.dials);
    }
  }

  lemma MessageStepUsesUp(s: State, step: Step)
    requires (step.Receive? || step.Lose?) && step.message in s.gossip.messages
    ensures NewsWork(MessagesAfter(s, step), LooksAfter(s, step)) < NewsWork(s.gossip.messages, s.gossip.looks)
  {
    assert |MessagesAfter(s, step)| == |s.gossip.messages| - 1;
    ReceivedLooks(s, step);
  }

  lemma ReceivedLooks(s: State, step: Step)
    requires step.Receive? || step.Lose?
    ensures Weigh(LooksAfter(s, step), Steps) <= Weigh(s.gossip.looks, Steps) + 2
  {
    if step.Receive? {
      WeighAdd(s.gossip.looks, Passed(step.message.to, step.message.peers), Steps);
    }
  }

  /** Replacing a member of a bag by a lighter one, or by none, makes it lighter. */
  lemma WeighReplace(looks: multiset<Look>, look: Look, next: Look, after: multiset<Look>)
    requires look in looks && Steps(next) < Steps(look)
    requires after == looks - multiset{look} || after == looks - multiset{look} + multiset{next}
    ensures Weigh(after, Steps) < Weigh(looks, Steps)
  {
    WeighRemove(looks, look, Steps);
    WeighAdd(looks - multiset{look}, next, Steps);
  }

  lemma RecheckUsesUp(s: State, look: Look)
    requires look in s.gossip.looks && look.Drained?
    ensures Weigh(LooksAfter(s, Recheck(look)), Steps) < Weigh(s.gossip.looks, Steps)
  {
    WeighReplace(s.gossip.looks, look, Passed(look.to, look.peers), LooksAfter(s, Recheck(look)));
  }

  lemma CompareUsesUp(s: State, look: Look)
    requires look in s.gossip.looks && look.Passed?
    ensures Weigh(LooksAfter(s, Compare(look)), Steps) < Weigh(s.gossip.looks, Steps)
  {
    WeighReplace(s.gossip.looks, look, Compared(look.to, look.peers, PeersOf(s.wires, look.to)), LooksAfter(s, Compare(look)));
  }

  lemma ClaimAllUsesUp(s: State, look: Look)
    requires look in s.gossip.looks
    ensures Weigh(LooksAfter(s, ClaimAll(look)), Steps) < Weigh(s.gossip.looks, Steps)
  {
    WeighRemove(s.gossip.looks, look, Steps);
  }

  lemma LookStepUsesUp(s: State, step: Step)
    requires (step.Recheck? && step.look.Drained?) || (step.Compare? && step.look.Passed?) || (step.ClaimAll? && step.look.Compared?)
    requires step.look in s.gossip.looks
    ensures NewsWork(MessagesAfter(s, step), LooksAfter(s, step)) < NewsWork(s.gossip.messages, s.gossip.looks)
  {
    if step.Recheck? {
      RecheckUsesUp(s, step.look);
    } else if step.Compare? {
      CompareUsesUp(s, step.look);
    } else {
      ClaimAllUsesUp(s, step.look);
    }
    assert MessagesAfter(s, step) == s.gossip.messages;
  }

  lemma ClaimUsesUp(s: State, x: nat, y: nat)
    requires (x, y) in s.waiting && (x, y) !in s.dials
    ensures ProgramWork(WaitingAfter(s, Claim(x, y)), DialsAfter(s, Claim(x, y)), EndingAfter(s, Claim(x, y))) <
            ProgramWork(s.waiting, s.dials, s.ending)
  {
    assert |WaitingAfter(s, Claim(x, y))| == |s.waiting| - 1;
    assert ByProgram(DialsAfter(s, Claim(x, y))) == ByProgram(s.dials) + {(x, y)};
  }

  lemma EndUsesUp(s: State, x: nat)
    requires x in s.ending
    ensures ProgramWork(WaitingAfter(s, EndProgram(x)), DialsAfter(s, EndProgram(x)), EndingAfter(s, EndProgram(x))) <
            ProgramWork(s.waiting, s.dials, s.ending)
  {
    assert |EndingAfter(s, EndProgram(x))| == |s.ending| - 1;
  }

  lemma ProgramStepUsesUp(all: set<nat>, s: State, step: Step)
    requires Enabled(all, s, step) && (step.Program? || step.Claim? || step.EndProgram?)
    ensures Less(all, Apply(all, s, step), s)
  {
    assert WiresAfter(s, step) == s.wires && OwingAfter(s, step) == s.gossip.owing;
    if step.Claim? {
      ClaimUsesUp(s, step.x, step.y);
    } else if step.EndProgram? {
      EndUsesUp(s, step.x);
    }
  }

  lemma DialStepUsesUp(all: set<nat>, s: State, step: Step)
    requires Enabled(all, s, step) && (step.Clear? || step.Greet?)
    ensures Less(all, Apply(all, s, step), s)
  {
    var p, dials, dials' := (step.x, step.y), s.dials, DialsAfter(s, step);
    assert ByProgram(dials') == ByProgram(dials) && dials'.Keys == dials.Keys;
    if step.Clear? {
      assert Ungreeted(dials') == Ungreeted(dials);
      FewerBy(Uncleared(dials'), Uncleared(dials), p);
    } else {
      assert Uncleared(dials') == Uncleared(dials);
      FewerBy(Ungreeted(dials'), Ungreeted(dials), p);
    }
  }

  lemma DialGone(dials: Dials, p: (nat, nat))
    requires p in dials
    ensures DialWork(dials - {p}) < DialWork(dials)
    ensures |ByProgram(dials - {p})| == |ByProgram(dials)| - if dials[p].program then 1 else 0
  {
    var rest := dials - {p};
    FewerBy(rest.Keys, dials.Keys, p);
    if dials[p].program {
      FewerBy(ByProgram(rest), ByProgram(dials), p);
    } else {
      assert ByProgram(rest) == ByProgram(dials);
    }
    Subset(Ungreeted(rest), Ungreeted(dials));
    Subset(Uncleared(rest), Uncleared(dials));
  }

  lemma FinishUsesUp(all: set<nat>, s: State, x: nat, y: nat)
    requires Enabled(all, s, Finish(x, y))
    ensures Less(all, Apply(all, s, Finish(x, y)), s)
  {
    DialGone(s.dials, (x, y));
    var step := Finish(x, y);
    assert WiresAfter(s, step) == s.wires && WaitingAfter(s, step) == s.waiting && OwingAfter(s, step) == s.gossip.owing;
    assert MessagesAfter(s, step) == s.gossip.messages && LooksAfter(s, step) == s.gossip.looks;
  }

  lemma StepUsesUp(all: set<nat>, s: State, step: Step)
    requires Sound(all, s) && Late(s.wires) == {} && Enabled(all, s, step)
    ensures Less(all, Apply(all, s, step), s)
  {
    if step.Register? {
      RegisterUsesUp(all, s, step.end, step.l);
    } else if step.Shut? {
      ShutUsesUp(all, s, step.end, step.l);
    } else if step.Eof? {
      EofUsesUp(all, s, step.end, step.l);
    } else if step.Program? || step.Claim? || step.EndProgram? {
      ProgramStepUsesUp(all, s, step);
    } else if step.Clear? || step.Greet? {
      DialStepUsesUp(all, s, step);
    } else if step.Finish? {
      FinishUsesUp(all, s, step.x, step.y);
    } else {
      GossipStepUsesUp(all, s, step);
    }
  }

  // ----- every fair run comes to an end ----------------------------------------------------------------------

  ghost predicate Endless(all: set<nat>, states: nat -> State) {
    Reachable(all, states(0)) && forall i: nat :: Next(all, states(i), states(i + 1))
  }

  /** End `e` is put off from registering link `l` for ever. */
  ghost predicate PutOff(states: nat -> State, e: nat, l: nat, i: nat) {
    forall j: nat :: j >= i ==> (e, l) in states(j).wires.undecided
  }

  lemma {:induction false} EndlessSound(all: set<nat>, states: nat -> State, i: nat)
    requires Endless(all, states)
    ensures Sound(all, states(i))
  {
    if i == 0 {
      var run :| IsRun(all, run) && run[|run| - 1] == states(0);
      RunIsSound(all, run, |run| - 1);
    } else {
      EndlessSound(all, states, i - 1);
      assert Next(all, states(i - 1), states(i - 1 + 1));
      var step :| Enabled(all, states(i - 1), step) && states(i) == Apply(all, states(i - 1), step);
      SoundKept(all, states(i - 1), step);
    }
  }

  lemma EndlessStep(all: set<nat>, states: nat -> State, i: nat) returns (step: Step)
    requires Endless(all, states)
    ensures Sound(all, states(i)) && Enabled(all, states(i), step) && states(i + 1) == Apply(all, states(i), step)
  {
    EndlessSound(all, states, i);
    assert Next(all, states(i), states(i + 1));
    step :| Enabled(all, states(i), step) && states(i + 1) == Apply(all, states(i), step);
  }

  /** The potential falls, or it stays and with it the links still to be registered. */
  ghost predicate Falls(all: set<nat>, w: Wires, w': Wires) {
    Potential(all, w') < Potential(all, w) || (Potential(all, w') == Potential(all, w) && Late(w') == Late(w))
  }

  lemma PotentialNext(all: set<nat>, states: nat -> State, j: nat)
    requires Endless(all, states)
    ensures Falls(all, states(j).wires, states(j + 1).wires)
  {
    var step := EndlessStep(all, states, j);
    PotentialFalls(all, states(j), step);
  }

  lemma {:induction false} PotentialAlong(all: set<nat>, wires: nat -> Wires, i: nat, j: nat)
    requires i <= j && forall k: nat :: Falls(all, wires(k), wires(k + 1))
    ensures Falls(all, wires(i), wires(j))
    decreases j
  {
    if i < j {
      PotentialAlong(all, wires, i, j - 1);
      assert Falls(all, wires(j - 1), wires(j - 1 + 1));
    }
  }

  lemma EndlessFalls(all: set<nat>, states: nat -> State, i: nat, j: nat)
    requires Endless(all, states) && i <= j
    ensures Falls(all, states(i).wires, states(j).wires)
  {
    var wires := (k: nat) => states(k).wires;
    forall k: nat ensures Falls(all, wires(k), wires(k + 1)) {
      PotentialNext(all, states, k);
    }
    PotentialAlong(all, wires, i, j);
  }

  lemma {:induction false} FairRunsEnd(all: set<nat>, states: nat -> State, i: nat) returns (e: nat, l: nat, k: nat)
    requires Endless(all, states)
    ensures PutOff(states, e, l, k)
    decreases Potential(all, states(i).wires), states(i).budget, Missing(all, states(i).wires), |states(i).gossip.owing|,
              ProgramWork(states(i).waiting, states(i).dials, states(i).ending),
              NewsWork(states(i).gossip.messages, states(i).gossip.looks), DialWork(states(i).dials), WireWork(states(i).wires)
  {
    if Late(states(i).wires) != {} {
      var p :| p in Late(states(i).wires);
      if PutOff(states, p.0, p.1, i) {
        return p.0, p.1, i;
      }
      var j: nat :| j >= i && p !in states(j).wires.undecided;
      EndlessFalls(all, states, i, j);
      assert p !in Late(states(j).wires);
      e, l, k := FairRunsEnd(all, states, j);
    } else {
      var step := EndlessStep(all, states, i);
      PotentialFalls(all, states(i), step);
      StepUsesUp(all, states(i), step);
      e, l, k := FairRunsEnd(all, states, i + 1);
    }
  }

  /** Gossip ends: a schedule that goes on for ever puts somebody off from registering a greeted link for ever. */
  lemma GossipTerminates(all: set<nat>, states: nat -> State)
    requires Endless(all, states)
    ensures exists e: nat, l: nat, i: nat :: PutOff(states, e, l, i)
  {
    var e, l, i := FairRunsEnd(all, states, 0);
  }
}
