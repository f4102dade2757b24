/**
 Why gossip needs its threads to run. Two nodes have each been greeted by a third that sorts
 first, and the thread that is to register that link never runs. Told of the third, each dials
 it in vain: its link is turned away and dropped. But it was new for a moment, so the other is
 told, which dials in its turn; and so on for ever.
 */
module MeshForever {
  import opened Wrappers
  import opened MeshLinks
  import opened Mesh
  import opened MeshClosure
  import opened MeshEnd
  import opened MeshLoss

  /** The names: `x` sorts before both others. */
  ghost predicate Cast(all: set<nat>, x: nat, y: nat, z: nat) {
    x in all && y in all && z in all && x < y && x < z && y != z
  }

  /** `x` has both others, over links 0 and 1, which they are put off from registering; they have each other, over link 2. */
  ghost predicate Standoff(x: nat, y: nat, z: nat, s: State) {
    && Shaped(s.wires) && |s.wires.links| > 2
    && s.wires.links[0] == (x, y) && s.wires.links[1] == (x, z) && s.wires.links[2] == (y, z)
    && s.wires.nodes == map[(x, y) := 0, (x, z) := 1, (y, z) := 2, (z, y) := 2]
    && (y, 0) in s.wires.undecided && (z, 1) in s.wires.undecided
    && (y, 2) in s.wires.readers && (z, 2) in s.wires.readers
    && (y, x) !in s.dials && (z, x) !in s.dials && !ProgramDialing(s, y) && !ProgramDialing(s, z)
  }

  /** The other of the two has just told `b` of `x`. */
  ghost predicate Round(x: nat, y: nat, z: nat, b: nat, s: State) {
    Standoff(x, y, z, s) && (b == y || b == z) && News(x, b) in s.gossip.messages
  }

  function News(x: nat, b: nat): Message {
    Message(2, b, {x})
  }

  function Other(y: nat, z: nat, b: nat): nat {
    if b == y then z else y
  }

  // ----- one round, step by step -------------------------------------------------------------------------

  /** The steps of a round in which `b` dials `x` over link `k`, and `a` is told. */
  function Plan(x: nat, a: nat, b: nat, k: nat, i: nat): Step {
    if i == 0 then Receive(News(x, b))
    else if i == 1 then Compare(Passed(b, {x}))
    else if i == 2 then ClaimAll(Compared(b, {x}, {a}))
    else if i == 3 then Clear(b, x)
    else if i == 4 then Greet(b, x)
    else if i == 5 then Register(b, k)
    else if i == 6 then Broadcast(b)
    else if i == 7 then Finish(b, x)
    else if i == 8 then Register(x, k)
    else if i == 9 then Shut(x, k)
    else Eof(b, k)
  }

  const ROUND: nat := 11

  function Heard(x: nat, a: nat, b: nat, s: State): Gossip {
    s.gossip.(messages := s.gossip.messages - multiset{News(x, b)})
  }

  function Spread(x: nat, a: nat, b: nat, s: State): Gossip {
    s.gossip.(messages := s.gossip.messages - multiset{News(x, b)} + multiset{News(x, a), Message(|s.wires.links|, x, {a})})
  }

  function Listed(x: nat, a: nat, b: nat, s: State, look: Look): Gossip {
    Heard(x, a, b, s).(looks := s.gossip.looks + multiset{look})
  }

  function Dialed(s: State, p: (nat, nat), stage: Stage): Dials {
    s.dials[p := Dial(stage, false)]
  }

  /** The wires while `b` has its new link to `x`. */
  function Tried(x: nat, b: nat, s: State, undecided: set<(nat, nat)>, owed: set<(nat, nat)>, shut: set<nat>): Wires {
    var k := |s.wires.links|;
    Wires(s.wires.links + [(b, x)], s.wires.undecided + undecided, s.wires.nodes[(b, x) := k], s.wires.readers + {(b, k)},
          s.wires.owed + owed, s.wires.shut + shut)
  }

  function M1(x: nat, a: nat, b: nat, s: State): State {
    s.(gossip := Listed(x, a, b, s, Passed(b, {x})))
  }

  function M2(x: nat, a: nat, b: nat, s: State): State {
    s.(gossip := Listed(x, a, b, s, Compared(b, {x}, {a})))
  }

  function Dialing(x: nat, a: nat, b: nat, s: State, stage: Stage): State {
    s.(dials := Dialed(s, (b, x), stage), gossip := Heard(x, a, b, s))
  }

  function M5(x: nat, a: nat, b: nat, s: State): State {
    Dialing(x, a, b, s, Greeted(|s.wires.links|)).(wires := Open(s.wires, b, x))
  }

  function M6(x: nat, a: nat, b: nat, s: State): State {
    Dialing(x, a, b, s, Greeted(|s.wires.links|)).(
    wires := Tried(x, b, s, {(x, |s.wires.links|)}, {}, {}), gossip := Heard(x, a, b, s).(owing := s.gossip.owing + multiset{b}))
  }

  function M7(x: nat, a: nat, b: nat, s: State): State {
    Dialing(x, a, b, s, Greeted(|s.wires.links|)).(wires := Tried(x, b, s, {(x, |s.wires.links|)}, {}, {}), gossip := Spread(x, a, b, s))
  }

  function Telling(x: nat, a: nat, b: nat, s: State, w: Wires): State {
    s.(wires := w, gossip := Spread(x, a, b, s))
  }

  /** The state after the first `i` steps of a round. */
  function Mid(x: nat, a: nat, b: nat, s: State, i: nat): State {
    var k := |s.wires.links|;
    if i == 0 then s
    else if i == 1 then M1(x, a, b, s)
    else if i == 2 then M2(x, a, b, s)
    else if i == 3 then Dialing(x, a, b, s, Claimed)
    else if i == 4 then Dialing(x, a, b, s, Cleared)
    else if i == 5 then M5(x, a, b, s)
    else if i == 6 then M6(x, a, b, s)
    else if i == 7 then M7(x, a, b, s)
    else if i == 8 then Telling(x, a, b, s, Tried(x, b, s, {(x, k)}, {}, {}))
    else if i == 9 then Telling(x, a, b, s, Tried(x, b, s, {}, {(x, k)}, {}))
    else if i == 10 then Telling(x, a, b, s, Tried(x, b, s, {}, {}, {k}))
    else Telling(x, a, b, s, s.wires.(links := s.wires.links + [(b, x)], shut := s.wires.shut + {k}))
  }

  /** `step` can be taken in `s`, and leads to `t`. */
  ghost predicate Leads(all: set<nat>, s: State, step: Step, t: State) {
    Enabled(all, s, step) && Apply(all, s, step) == t
  }

  lemma Step0(all: set<nat>, x: nat, a: nat, b: nat, s: State)
    requires News(x, b) in s.gossip.messages && (b, 2) in s.wires.readers && !ProgramDialing(s, b)
    ensures Leads(all, s, Receive(News(x, b)), M1(x, a, b, s))
  {}

  lemma Step1(all: set<nat>, x: nat, a: nat, b: nat, s: State)
    requires PeersOf(s.wires, b) == {a}
    ensures Leads(all, M1(x, a, b, s), Compare(Passed(b, {x})), M2(x, a, b, s))
  {
    var looks, p := s.gossip.looks, Passed(b, {x});
    assert looks + multiset{p} - multiset{p} == looks;
  }

  lemma ClaimsOfB(x: nat, a: nat, b: nat, s: State)
    requires x != a && x != b && (b, x) !in s.dials
    ensures WithClaims(s.dials, Compared(b, {x}, {a})) == Dialed(s, (b, x), Claimed)
  {
    assert {x} - {b} - {a} == {x};
    assert From(b, {x}) == {(b, x)};
  }

  lemma Step2(all: set<nat>, x: nat, a: nat, b: nat, s: State)
    requires x != a && x != b && (b, x) !in s.dials
    ensures Leads(all, M2(x, a, b, s), ClaimAll(Compared(b, {x}, {a})), Dialing(x, a, b, s, Claimed))
  {
    var looks, c := s.gossip.looks, Compared(b, {x}, {a});
    assert looks + multiset{c} - multiset{c} == looks;
    ClaimsOfB(x, a, b, s);
  }

  lemma Step3(all: set<nat>, x: nat, a: nat, b: nat, s: State)
    requires (b, x) !in s.wires.nodes
    ensures Leads(all, Dialing(x, a, b, s, Claimed), Clear(b, x), Dialing(x, a, b, s, Cleared))
  {
    assert Dialed(s, (b, x), Claimed)[(b, x) := Dial(Cleared, false)] == Dialed(s, (b, x), Cleared);
  }

  lemma Step4(all: set<nat>, x: nat, a: nat, b: nat, s: State)
    ensures Leads(all, Dialing(x, a, b, s, Cleared), Greet(b, x), M5(x, a, b, s))
  {
    var k := |s.wires.links|;
    assert Dialed(s, (b, x), Cleared)[(b, x) := Dial(Greeted(k), false)] == Dialed(s, (b, x), Greeted(k));
  }

  lemma TriedByDeciding(x: nat, b: nat, s: State)
    requires Shaped(s.wires) && x != b && (b, x) !in s.wires.nodes
    ensures var k, w := |s.wires.links|, Open(s.wires, b, x);
            (b, k) in w.undecided && IsNew(w, b, k) && Decide(w, b, k) == Tried(x, b, s, {(x, k)}, {}, {})
  {
    var k, w := |s.wires.links|, Open(s.wires, b, x);
    assert w.links[k] == (b, x) && Across(w.links[k], b) == x;
    assert (b, k) !in s.wires.undecided by {
      assert !IsEnd(s.wires.links, b, k);
    }
    assert w.undecided - {(b, k)} == s.wires.undecided + {(x, k)};
  }

  lemma Step5(all: set<nat>, x: nat, a: nat, b: nat, s: State)
    requires Shaped(s.wires) && x != b && (b, x) !in s.wires.nodes
    ensures Leads(all, M5(x, a, b, s), Register(b, |s.wires.links|), M6(x, a, b, s))
  {
    TriedByDeciding(x, b, s);
  }

  lemma TablesOfB(x: nat, a: nat, b: nat, s: State)
    requires x != a && PeersOf(s.wires, b) == {a} && (b, a) in s.wires.nodes && s.wires.nodes[(b, a)] == 2
    ensures Tables(Tried(x, b, s, {(x, |s.wires.links|)}, {}, {}), b) == {News(x, a), Message(|s.wires.links|, x, {a})}
  {
    var k, w := |s.wires.links|, Tried(x, b, s, {(x, |s.wires.links|)}, {}, {});
    assert forall y :: y in PeersOf(w, b) <==> (b, y) in w.nodes;
    assert forall y :: y in PeersOf(s.wires, b) <==> (b, y) in s.wires.nodes;
    assert PeersOf(w, b) == {a, x};
    assert {a, x} - {a} == {x} && {a, x} - {x} == {a};
  }

  lemma Step6(all: set<nat>, x: nat, a: nat, b: nat, s: State)
    requires x != a && PeersOf(s.wires, b) == {a} && (b, a) in s.wires.nodes && s.wires.nodes[(b, a)] == 2
    ensures Leads(all, M6(x, a, b, s), Broadcast(b), M7(x, a, b, s))
  {
    TablesOfB(x, a, b, s);
    var k, owing := |s.wires.links|, s.gossip.owing;
    assert owing + multiset{b} - multiset{b} == owing;
    assert multiset({News(x, a), Message(k, x, {a})}) == multiset{News(x, a), Message(k, x, {a})};
  }

  lemma Step7(all: set<nat>, x: nat, a: nat, b: nat, s: State)
    requires Shaped(s.wires) && x != b && (b, x) !in s.dials
    ensures Leads(all, M7(x, a, b, s), Finish(b, x), Telling(x, a, b, s, Tried(x, b, s, {(x, |s.wires.links|)}, {}, {})))
  {
    var k := |s.wires.links|;
    assert !IsEnd(s.wires.links, b, k);
    assert Dialed(s, (b, x), Greeted(k)) - {(b, x)} == s.dials;
  }

  lemma RefusedAtX(x: nat, b: nat, s: State, standing: nat)
    requires Shaped(s.wires) && x < b && standing < |s.wires.links|
    requires Has(s.wires, (x, b), standing) && s.wires.links[standing] == (x, b)
    ensures var k, w := |s.wires.links|, Tried(x, b, s, {(x, |s.wires.links|)}, {}, {});
            && (x, k) in w.undecided && k < |w.links| && !IsNew(w, x, k)
            && Decide(w, x, k) == Tried(x, b, s, {}, {(x, k)}, {})
  {
    var k, w := |s.wires.links|, Tried(x, b, s, {(x, |s.wires.links|)}, {}, {});
    assert w.links[k] == (b, x) && Across(w.links[k], x) == b && w.nodes[(x, b)] == standing;
    assert !IsEnd(s.wires.links, x, k);
    assert w.undecided - {(x, k)} == s.wires.undecided + {};
    assert w.owed + {(x, k)} == s.wires.owed + {(x, k)};
  }

  lemma Step8(all: set<nat>, x: nat, a: nat, b: nat, s: State, standing: nat)
    requires Shaped(s.wires) && x < b && standing < |s.wires.links|
    requires Has(s.wires, (x, b), standing) && s.wires.links[standing] == (x, b)
    ensures Leads(all, Telling(x, a, b, s, Tried(x, b, s, {(x, |s.wires.links|)}, {}, {})), Register(x, |s.wires.links|),
                  Telling(x, a, b, s, Tried(x, b, s, {}, {(x, |s.wires.links|)}, {})))
  {
    RefusedAtX(x, b, s, standing);
  }

  lemma Step9(all: set<nat>, x: nat, a: nat, b: nat, s: State)
    requires Shaped(s.wires)
    ensures Leads(all, Telling(x, a, b, s, Tried(x, b, s, {}, {(x, |s.wires.links|)}, {})), Shut(x, |s.wires.links|),
                  Telling(x, a, b, s, Tried(x, b, s, {}, {}, {|s.wires.links|})))
  {
    var k := |s.wires.links|;
    assert !IsEnd(s.wires.links, x, k);
    assert s.wires.owed + {(x, k)} - {(x, k)} == s.wires.owed + {};
    assert s.wires.shut + {} + {k} == s.wires.shut + {k};
  }

  /** The wires after a round: as before, but for one more link that was shut. */
  function Passing(x: nat, b: nat, s: State): Wires {
    s.wires.(links := s.wires.links + [(b, x)], shut := s.wires.shut + {|s.wires.links|})
  }

  lemma DroppedByB(x: nat, b: nat, s: State)
    requires Shaped(s.wires) && x != b && (b, x) !in s.wires.nodes
    ensures var k, w := |s.wires.links|, Tried(x, b, s, {}, {}, {|s.wires.links|});
            (b, k) in w.readers && k in w.shut && k < |w.links| && EndReader(w, b, k) == Passing(x, b, s)
  {
    var k, w := |s.wires.links|, Tried(x, b, s, {}, {}, {|s.wires.links|});
    assert w.links[k] == (b, x) && Across(w.links[k], b) == x;
    assert !IsEnd(s.wires.links, b, k);
    assert w.readers - {(b, k)} == s.wires.readers;
    assert w.nodes - {(b, x)} == s.wires.nodes;
    assert s.wires.undecided + {} == s.wires.undecided && s.wires.owed + {} == s.wires.owed;
  }

  lemma Step10(all: set<nat>, x: nat, a: nat, b: nat, s: State)
    requires Shaped(s.wires) && x != b && (b, x) !in s.wires.nodes
    ensures Leads(all, Telling(x, a, b, s, Tried(x, b, s, {}, {}, {|s.wires.links|})), Eof(b, |s.wires.links|),
                  Telling(x, a, b, s, Passing(x, b, s)))
  {
    DroppedByB(x, b, s);
  }

  // ----- a round leads to the next -------------------------------------------------------------------------

  lemma PeersOfB(x: nat, y: nat, z: nat, b: nat, w: Wires)
    requires x < y && x < z && y != z && (b == y || b == z) && w.nodes == map[(x, y) := 0, (x, z) := 1, (y, z) := 2, (z, y) := 2]
    ensures PeersOf(w, b) == {Other(y, z, b)}
  {
    assert (b, Other(y, z, b)) in w.nodes;
  }

  lemma RoundSteps(all: set<nat>, x: nat, y: nat, z: nat, b: nat, s: State, i: nat)
    requires Cast(all, x, y, z) && Round(x, y, z, b, s) && i < ROUND
    ensures var a := Other(y, z, b);
            Leads(all, Mid(x, a, b, s, i), Plan(x, a, b, |s.wires.links|, i), Mid(x, a, b, s, i + 1))
  {
    var a := Other(y, z, b);
    PeersOfB(x, y, z, b, s.wires);
    if i < 4 {
      FirstSteps(all, x, a, b, s, i);
    } else if i < 8 {
      MiddleSteps(all, x, a, b, s, i);
    } else {
      LastSteps(all, x, a, b, s, i, if b == y then 0 else 1);
    }
  }

  lemma FirstSteps(all: set<nat>, x: nat, a: nat, b: nat, s: State, i: nat)
    requires i < 4 && x != a && x != b && PeersOf(s.wires, b) == {a}
    requires News(x, b) in s.gossip.messages && (b, 2) in s.wires.readers && !ProgramDialing(s, b)
    requires (b, x) !in s.dials && (b, x) !in s.wires.nodes
    ensures Leads(all, Mid(x, a, b, s, i), Plan(x, a, b, |s.wires.links|, i), Mid(x, a, b, s, i + 1))
  {
    if i == 0 {
      Step0(all, x, a, b, s);
    } else if i == 1 {
      Step1(all, x, a, b, s);
    } else if i == 2 {
      Step2(all, x, a, b, s);
    } else {
      Step3(all, x, a, b, s);
    }
  }

  lemma MiddleSteps(all: set<nat>, x: nat, a: nat, b: nat, s: State, i: nat)
    requires 4 <= i < 8 && x != a && x != b && PeersOf(s.wires, b) == {a} && Has(s.wires, (b, a), 2)
    requires Shaped(s.wires) && (b, x) !in s.dials && (b, x) !in s.wires.nodes
    ensures Leads(all, Mid(x, a, b, s, i), Plan(x, a, b, |s.wires.links|, i), Mid(x, a, b, s, i + 1))
  {
    if i == 4 {
      Step4(all, x, a, b, s);
    } else if i == 5 {
      Step5(all, x, a, b, s);
    } else if i == 6 {
      Step6(all, x, a, b, s);
    } else {
      Step7(all, x, a, b, s);
    }
  }

  lemma LastSteps(all: set<nat>, x: nat, a: nat, b: nat, s: State, i: nat, standing: nat)
    requires 8 <= i < ROUND && x < b && Shaped(s.wires) && (b, x) !in s.wires.nodes
    requires standing < |s.wires.links| && Has(s.wires, (x, b), standing) && s.wires.links[standing] == (x, b)
    ensures Leads(all, Mid(x, a, b, s, i), Plan(x, a, b, |s.wires.links|, i), Mid(x, a, b, s, i + 1))
  {
    if i == 8 {
      Step8(all, x, a, b, s, standing);
    } else if i == 9 {
      Step9(all, x, a, b, s);
    } else {
      Step10(all, x, a, b, s);
    }
  }

  lemma NextRound(all: set<nat>, x: nat, y: nat, z: nat, b: nat, s: State)
    requires Cast(all, x, y, z) && Round(x, y, z, b, s)
    ensures Round(x, y, z, Other(y, z, b), Mid(x, Other(y, z, b), b, s, ROUND))
  {
    var a := Other(y, z, b);
    var t := Mid(x, a, b, s, ROUND);
    assert t == Telling(x, a, b, s, Passing(x, b, s));
    assert Shaped(t.wires) by {
      PassingIsShaped(x, b, s);
    }
    assert News(x, a) in t.gossip.messages;
    SameDialing(s, t, y);
    SameDialing(s, t, z);
  }

  lemma PassingIsShaped(x: nat, b: nat, s: State)
    requires Shaped(s.wires) && x != b
    ensures Shaped(Passing(x, b, s))
  {
    var w := Passing(x, b, s);
    assert forall e: nat, l: nat :: IsEnd(s.wires.links, e, l) ==> IsEnd(w.links, e, l);
  }

  lemma SameDialing(s: State, t: State, e: nat)
    requires t.dials == s.dials && t.waiting == s.waiting && t.ending == s.ending
    ensures ProgramDialing(t, e) <==> ProgramDialing(s, e)
  {}

  /** Nobody registers links 0 and 1 in a round. */
  lemma StillPutOff(x: nat, y: nat, z: nat, b: nat, s: State, i: nat)
    requires Round(x, y, z, b, s)
    ensures (y, 0) in Mid(x, Other(y, z, b), b, s, i).wires.undecided
  {}

  // ----- and so on for ever ----------------------------------------------------------------------------------

  /** Whose turn it is in round `r`. */
  function Turn(y: nat, z: nat, r: nat): nat {
    if r % 2 == 0 then z else y
  }

  ghost function Begins(x: nat, y: nat, z: nat, s: State, r: nat): State {
    if r == 0 then s
    else
      var b := Turn(y, z, r - 1);
      Mid(x, Other(y, z, b), b, Begins(x, y, z, s, r - 1), ROUND)
  }

  lemma BeginsNext(all: set<nat>, x: nat, y: nat, z: nat, s: State, r: nat)
    requires Cast(all, x, y, z) && Round(x, y, z, Turn(y, z, r), Begins(x, y, z, s, r))
    ensures Round(x, y, z, Turn(y, z, r + 1), Begins(x, y, z, s, r + 1))
  {
    TurnsAlternate(y, z, r);
    NextRound(all, x, y, z, Turn(y, z, r), Begins(x, y, z, s, r));
  }

  lemma TurnsAlternate(y: nat, z: nat, r: nat)
    requires y != z
    ensures Turn(y, z, r + 1) == Other(y, z, Turn(y, z, r))
  {}

  lemma {:induction false} Chain(holds: nat -> bool, r: nat)
    requires holds(0) && forall k: nat :: holds(k) ==> holds(k + 1)
    ensures holds(r)
  {
    if r > 0 {
      Chain(holds, r - 1);
      assert holds(r - 1 + 1);
    }
  }

  lemma BeginsRound(all: set<nat>, x: nat, y: nat, z: nat, s: State, r: nat)
    requires Cast(all, x, y, z) && Round(x, y, z, z, s)
    ensures Round(x, y, z, Turn(y, z, r), Begins(x, y, z, s, r))
  {
    var holds := (k: nat) => Round(x, y, z, Turn(y, z, k), Begins(x, y, z, s, k));
    forall k: nat | holds(k) ensures holds(k + 1) {
      BeginsNext(all, x, y, z, s, k);
    }
    Chain(holds, r);
  }

  /** The state after `i` steps of round `r`. */
  ghost function At(x: nat, y: nat, z: nat, s: State, r: nat, i: nat): State {
    Mid(x, Other(y, z, Turn(y, z, r)), Turn(y, z, r), Begins(x, y, z, s, r), i)
  }

  lemma StepInRound(all: set<nat>, x: nat, y: nat, z: nat, s: State, r: nat, i: nat)
    requires Cast(all, x, y, z) && Round(x, y, z, z, s) && i < ROUND
    ensures Next(all, At(x, y, z, s, r, i), At(x, y, z, s, r, i + 1)) && (y, 0) in At(x, y, z, s, r, i).wires.undecided
  {
    BeginsRound(all, x, y, z, s, r);
    RoundSteps(all, x, y, z, Turn(y, z, r), Begins(x, y, z, s, r), i);
    StillPutOff(x, y, z, Turn(y, z, r), Begins(x, y, z, s, r), i);
  }

  lemma RoundsJoin(x: nat, y: nat, z: nat, s: State, r: nat)
    ensures At(x, y, z, s, r, ROUND) == At(x, y, z, s, r + 1, 0)
  {
    assert Begins(x, y, z, s, r + 1) == Mid(x, Other(y, z, Turn(y, z, r)), Turn(y, z, r), Begins(x, y, z, s, r), ROUND);
  }

  /** Rounds of steps, one after the other, are an endless schedule. */
  lemma Flatten(all: set<nat>, at: (nat, nat) -> State, n: nat)
    requires forall r: nat, i: nat :: i < ROUND ==> Next(all, at(r, i), at(r, i + 1))
    requires forall r: nat :: at(r, ROUND) == at(r + 1, 0)
    ensures Next(all, at(n / ROUND, n % ROUND), at((n + 1) / ROUND, (n + 1) % ROUND))
  {
    var r, i := n / ROUND, n % ROUND;
    InRound(n, r, i);
    assert Next(all, at(r, i), at(r, i + 1));
    assert at(r, ROUND) == at(r + 1, 0);
  }

  lemma InRound(n: nat, r: nat, i: nat)
    requires r == n / ROUND && i == n % ROUND
    ensures i < ROUND
    ensures if i + 1 < ROUND then (n + 1) / ROUND == r && (n + 1) % ROUND == i + 1 else (n + 1) / ROUND == r + 1 && (n + 1) % ROUND == 0
  {}

  /** From a standoff with news under way, gossip can go on for ever, while `y` is put off from registering link 0. */
  lemma RoundsForEver(all: set<nat>, x: nat, y: nat, z: nat, s: State) returns (states: nat -> State)
    requires Cast(all, x, y, z) && Round(x, y, z, z, s) && Reachable(all, s)
    ensures Endless(all, states) && states(0) == s && PutOff(states, y, 0, 0)
  {
    var at := (r: nat, i: nat) => At(x, y, z, s, r, i);
    forall r: nat, i: nat | i < ROUND ensures Next(all, at(r, i), at(r, i + 1)) && (y, 0) in at(r, i).wires.undecided {
      StepInRound(all, x, y, z, s, r, i);
    }
    forall r: nat ensures at(r, ROUND) == at(r + 1, 0) {
      RoundsJoin(x, y, z, s, r);
    }
    states := (n: nat) => at(n / ROUND, n % ROUND);
    forall n: nat ensures Next(all, states(n), states(n + 1)) && (y, 0) in states(n).wires.undecided {
      Flatten(all, at, n);
      InRound(n, n / ROUND, n % ROUND);
    }
  }

  // ----- how it comes to that -----------------------------------------------------------------------------------

  /** The first four links: `x` dials both others, `y` dials `z`, and `y` dials `x`. */
  function Four(x: nat, y: nat, z: nat): seq<(nat, nat)> {
    [(x, y), (x, z), (y, z), (y, x)]
  }

  function FourEnds(x: nat, y: nat, z: nat): set<(nat, nat)> {
    {(x, 0), (y, 0), (x, 1), (z, 1), (y, 2), (z, 2), (y, 3), (x, 3)}
  }

  function W(x: nat, y: nat, z: nat, undecided: set<(nat, nat)>, nodes: map<(nat, nat), nat>, readers: set<(nat, nat)>,
             owed: set<(nat, nat)>, shut: set<nat>): Wires {
    Wires(Four(x, y, z), undecided, nodes, readers, owed, shut)
  }

  function Tables4(x: nat, y: nat, z: nat): map<(nat, nat), nat> {
    map[(x, y) := 0, (x, z) := 1, (y, z) := 2, (z, y) := 2]
  }

  lemma FourGreeted(all: set<nat>, x: nat, y: nat, z: nat) returns (s: State)
    requires Cast(all, x, y, z)
    ensures Reachable(all, s) && s.wires == W(x, y, z, FourEnds(x, y, z), map[], {}, {}, {})
    ensures s.waiting == multiset{} && s.ending == multiset{}
    ensures s.dials == map[(x, y) := Dial(Greeted(0), true), (x, z) := Dial(Greeted(1), true),
                           (y, z) := Dial(Greeted(2), true), (y, x) := Dial(Greeted(3), true)]
  {
    s := Start(all);
    s := DialAndGreet(all, s, x, y);
    s := DialAndGreet(all, s, x, z);
    s := DialAndGreet(all, s, y, z);
    s := DialAndGreet(all, s, y, x);
    assert s.wires.links == Four(x, y, z);
    assert s.wires.undecided == FourEnds(x, y, z);
  }

  /** A step at a link, seen from its wires. */
  lemma TakeWire(all: set<nat>, s: State, step: Step, w: Wires) returns (s': State)
    requires Reachable(all, s) && Enabled(all, s, step) && WiresAfter(s, step) == w && (step.Register? || step.Shut? || step.Eof?)
    ensures Reachable(all, s') && s'.wires == w && s'.dials == s.dials && s'.waiting == s.waiting && s'.ending == s.ending
    ensures s'.gossip.messages == s.gossip.messages
    ensures step.Register? && IsNew(s.wires, step.end, step.l) ==> step.end in s'.gossip.owing
  {
    s' := Take(all, s, step);
  }

  lemma XDecides(x: nat, y: nat, z: nat)
    requires x < y && x < z && y != z
    ensures Decide(W(x, y, z, FourEnds(x, y, z), map[], {}, {}, {}), x, 0) ==
            W(x, y, z, FourEnds(x, y, z) - {(x, 0)}, map[(x, y) := 0], {(x, 0)}, {}, {})
    ensures Decide(W(x, y, z, FourEnds(x, y, z) - {(x, 0)}, map[(x, y) := 0], {(x, 0)}, {}, {}), x, 1) ==
            W(x, y, z, {(y, 0), (z, 1), (y, 2), (z, 2), (y, 3), (x, 3)}, map[(x, y) := 0, (x, z) := 1], {(x, 0), (x, 1)}, {}, {})
  {
    assert FourEnds(x, y, z) - {(x, 0)} - {(x, 1)} == {(y, 0), (z, 1), (y, 2), (z, 2), (y, 3), (x, 3)};
  }

  lemma YAndZDecide(x: nat, y: nat, z: nat)
    requires x < y && x < z && y != z
    ensures Decide(W(x, y, z, {(y, 0), (z, 1), (y, 2), (z, 2), (y, 3), (x, 3)}, map[(x, y) := 0, (x, z) := 1], {(x, 0), (x, 1)}, {}, {}), y, 2) ==
            W(x, y, z, {(y, 0), (z, 1), (z, 2), (y, 3), (x, 3)}, map[(x, y) := 0, (x, z) := 1, (y, z) := 2], {(x, 0), (x, 1), (y, 2)}, {}, {})
    ensures Decide(W(x, y, z, {(y, 0), (z, 1), (z, 2), (y, 3), (x, 3)}, map[(x, y) := 0, (x, z) := 1, (y, z) := 2], {(x, 0), (x, 1), (y, 2)}, {}, {}), z, 2) ==
            W(x, y, z, {(y, 0), (z, 1), (y, 3), (x, 3)}, Tables4(x, y, z), {(x, 0), (x, 1), (y, 2), (z, 2)}, {}, {})
  {
    var w := W(x, y, z, {(y, 0), (z, 1), (y, 2), (z, 2), (y, 3), (x, 3)}, map[(x, y) := 0, (x, z) := 1], {(x, 0), (x, 1)}, {}, {});
    assert w.undecided - {(y, 2)} == {(y, 0), (z, 1), (z, 2), (y, 3), (x, 3)};
    assert {(y, 0), (z, 1), (z, 2), (y, 3), (x, 3)} - {(z, 2)} == {(y, 0), (z, 1), (y, 3), (x, 3)};
  }

  /** `x` has both others, and they have each other. */
  lemma FourRegistered(all: set<nat>, x: nat, y: nat, z: nat) returns (s: State)
    requires Cast(all, x, y, z)
    ensures Reachable(all, s)
    ensures s.wires == W(x, y, z, {(y, 0), (z, 1), (y, 3), (x, 3)}, Tables4(x, y, z), {(x, 0), (x, 1), (y, 2), (z, 2)}, {}, {})
    ensures s.waiting == multiset{} && s.ending == multiset{}
    ensures s.dials == map[(x, y) := Dial(Greeted(0), true), (x, z) := Dial(Greeted(1), true),
                           (y, z) := Dial(Greeted(2), true), (y, x) := Dial(Greeted(3), true)]
  {
    s := FourGreeted(all, x, y, z);
    XDecides(x, y, z);
    s := TakeWire(all, s, Register(x, 0), W(x, y, z, FourEnds(x, y, z) - {(x, 0)}, map[(x, y) := 0], {(x, 0)}, {}, {}));
    s := TakeWire(all, s, Register(x, 1),
    W(x, y, z, {(y, 0), (z, 1), (y, 2), (z, 2), (y, 3), (x, 3)}, map[(x, y) := 0, (x, z) := 1], {(x, 0), (x, 1)}, {}, {}));
    YAndZDecide(x, y, z);
    s := TakeWire(all, s, Register(y, 2),
    W(x, y, z, {(y, 0), (z, 1), (z, 2), (y, 3), (x, 3)}, map[(x, y) := 0, (x, z) := 1, (y, z) := 2], {(x, 0), (x, 1), (y, 2)}, {}, {}));
    s := TakeWire(all, s, Register(z, 2), W(x, y, z, {(y, 0), (z, 1), (y, 3), (x, 3)}, Tables4(x, y, z), {(x, 0), (x, 1), (y, 2), (z, 2)}, {}, {}));
  }

  function YTries(x: nat, y: nat, z: nat): Wires {
    W(x, y, z, {(y, 0), (z, 1), (x, 3)}, Tables4(x, y, z)[(y, x) := 3], {(x, 0), (x, 1), (y, 2), (z, 2), (y, 3)}, {}, {})
  }

  lemma YTriesX(x: nat, y: nat, z: nat)
    requires x < y && x < z && y != z
    ensures var w := W(x, y, z, {(y, 0), (z, 1), (y, 3), (x, 3)}, Tables4(x, y, z), {(x, 0), (x, 1), (y, 2), (z, 2)}, {}, {});
            IsNew(w, y, 3) && Decide(w, y, 3) == YTries(x, y, z)
    ensures News(x, z) in Tables(YTries(x, y, z), y)
  {
    assert {(y, 0), (z, 1), (y, 3), (x, 3)} - {(y, 3)} == {(y, 0), (z, 1), (x, 3)};
    var w := YTries(x, y, z);
    assert (y, z) in w.nodes && (y, x) in w.nodes;
    assert PeersOf(w, y) == {x, z} && {x, z} - {z} == {x};
  }

  lemma YTells(all: set<nat>, x: nat, y: nat, z: nat) returns (s: State)
    requires Cast(all, x, y, z)
    ensures Reachable(all, s) && s.wires == YTries(x, y, z) && News(x, z) in s.gossip.messages
    ensures s.waiting == multiset{} && s.ending == multiset{}
    ensures s.dials == map[(x, y) := Dial(Greeted(0), true), (x, z) := Dial(Greeted(1), true),
                           (y, z) := Dial(Greeted(2), true), (y, x) := Dial(Greeted(3), true)]
  {
    s := FourRegistered(all, x, y, z);
    YTriesX(x, y, z);
    s := TakeWire(all, s, Register(y, 3), YTries(x, y, z));
    s := Take(all, s, Broadcast(y));
  }

  /** A program's dial whose end has decided is over, and is no longer counted. */
  lemma DialOver(all: set<nat>, s: State, p: (nat, nat)) returns (s': State)
    requires Reachable(all, s) && p in s.dials && s.dials[p].program && s.dials[p].stage.Greeted?
    requires (p.0, s.dials[p].stage.link) !in s.wires.undecided && s.ending == multiset{}
    ensures Reachable(all, s') && s'.wires == s.wires && s'.dials == s.dials - {p} && s'.waiting == s.waiting
    ensures s'.ending == multiset{} && s'.gossip.messages == s.gossip.messages
  {
    var t := Take(all, s, Finish(p.0, p.1));
    s' := Take(all, t, EndProgram(p.0));
  }

  /** `y` has tried `x`, told `z`, and its program's dials are over. */
  lemma YHasTold(all: set<nat>, x: nat, y: nat, z: nat) returns (s: State)
    requires Cast(all, x, y, z)
    ensures Reachable(all, s) && s.wires == YTries(x, y, z) && News(x, z) in s.gossip.messages
    ensures s.dials == map[(x, y) := Dial(Greeted(0), true), (x, z) := Dial(Greeted(1), true)]
    ensures s.waiting == multiset{} && s.ending == multiset{}
  {
    s := YTells(all, x, y, z);
    s := DialOver(all, s, (y, z));
    s := DialOver(all, s, (y, x));
    assert s.dials == map[(x, y) := Dial(Greeted(0), true), (x, z) := Dial(Greeted(1), true)];
  }

  function XRefuses(x: nat, y: nat, z: nat, owed: set<(nat, nat)>, shut: set<nat>): Wires {
    W(x, y, z, {(y, 0), (z, 1)}, Tables4(x, y, z)[(y, x) := 3], {(x, 0), (x, 1), (y, 2), (z, 2), (y, 3)}, owed, shut)
  }

  function AtStandoff(x: nat, y: nat, z: nat): Wires {
    W(x, y, z, {(y, 0), (z, 1)}, Tables4(x, y, z), {(x, 0), (x, 1), (y, 2), (z, 2)}, {}, {3})
  }

  lemma XRefusesY(x: nat, y: nat, z: nat)
    requires x < y && x < z && y != z
    ensures Decide(YTries(x, y, z), x, 3) == XRefuses(x, y, z, {(x, 3)}, {})
    ensures ShutDown(XRefuses(x, y, z, {(x, 3)}, {}), x, 3) == XRefuses(x, y, z, {}, {3})
    ensures EndReader(XRefuses(x, y, z, {}, {3}), y, 3) == AtStandoff(x, y, z)
  {
    assert {(y, 0), (z, 1), (x, 3)} - {(x, 3)} == {(y, 0), (z, 1)};
    assert {(x, 3)} - {(x, 3)} == {} && {} + {3} == {3};
    assert {(x, 0), (x, 1), (y, 2), (z, 2), (y, 3)} - {(y, 3)} == {(x, 0), (x, 1), (y, 2), (z, 2)};
    assert Tables4(x, y, z)[(y, x) := 3] - {(y, x)} == Tables4(x, y, z);
  }

  lemma StandoffReached(all: set<nat>, x: nat, y: nat, z: nat) returns (s: State)
    requires Cast(all, x, y, z)
    ensures Reachable(all, s) && Round(x, y, z, z, s)
  {
    s := YHasTold(all, x, y, z);
    XRefusesY(x, y, z);
    s := TakeWire(all, s, Register(x, 3), XRefuses(x, y, z, {(x, 3)}, {}));
    s := TakeWire(all, s, Shut(x, 3), XRefuses(x, y, z, {}, {3}));
    s := TakeWire(all, s, Eof(y, 3), AtStandoff(x, y, z));
    StandoffIsRound(x, y, z, s);
  }

  lemma StandoffIsRound(x: nat, y: nat, z: nat, s: State)
    requires x < y && x < z && y != z && s.wires == AtStandoff(x, y, z) && News(x, z) in s.gossip.messages
    requires s.dials == map[(x, y) := Dial(Greeted(0), true), (x, z) := Dial(Greeted(1), true)]
    requires s.waiting == multiset{} && s.ending == multiset{}
    ensures Round(x, y, z, z, s)
  {
    assert Shaped(s.wires);
  }

  /**
   Any three nodes can gossip for ever after four program dials, if the one that sorts second
   of a pair is put off from registering the other's link for ever.
   */
  lemma GossipCanGoOn(all: set<nat>, x: nat, y: nat, z: nat) returns (states: nat -> State)
    requires Cast(all, x, y, z)
    ensures Endless(all, states) && PutOff(states, y, 0, 0)
  {
    var s := StandoffReached(all, x, y, z);
    states := RoundsForEver(all, x, y, z, s);
  }
}
