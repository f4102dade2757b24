/**
 The physical links of a cluster. Two nodes that dial each other make two links, and each end
 decides on its own, in its own order, which of them is THE link: the one dialed by the node
 whose name sorts first. The other is shut by whoever turned it away or replaced it, and is EOF
 to the end that still reads it. Whatever the order, of all links ever made between two nodes
 one stands: it is never shut, and it is registered wherever it has been decided on.
 */
module MeshLinks {
  import opened Wrappers

  /** Nodes are numbered in the order of their names; a link is who dialed, and whom. */
  datatype Wires = Wires(
    links: seq<(nat, nat)>,
    // (x, l): x has greeted over link l, and is still to register it
    undecided: set<(nat, nat)>,
    // (x, y): the link x has registered for y
    nodes: map<(nat, nat), nat>,
    // (x, l): x reads link l; x owes link l a shutdown
    readers: set<(nat, nat)>,
    owed: set<(nat, nat)>,
    shut: set<nat>)

  /** A dial holds a claim on its peer until the dialing end has decided on its link. */
  datatype Stage = Claimed | Cleared | Greeted(link: nat)

  datatype Dial = Dial(stage: Stage, program: bool)

  type Dials = map<(nat, nat), Dial>

  /** The other end of a link. */
  function Across(link: (nat, nat), end: nat): nat {
    if link.0 == end then link.1 else link.0
  }

  predicate IsEnd(links: seq<(nat, nat)>, end: nat, l: nat) {
    l < |links| && (links[l].0 == end || links[l].1 == end)
  }

  // ----- what happens to links -----------------------------------------------------------------------

  /** A handshake between `x`, which dialed, and `y` is done. */
  function Open(w: Wires, x: nat, y: nat): Wires {
    w.(links := w.links + [(x, y)], undecided := w.undecided + {(x, |w.links|), (y, |w.links|)})
  }

  /** `end` has no link to the other end of link `l` yet. */
  predicate IsNew(w: Wires, end: nat, l: nat)
    requires l < |w.links|
  {
    (end, Across(w.links[l], end)) !in w.nodes
  }

  /** Link `l` was dialed by a node that sorts before the one that dialed the link registered at `end`. */
  predicate Wins(w: Wires, end: nat, l: nat)
    requires l < |w.links| && !IsNew(w, end, l)
  {
    var current := w.nodes[(end, Across(w.links[l], end))];
    current < |w.links| && w.links[l].0 < w.links[current].0
  }

  /** `end` registers link `l`, with a link registered before evicted or `l` turned away. */
  function Decide(w: Wires, end: nat, l: nat): Wires
    requires l < |w.links|
  {
    var key := (end, Across(w.links[l], end));
    var after := w.(undecided := w.undecided - {(end, l)});
    if IsNew(w, end, l) then after.(nodes := w.nodes[key := l], readers := w.readers + {(end, l)})
    else if Wins(w, end, l)
    then after.(nodes := w.nodes[key := l], readers := w.readers + {(end, l)}, owed := w.owed + {(end, w.nodes[key])})
    else after.(owed := w.owed + {(end, l)})
  }

  function ShutDown(w: Wires, end: nat, l: nat): Wires {
    w.(owed := w.owed - {(end, l)}, shut := w.shut + {l})
  }

  /** The reader of a shut link ends, and drops the link if it is still the registered one. */
  function EndReader(w: Wires, end: nat, l: nat): Wires
    requires l < |w.links|
  {
    var key := (end, Across(w.links[l], end));
    w.(readers := w.readers - {(end, l)},
    nodes := if key in w.nodes && w.nodes[key] == l then w.nodes - {key} else w.nodes)
  }

  // ----- the link that stands ---------------------------------------------------------------------------

  /** The link was dialed by the node that sorts first, or the other never dialed. */
  ghost predicate Stands(links: seq<(nat, nat)>, l: nat) {
    && l < |links|
    && (links[l].0 < links[l].1 || forall m :: 0 <= m < |links| ==> links[m] != (links[l].1, links[l].0))
  }

  predicate SamePair(a: (nat, nat), b: (nat, nat)) {
    a == b || a == (b.1, b.0)
  }

  ghost predicate Shaped(w: Wires) {
    && (forall l :: 0 <= l < |w.links| ==> w.links[l].0 != w.links[l].1)
    && (forall p :: p in w.undecided ==> IsEnd(w.links, p.0, p.1))
    && (forall p :: p in w.readers ==> IsEnd(w.links, p.0, p.1))
    && (forall p :: p in w.owed ==> IsEnd(w.links, p.0, p.1))
    && (forall l :: l in w.shut ==> l < |w.links|)
  }

  /** A registered link is read, and was decided on. */
  ghost predicate Registered(w: Wires) {
    forall p :: p in w.nodes ==>
                  && IsEnd(w.links, p.0, w.nodes[p]) && Across(w.links[w.nodes[p]], p.0) == p.1
                  && (p.0, w.nodes[p]) in w.readers && (p.0, w.nodes[p]) !in w.undecided
  }

  /** Each end of each link is still to decide on it, reads it, owes it a shutdown, or it has been shut. */
  ghost predicate Accounted(w: Wires) {
    forall end: nat, l: nat :: IsEnd(w.links, end, l) ==>
                       (end, l) in w.undecided || (end, l) in w.readers || (end, l) in w.owed || l in w.shut
  }

  ghost predicate OneStands(links: seq<(nat, nat)>) {
    forall l: nat, m: nat :: Stands(links, l) && Stands(links, m) && SamePair(links[l], links[m]) ==> l == m
  }

  /** A link that stands is never shut, and is registered where it has been decided on. */
  ghost predicate HoldsAt(w: Wires, end: nat, l: nat) {
    && l !in w.shut && (end, l) !in w.owed
    && ((end, l) in w.undecided || (l < |w.links| && Has(w, (end, Across(w.links[l], end)), l)))
  }

  predicate Has(w: Wires, key: (nat, nat), l: nat) {
    key in w.nodes && w.nodes[key] == l
  }

  ghost predicate StandingHold(w: Wires) {
    forall end: nat, l: nat :: Stands(w.links, l) && IsEnd(w.links, end, l) ==> HoldsAt(w, end, l)
  }

  /** A dial past its look at the table has no standing link of its own yet; one that greeted has made its link. */
  ghost predicate DialsRight(w: Wires, dials: Dials) {
    && (forall p, l :: p in dials && dials[p].stage.Cleared? && 0 <= l < |w.links| && w.links[l] == p ==> !Stands(w.links, l))
    && (forall p :: p in dials && dials[p].stage.Greeted? ==>
                      dials[p].stage.link < |w.links| && w.links[dials[p].stage.link] == p)
    && (forall l :: 0 <= l < |w.links| && (w.links[l].0, l) in w.undecided ==>
                      w.links[l] in dials && dials[w.links[l]].stage == Greeted(l))
  }

  ghost predicate Inv(w: Wires, dials: Dials) {
    Shaped(w) && Registered(w) && Accounted(w) && OneStands(w.links) && StandingHold(w) && DialsRight(w, dials)
  }

  // ----- every step keeps it ------------------------------------------------------------------------------

  /** After a link from `x` to `y` is made, a link that stands stood before, or is the new one. */
  lemma StandsAfterOpen(links: seq<(nat, nat)>, p: (nat, nat), l: nat)
    requires Stands(links + [p], l)
    ensures l < |links| ==> Stands(links, l)
    ensures l < |links| ==> !(links[l].1 < links[l].0 && p == (links[l].1, links[l].0))
    ensures l == |links| && p.1 < p.0 ==> forall m :: 0 <= m < |links| ==> links[m] != (p.1, p.0)
  {
    var after := links + [p];
    assert after[|links|] == p;
    assert forall m :: 0 <= m < |links| ==> after[m] == links[m];
  }

  lemma OpenKeepsOneStanding(w: Wires, dials: Dials, p: (nat, nat))
    requires Shaped(w) && OneStands(w.links) && DialsRight(w, dials) && p.0 != p.1
    requires p in dials && dials[p].stage.Cleared?
    ensures OneStands(w.links + [p])
  {
    var links := w.links + [p];
    forall l: nat, m: nat | Stands(links, l) && Stands(links, m) && SamePair(links[l], links[m]) ensures l == m {
      StandsAfterOpen(w.links, p, l);
      StandsAfterOpen(w.links, p, m);
      if l < |w.links| && m == |w.links| {
        NewStandsAlone(w, dials, p, l);
      } else if m < |w.links| && l == |w.links| {
        NewStandsAlone(w, dials, p, m);
      }
    }
  }

  /** No link that still stands is between the same nodes as a new one that does. */
  lemma NewStandsAlone(w: Wires, dials: Dials, p: (nat, nat), l: nat)
    requires Shaped(w) && DialsRight(w, dials) && p.0 != p.1 && p in dials && dials[p].stage.Cleared? && l < |w.links|
    requires Stands(w.links + [p], l) && Stands(w.links + [p], |w.links|)
    ensures !SamePair(w.links[l], p)
  {
    StandsAfterOpen(w.links, p, l);
    StandsAfterOpen(w.links, p, |w.links|);
  }

  lemma OpenKeepsShape(w: Wires, p: (nat, nat))
    requires Shaped(w) && p.0 != p.1
    ensures Shaped(Open(w, p.0, p.1))
  {}

  lemma OpenKeepsRegistered(w: Wires, p: (nat, nat))
    requires Shaped(w) && Registered(w)
    ensures Registered(Open(w, p.0, p.1))
  {
    var w' := Open(w, p.0, p.1);
    forall q | q in w'.nodes
      ensures && IsEnd(w'.links, q.0, w'.nodes[q]) && Across(w'.links[w'.nodes[q]], q.0) == q.1
              && (q.0, w'.nodes[q]) in w'.readers && (q.0, w'.nodes[q]) !in w'.undecided
    {
      assert IsEnd(w.links, q.0, w.nodes[q]);
    }
  }

  lemma OpenKeepsAccounts(w: Wires, p: (nat, nat))
    requires Accounted(w)
    ensures Accounted(Open(w, p.0, p.1))
  {
    var w' := Open(w, p.0, p.1);
    forall end: nat, l: nat | IsEnd(w'.links, end, l)
      ensures (end, l) in w'.undecided || (end, l) in w'.readers || (end, l) in w'.owed || l in w'.shut
    {
      if l < |w.links| {
        assert IsEnd(w.links, end, l);
      }
    }
  }

  lemma OpenKeepsStanding(w: Wires, p: (nat, nat))
    requires Shaped(w) && StandingHold(w)
    ensures StandingHold(Open(w, p.0, p.1))
  {
    var w' := Open(w, p.0, p.1);
    forall end: nat, l: nat | Stands(w'.links, l) && IsEnd(w'.links, end, l) ensures HoldsAt(w', end, l) {
      StandsAfterOpen(w.links, p, l);
      if l < |w.links| {
        assert IsEnd(w.links, end, l);
        assert HoldsAt(w, end, l);
      } else {
        assert !IsEnd(w.links, end, l);
      }
    }
  }

  lemma OpenKeepsDials(w: Wires, dials: Dials, p: (nat, nat))
    requires Shaped(w) && DialsRight(w, dials) && p.0 != p.1 && p in dials && dials[p].stage.Cleared?
    ensures DialsRight(Open(w, p.0, p.1), dials[p := dials[p].(stage := Greeted(|w.links|))])
  {
    var w', dials' := Open(w, p.0, p.1), dials[p := dials[p].(stage := Greeted(|w.links|))];
    forall q, l | q in dials' && dials'[q].stage.Cleared? && 0 <= l < |w'.links| && w'.links[l] == q
      ensures !Stands(w'.links, l)
    {
      assert q != p && w.links[l] == q && !Stands(w.links, l);
      if Stands(w'.links, l) {
        StandsAfterOpen(w.links, p, l);
      }
    }
  }

  lemma OpenKeepsInv(w: Wires, dials: Dials, p: (nat, nat))
    requires Inv(w, dials) && p.0 != p.1 && p in dials && dials[p].stage.Cleared?
    ensures Inv(Open(w, p.0, p.1), dials[p := dials[p].(stage := Greeted(|w.links|))])
  {
    OpenKeepsShape(w, p);
    OpenKeepsRegistered(w, p);
    OpenKeepsAccounts(w, p);
    OpenKeepsOneStanding(w, dials, p);
    OpenKeepsStanding(w, p);
    OpenKeepsDials(w, dials, p);
  }

  /** A dial that finds no link in the table has no standing link of its own. */
  lemma ClearKeepsInv(w: Wires, dials: Dials, p: (nat, nat))
    requires Inv(w, dials) && p in dials && dials[p].stage.Claimed? && p !in w.nodes
    ensures Inv(w, dials[p := dials[p].(stage := Cleared)])
  {
    forall l | 0 <= l < |w.links| && w.links[l] == p ensures !Stands(w.links, l) {
      assert IsEnd(w.links, p.0, l);
      assert Stands(w.links, l) ==> HoldsAt(w, p.0, l);
    }
  }

  /** A link that stands is taken where it is decided on, and no other link takes its place there. */
  lemma StandingTaken(w: Wires, end: nat, l: nat)
    requires Shaped(w) && Registered(w) && OneStands(w.links) && StandingHold(w) && (end, l) in w.undecided && Stands(w.links, l)
    ensures IsNew(w, end, l) || Wins(w, end, l)
  {
    if !IsNew(w, end, l) {
      var current := w.nodes[(end, Across(w.links[l], end))];
      assert SamePair(w.links[l], w.links[current]) && current != l;
      assert !Stands(w.links, current);
      StandsOrLoses(w.links, current);
    }
  }

  /** A link that does not stand was dialed by the node that sorts second, and the first has dialed too. */
  lemma StandsOrLoses(links: seq<(nat, nat)>, l: nat)
    requires l < |links| && !Stands(links, l) && links[l].0 != links[l].1
    ensures links[l].1 < links[l].0 && (links[l].1, links[l].0) in links
  {}

  lemma StandingUnbeaten(w: Wires, end: nat, l: nat, m: nat)
    requires Shaped(w) && Registered(w) && OneStands(w.links) && (end, l) in w.undecided
    requires Stands(w.links, m) && Has(w, (end, Across(w.links[l], end)), m)
    ensures !IsNew(w, end, l) && !Wins(w, end, l)
  {
    assert SamePair(w.links[l], w.links[m]);
  }

  lemma DecideKeepsShape(w: Wires, end: nat, l: nat)
    requires Shaped(w) && Registered(w) && (end, l) in w.undecided
    ensures Shaped(Decide(w, end, l)) && Registered(Decide(w, end, l))
  {}

  lemma DecideKeepsAccounts(w: Wires, end: nat, l: nat)
    requires Accounted(w) && l < |w.links|
    ensures Accounted(Decide(w, end, l))
  {
    var w' := Decide(w, end, l);
    forall e: nat, m: nat | IsEnd(w'.links, e, m)
      ensures (e, m) in w'.undecided || (e, m) in w'.readers || (e, m) in w'.owed || m in w'.shut
    {
      assert IsEnd(w.links, e, m);
    }
  }

  /** Deciding on a link changes the table and the debts for its own two nodes only. */
  lemma DecideElsewhere(w: Wires, end: nat, l: nat, e: nat, m: nat)
    requires Shaped(w) && Registered(w) && (end, l) in w.undecided && IsEnd(w.links, e, m) && HoldsAt(w, e, m)
    requires e != end || Across(w.links[m], e) != Across(w.links[l], e)
    ensures HoldsAt(Decide(w, end, l), e, m)
  {
    var w', key := Decide(w, end, l), (e, Across(w.links[m], e));
    assert key in w'.nodes <==> key in w.nodes;
    assert key in w.nodes ==> w'.nodes[key] == w.nodes[key];
    var at := (end, Across(w.links[l], end));
    assert at in w.nodes ==> Across(w.links[w.nodes[at]], end) == at.1;
    assert (e, m) !in w'.owed;
  }

  /** Nor does it unseat a link that stands between the same nodes. */
  lemma DecideBeside(w: Wires, end: nat, l: nat, m: nat)
    requires Shaped(w) && Registered(w) && OneStands(w.links) && (end, l) in w.undecided && IsEnd(w.links, end, m)
    requires Stands(w.links, m) && m != l && Across(w.links[m], end) == Across(w.links[l], end) && HoldsAt(w, end, m)
    ensures HoldsAt(Decide(w, end, l), end, m)
  {
    if (end, m) !in w.undecided {
      StandingUnbeaten(w, end, l, m);
    }
  }

  lemma DecideHolds(w: Wires, end: nat, l: nat, e: nat, m: nat)
    requires Shaped(w) && Registered(w) && OneStands(w.links) && StandingHold(w) && (end, l) in w.undecided
    requires Stands(w.links, m) && IsEnd(w.links, e, m)
    ensures HoldsAt(Decide(w, end, l), e, m)
  {
    assert HoldsAt(w, e, m);
    if e != end || Across(w.links[m], e) != Across(w.links[l], e) {
      DecideElsewhere(w, end, l, e, m);
    } else if m != l {
      DecideBeside(w, end, l, m);
    } else {
      StandingTaken(w, end, l);
    }
  }

  lemma DecideKeepsInv(w: Wires, dials: Dials, end: nat, l: nat)
    requires Inv(w, dials) && (end, l) in w.undecided
    ensures Inv(Decide(w, end, l), dials)
  {
    DecideKeepsShape(w, end, l);
    DecideKeepsAccounts(w, end, l);
    var w' := Decide(w, end, l);
    assert w'.links == w.links;
    forall e: nat, m: nat | Stands(w'.links, m) && IsEnd(w'.links, e, m) ensures HoldsAt(w', e, m) {
      DecideHolds(w, end, l, e, m);
    }
    assert forall q :: q in w'.undecided ==> q in w.undecided;
  }

  lemma ShutDownKeepsAccounts(w: Wires, end: nat, l: nat)
    requires Accounted(w)
    ensures Accounted(ShutDown(w, end, l))
  {
    var w' := ShutDown(w, end, l);
    forall e: nat, m: nat | IsEnd(w'.links, e, m)
      ensures (e, m) in w'.undecided || (e, m) in w'.readers || (e, m) in w'.owed || m in w'.shut
    {
      assert IsEnd(w.links, e, m);
    }
  }

  lemma ShutDownKeepsInv(w: Wires, dials: Dials, end: nat, l: nat)
    requires Inv(w, dials) && (end, l) in w.owed
    ensures Inv(ShutDown(w, end, l), dials)
  {
    var w' := ShutDown(w, end, l);
    ShutDownKeepsAccounts(w, end, l);
    assert IsEnd(w.links, end, l) && (Stands(w.links, l) ==> HoldsAt(w, end, l));
    forall e: nat, m: nat | Stands(w'.links, m) && IsEnd(w'.links, e, m) ensures HoldsAt(w', e, m) {
      assert HoldsAt(w, e, m);
    }
  }

  lemma EndReaderKeepsShape(w: Wires, end: nat, l: nat)
    requires Shaped(w) && Registered(w) && (end, l) in w.readers
    ensures Shaped(EndReader(w, end, l)) && Registered(EndReader(w, end, l))
  {
    var w', key := EndReader(w, end, l), (end, Across(w.links[l], end));
    forall p | p in w'.nodes ensures (p.0, w'.nodes[p]) != (end, l) {
      assert p in w.nodes && Across(w.links[w.nodes[p]], p.0) == p.1;
    }
  }

  lemma EndReaderHolds(w: Wires, end: nat, l: nat, e: nat, m: nat)
    requires HoldsAt(w, e, m) && m != l && l < |w.links|
    ensures HoldsAt(EndReader(w, end, l), e, m)
  {}

  lemma EndReaderKeepsAccounts(w: Wires, end: nat, l: nat)
    requires Accounted(w) && l in w.shut && l < |w.links|
    ensures Accounted(EndReader(w, end, l))
  {
    var w' := EndReader(w, end, l);
    forall e: nat, m: nat | IsEnd(w'.links, e, m)
      ensures (e, m) in w'.undecided || (e, m) in w'.readers || (e, m) in w'.owed || m in w'.shut
    {
      assert IsEnd(w.links, e, m);
    }
  }

  lemma EndReaderKeepsInv(w: Wires, dials: Dials, end: nat, l: nat)
    requires Inv(w, dials) && (end, l) in w.readers && l in w.shut
    ensures Inv(EndReader(w, end, l), dials)
  {
    var w' := EndReader(w, end, l);
    EndReaderKeepsShape(w, end, l);
    EndReaderKeepsAccounts(w, end, l);
    forall e: nat, m: nat | Stands(w'.links, m) && IsEnd(w'.links, e, m) ensures HoldsAt(w', e, m) {
      assert HoldsAt(w, e, m);
      EndReaderHolds(w, end, l, e, m);
    }
  }

  /** A dial that is over had greeted and its own end has decided, or it had not got that far. */
  lemma DropDialKeepsInv(w: Wires, dials: Dials, p: (nat, nat))
    requires Inv(w, dials) && p in dials
    requires dials[p].stage.Greeted? ==> (p.0, dials[p].stage.link) !in w.undecided
    ensures Inv(w, dials - {p})
  {}

  lemma AddDialsKeepsInv(w: Wires, dials: Dials, more: Dials)
    requires Inv(w, dials) && forall p :: p in more ==> (p in dials && more[p] == dials[p]) || more[p].stage.Claimed?
    requires forall p :: p in dials ==> p in more && more[p] == dials[p]
    ensures Inv(w, more)
  {}

  // ----- two nodes between which a link was made ---------------------------------------------------------

  /** A link was made between the two. */
  ghost predicate Joined(links: seq<(nat, nat)>, x: nat, y: nat) {
    exists l: nat :: l < |links| && SamePair(links[l], (x, y))
  }

  lemma JoinedHasStanding(links: seq<(nat, nat)>, x: nat, y: nat) returns (l: nat)
    requires Joined(links, x, y) && x != y
    ensures l < |links| && SamePair(links[l], (x, y)) && Stands(links, l)
  {
    l :| l < |links| && SamePair(links[l], (x, y));
    if !Stands(links, l) {
      var m :| 0 <= m < |links| && links[m] == (links[l].1, links[l].0);
      l := m;
    }
  }

  /** Once every end has decided, both ends have registered the one link that stands. */
  lemma JoinedIsRegistered(w: Wires, x: nat, y: nat)
    requires StandingHold(w) && Joined(w.links, x, y) && x != y && w.undecided == {}
    ensures (x, y) in w.nodes && (y, x) in w.nodes && w.nodes[(x, y)] == w.nodes[(y, x)] && Stands(w.links, w.nodes[(x, y)])
  {
    var l := JoinedHasStanding(w.links, x, y);
    assert IsEnd(w.links, x, l) && IsEnd(w.links, y, l);
    assert HoldsAt(w, x, l) && HoldsAt(w, y, l);
  }

  lemma RegisteredIsJoined(w: Wires, x: nat, y: nat)
    requires Registered(w) && (x, y) in w.nodes
    ensures Joined(w.links, x, y)
  {
    assert SamePair(w.links[w.nodes[(x, y)]], (x, y));
  }
}
