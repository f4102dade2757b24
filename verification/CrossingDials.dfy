/**
 Two live nodes and any number of physical links dialed between them. Each end registers
 each link once, in its own order; a link that loses at an end, or is evicted there, is
 shut by that end later; a shut link is EOF to the reader of either end, which then drops
 it. The question is which links are left once all of that has happened.
 */
module CrossingDials {
  import opened Wrappers
  import opened NodeNames
  import Links

  /** The two ends of every link. */
  datatype End = Left | Right

  /** What each end has registered for the other node. */
  datatype Ends = Ends(left: Option<nat>, right: Option<nat>) {
    function At(e: End): Option<nat> {
      match e case Left => left case Right => right
    }
    function With(e: End, link: Option<nat>): (r: Ends)
      ensures forall f: End :: r.At(f) == if f == e then link else At(f)
    {
      match e case Left => Ends(link, right) case Right => Ends(left, link)
    }
  }

  datatype State = State(
    registered: Ends,
    // links an end has not yet registered (its handshake is still running)
    undecided: set<(End, nat)>,
    // shutdowns an end owes: the links that lost or were evicted there
    owed: set<(End, nat)>,
    // links shut by some end
    shut: set<nat>,
    // the ends still reading a link
    readers: set<(End, nat)>)

  datatype Step = Register(end: End, link: nat) | Shut(end: End, link: nat) | Eof(end: End, link: nat)

  /** The dials: each physical link and the name of the node that dialed it. */
  type Dials = map<nat, string>

  /** The links as an end sees them: both nodes live one life throughout. */
  function AsConn(dials: Dials, link: nat): Links.Conn
    requires link in dials
  {
    Links.Conn(link, dials[link], 0, "", false)
  }

  function Current(dials: Dials, s: State, end: End): Option<Links.Conn>
    requires s.registered.At(end).Some? ==> s.registered.At(end).value in dials
  {
    match s.registered.At(end)
    case None => None
    case Some(link) => Some(AsConn(dials, link))
  }

  ghost predicate WellFormed(dials: Dials, s: State) {
    && (forall e: End :: s.registered.At(e).Some? ==>
                           && s.registered.At(e).value in dials
                           && (e, s.registered.At(e).value) in s.readers
                           && (e, s.registered.At(e).value) !in s.undecided)
    && (forall p :: p in s.undecided + s.owed + s.readers ==> p.1 in dials)
  }

  ghost predicate Init(dials: Dials, s: State) {
    && s.registered == Ends(None, None)
    && s.undecided == (set e <- {Left, Right}, l <- dials.Keys :: (e, l))
    && s.owed == {} && s.shut == {} && s.readers == {}
  }

  ghost predicate Next(dials: Dials, s: State, step: Step, s': State) {
    && WellFormed(dials, s)
    && match step
       case Register(e, l) =>
         && (e, l) in s.undecided
         && var after := s.(undecided := s.undecided - {(e, l)});
            (match Links.Resolve(Current(dials, s, e), AsConn(dials, l))
             case Retire => false
             case Keep => s' == after.(owed := s.owed + {(e, l)})
             case Take =>
               s' == after.(registered := s.registered.With(e, Some(l)),
               readers := s.readers + {(e, l)},
               owed := if s.registered.At(e).Some? then s.owed + {(e, s.registered.At(e).value)} else s.owed))
       case Shut(e, l) =>
         && (e, l) in s.owed
         && s' == s.(owed := s.owed - {(e, l)}, shut := s.shut + {l})
       case Eof(e, l) =>
         && (e, l) in s.readers && l in s.shut
         && s' == s.(readers := s.readers - {(e, l)},
            registered := if s.registered.At(e) == Some(l) then s.registered.With(e, None) else s.registered)
  }

  /** Nothing is left to happen: every link decided, every shutdown done and noticed. */
  ghost predicate Quiet(s: State) {
    && s.undecided == {}
    && s.owed == {}
    && forall p :: p in s.readers ==> p.1 !in s.shut
  }

  ghost predicate IsRun(dials: Dials, run: seq<State>, steps: seq<Step>) {
    && |run| == |steps| + 1
    && Init(dials, run[0])
    && forall i :: 0 <= i < |steps| ==> Next(dials, run[i], steps[i], run[i + 1])
  }

  ghost predicate Reachable(dials: Dials, s: State) {
    exists run, steps :: IsRun(dials, run, steps) && run[|steps|] == s
  }

  // ----- every run keeps the states well formed, and ends ---------------------------

  lemma InitWellFormed(dials: Dials, s: State)
    requires Init(dials, s)
    ensures WellFormed(dials, s)
  {}

  lemma NextWellFormed(dials: Dials, s: State, step: Step, s': State)
    requires Next(dials, s, step, s')
    ensures WellFormed(dials, s')
  {}

  lemma {:induction false} RunWellFormed(dials: Dials, run: seq<State>, steps: seq<Step>, i: nat)
    requires IsRun(dials, run, steps) && i < |run|
    ensures WellFormed(dials, run[i])
  {
    if i == 0 {
      InitWellFormed(dials, run[0]);
    } else {
      RunWellFormed(dials, run, steps, i - 1);
      NextWellFormed(dials, run[i - 1], steps[i - 1], run[i]);
    }
  }

  /** Work left: an undecided link can still cost a shutdown and an EOF. */
  ghost function Work(s: State): nat {
    3 * |s.undecided| + |s.owed| + |s.readers|
  }

  lemma AddCount<T>(s: set<T>, x: T)
    ensures |s + {x}| <= |s| + 1
  {
    assert s + {x} == s || |s + {x}| == |s| + 1;
  }

  /** Every step uses up work, so a run is no longer than the work it starts with. */
  lemma StepsUseUpWork(dials: Dials, s: State, step: Step, s': State)
    requires Next(dials, s, step, s')
    ensures Work(s') < Work(s)
  {
    match step
    case Register(e, l) =>
      assert |s'.undecided| == |s.undecided| - 1;
      AddCount(s.owed, (e, l));
      AddCount(s.readers, (e, l));
      if s.registered.At(e).Some? {
        AddCount(s.owed, (e, s.registered.At(e).value));
      }
    case Shut(e, l) =>
      assert |s'.owed| == |s.owed| - 1;
    case Eof(e, l) =>
      assert |s'.readers| == |s.readers| - 1;
  }

  /** A run that has not gone quiet can go on: no schedule gets stuck half way. */
  lemma BusyCanStep(dials: Dials, s: State)
    requires WellFormed(dials, s) && !Quiet(s)
    ensures exists step, s' :: Next(dials, s, step, s')
  {
    if s.undecided != {} {
      var p :| p in s.undecided;
      var after := s.(undecided := s.undecided - {p});
      var verdict := Links.Resolve(Current(dials, s, p.0), AsConn(dials, p.1));
      var s' := if verdict.Keep? then after.(owed := s.owed + {p}) else
        after.(registered := s.registered.With(p.0, Some(p.1)),
        readers := s.readers + {p},
        owed := if s.registered.At(p.0).Some? then s.owed + {(p.0, s.registered.At(p.0).value)} else s.owed);
      assert Next(dials, s, Register(p.0, p.1), s');
    } else if s.owed != {} {
      var p :| p in s.owed;
      assert Next(dials, s, Shut(p.0, p.1), s.(owed := s.owed - {p}, shut := s.shut + {p.1}));
    } else {
      var p :| p in s.readers && p.1 in s.shut;
      assert Next(dials, s, Eof(p.0, p.1), s.(readers := s.readers - {p},
      registered := if s.registered.At(p.0) == Some(p.1) then s.registered.With(p.0, None) else s.registered));
    }
  }

  // ----- one link with the smallest connector: it survives, alone --------------------

  /** `link` is the only one of the dials whose connector sorts first. */
  ghost predicate Smallest(dials: Dials, link: nat) {
    && link in dials
    && forall l :: l in dials && l != link ==> Before(dials[link], dials[l])
  }

  ghost predicate Safe(dials: Dials, link: nat, s: State) {
    && WellFormed(dials, s)
    // no end shuts the link, or ever owes it a shutdown
    && link !in s.shut
    && (forall e: End :: (e, link) !in s.owed)
    // where it was registered, it is registered
    && (forall e: End :: (e, link) !in s.undecided ==> s.registered.At(e) == Some(link))
    // and every other link decided at such an end is on its way out
    && (forall e: End, l :: l in dials && l != link && (e, link) !in s.undecided && (e, l) !in s.undecided ==>
                              (e, l) in s.owed || l in s.shut)
    && (forall e: End, l :: (e, l) in s.readers ==> (e, l) !in s.undecided)
    && (forall e: End, l :: l in dials && (e, l) !in s.undecided && (e, l) !in s.owed && l !in s.shut ==>
                              s.registered.At(e) == Some(l))
  }

  lemma InitSafe(dials: Dials, link: nat, s: State)
    requires Init(dials, s) && Smallest(dials, link)
    ensures Safe(dials, link, s)
  {
    InitWellFormed(dials, s);
    forall e: End, l | l in dials ensures (e, l) in s.undecided {
      match e case Left => case Right =>
    }
  }

  lemma NextSafe(dials: Dials, link: nat, s: State, step: Step, s': State)
    requires Smallest(dials, link) && Safe(dials, link, s) && Next(dials, s, step, s')
    ensures Safe(dials, link, s')
  {
    NextWellFormed(dials, s, step, s');
    if step.Register? {
      var e, l := step.end, step.link;
      if s.registered.At(e).Some? {
        BeforeAsymmetric(dials[l], dials[s.registered.At(e).value]);
        BeforeIrreflexive(dials[link]);
      }
    }
  }

  lemma {:induction false} RunSafe(dials: Dials, link: nat, run: seq<State>, steps: seq<Step>, i: nat)
    requires IsRun(dials, run, steps) && i < |run| && Smallest(dials, link)
    ensures Safe(dials, link, run[i])
  {
    if i == 0 {
      InitSafe(dials, link, run[0]);
    } else {
      RunSafe(dials, link, run, steps, i - 1);
      NextSafe(dials, link, run[i - 1], steps[i - 1], run[i]);
    }
  }

  /** Both ends have exactly `link`: registered, read, open; every other link shut and unread. */
  ghost predicate SettledOn(dials: Dials, link: nat, s: State) {
    && s.registered == Ends(Some(link), Some(link))
    && s.readers == {(Left, link), (Right, link)}
    && s.shut == dials.Keys - {link}
  }

  /**
   When one dial has the smallest connector, then whatever else was dialed, in whatever
   order the two ends register, and however late the losers are shut and noticed: no
   state of any run has that link shut, and a quiet state has both ends on it alone.
   */
  lemma SmallestSurvives(dials: Dials, link: nat, s: State)
    requires Smallest(dials, link) && Reachable(dials, s)
    ensures link !in s.shut
    ensures Quiet(s) ==> SettledOn(dials, link, s)
  {
    var run, steps :| IsRun(dials, run, steps) && run[|steps|] == s;
    RunSafe(dials, link, run, steps, |steps|);
    RunShutKnown(dials, run, steps, |steps|);
    if Quiet(s) {
      forall p | p in s.readers ensures p in {(Left, link), (Right, link)} {
        match p.0 case Left => case Right =>
      }
      assert (Left, link) !in s.undecided && (Right, link) !in s.undecided;
      forall l | l in dials && l != link ensures l in s.shut {
        assert (Left, l) !in s.undecided;
      }
    }
  }

  lemma {:induction false} RunShutKnown(dials: Dials, run: seq<State>, steps: seq<Step>, i: nat)
    requires IsRun(dials, run, steps) && i < |run|
    ensures run[i].shut <= dials.Keys
  {
    if i > 0 {
      RunShutKnown(dials, run, steps, i - 1);
    }
  }

  // ----- two links with the smallest connector: some run loses every link ------------

  /** `first` and `second` are two dials of one node, and no dial sorts before them. */
  ghost predicate Tied(dials: Dials, first: nat, second: nat) {
    && first in dials && second in dials && first != second
    && dials[first] == dials[second]
    && forall l :: l in dials ==> !Before(dials[l], dials[first])
  }

  /** The left end took `first`, the right end `second`, and nothing has been shut yet. */
  ghost predicate Split(dials: Dials, first: nat, second: nat, s: State) {
    && WellFormed(dials, s)
    && s.registered == Ends(Some(first), Some(second))
    && s.readers == {(Left, first), (Right, second)}
    && s.shut == {}
    && ((Right, first) in s.undecided || (Right, first) in s.owed)
    && ((Left, second) in s.undecided || (Left, second) in s.owed)
  }

  /** Every link is decided, and each end's only link is shut or about to be by the other. */
  ghost predicate Doomed(dials: Dials, first: nat, second: nat, s: State) {
    && WellFormed(dials, s)
    && s.undecided == {}
    && s.registered.At(Left) in {Some(first), None}
    && s.registered.At(Right) in {Some(second), None}
    && (first in s.shut || (Right, first) in s.owed)
    && (second in s.shut || (Left, second) in s.owed)
  }

  lemma ReachableStep(dials: Dials, s: State, step: Step, s': State)
    requires Reachable(dials, s) && Next(dials, s, step, s')
    ensures Reachable(dials, s')
  {
    var run, steps :| IsRun(dials, run, steps) && run[|steps|] == s;
    var run', steps' := run + [s'], steps + [step];
    forall i | 0 <= i < |steps'| ensures Next(dials, run'[i], steps'[i], run'[i + 1]) {
      if i < |steps| {
        assert Next(dials, run[i], steps[i], run[i + 1]);
      }
    }
    assert IsRun(dials, run', steps') && run'[|steps'|] == s';
  }

  lemma SplitReachable(dials: Dials, first: nat, second: nat) returns (s: State)
    requires Tied(dials, first, second)
    ensures Reachable(dials, s) && Split(dials, first, second, s)
  {
    var undecided := set e <- {Left, Right}, l <- dials.Keys :: (e, l);
    var s0 := State(Ends(None, None), undecided, {}, {}, {});
    assert Init(dials, s0);
    InitWellFormed(dials, s0);
    assert IsRun(dials, [s0], []) && [s0][0] == s0;
    assert (Left, first) in undecided && (Right, second) in undecided;
    var s1 := s0.(undecided := undecided - {(Left, first)},
    registered := s0.registered.With(Left, Some(first)), readers := {(Left, first)});
    assert Next(dials, s0, Register(Left, first), s1);
    ReachableStep(dials, s0, Register(Left, first), s1);
    NextWellFormed(dials, s0, Register(Left, first), s1);
    s := s1.(undecided := s1.undecided - {(Right, second)},
    registered := s1.registered.With(Right, Some(second)), readers := s1.readers + {(Right, second)});
    assert Next(dials, s1, Register(Right, second), s);
    ReachableStep(dials, s1, Register(Right, second), s);
    NextWellFormed(dials, s1, Register(Right, second), s);
  }

  /** From a split, each end can decide every remaining link, and turns each one away. */
  lemma {:induction false} DecideTheRest(dials: Dials, first: nat, second: nat, s: State) returns (s': State)
    requires Tied(dials, first, second) && Reachable(dials, s) && Split(dials, first, second, s)
    ensures Reachable(dials, s') && Doomed(dials, first, second, s')
    decreases |s.undecided|
  {
    if s.undecided == {} {
      return s;
    }
    var p :| p in s.undecided;
    var step := Register(p.0, p.1);
    var next := s.(undecided := s.undecided - {p}, owed := s.owed + {p});
    assert Next(dials, s, step, next);
    NextWellFormed(dials, s, step, next);
    ReachableStep(dials, s, step, next);
    s' := DecideTheRest(dials, first, second, next);
  }

  lemma DoomedStep(dials: Dials, first: nat, second: nat, s: State, step: Step, s': State)
    requires Doomed(dials, first, second, s) && Next(dials, s, step, s')
    ensures Doomed(dials, first, second, s')
  {
    NextWellFormed(dials, s, step, s');
  }

  /** However a doomed state goes on, it ends with no link at either end. */
  lemma {:induction false} DoomedEndsEmpty(dials: Dials, first: nat, second: nat, s: State) returns (s': State)
    requires Reachable(dials, s) && Doomed(dials, first, second, s)
    ensures Reachable(dials, s') && Quiet(s') && s'.registered.At(Left).None? && s'.registered.At(Right).None?
    decreases Work(s)
  {
    if Quiet(s) {
      return s;
    }
    BusyCanStep(dials, s);
    var step, next :| Next(dials, s, step, next);
    StepsUseUpWork(dials, s, step, next);
    DoomedStep(dials, first, second, s, step, next);
    ReachableStep(dials, s, step, next);
    s' := DoomedEndsEmpty(dials, first, second, next);
  }

  /**
   Two dials of the smaller-named node can kill each other: each end keeps the one it
   registered first and shuts the other's, and both nodes end with no link at all.
   */
  lemma TiedDialsCanLoseEveryLink(dials: Dials, first: nat, second: nat) returns (s: State)
    requires Tied(dials, first, second)
    ensures Reachable(dials, s) && Quiet(s) && s.registered.At(Left).None? && s.registered.At(Right).None?
  {
    var split := SplitReachable(dials, first, second);
    var doomed := DecideTheRest(dials, first, second, split);
    s := DoomedEndsEmpty(dials, first, second, doomed);
  }

  // ----- exactly when the two ends agree -----------------------------------------------

  /** Every run that goes quiet has both ends on one and the same link. */
  ghost predicate Converges(dials: Dials) {
    forall s :: Reachable(dials, s) && Quiet(s) ==>
                  s.registered.At(Left).Some? && s.registered.At(Left) == s.registered.At(Right)
  }

  lemma {:induction false} SomeSmallest(dials: Dials) returns (link: nat)
    requires dials != map[]
    ensures link in dials && forall l :: l in dials ==> !Before(dials[l], dials[link])
    decreases |dials|
  {
    var any :| any in dials;
    var rest := dials - {any};
    BeforeIrreflexive(dials[any]);
    if rest == map[] {
      assert forall l :: l in dials && l != any ==> l in rest;
      return any;
    }
    assert rest.Keys == dials.Keys - {any};
    assert |rest.Keys| < |dials.Keys|;
    var best := SomeSmallest(rest);
    if Before(dials[any], dials[best]) {
      link := any;
      forall l | l in dials ensures !Before(dials[l], dials[any]) {
        if l != any && Before(dials[l], dials[any]) {
          assert l in rest;
          BeforeTransitive(dials[l], dials[any], dials[best]);
        }
      }
    } else {
      link := best;
      forall l | l in dials ensures !Before(dials[l], dials[best]) {
        assert l == any || l in rest;
      }
    }
  }

  /**
   The two ends agree in every run if and only if exactly one of the links was dialed by
   the smallest-named connector. One dial each way always meets that; two dials by one node
   do not, which is why dials are claimed.
   */
  lemma ConvergesExactlyWhenOneSmallest(dials: Dials)
    requires dials != map[]
    ensures Converges(dials) <==> exists link :: Smallest(dials, link)
  {
    if link :| Smallest(dials, link) {
      forall s | Reachable(dials, s) && Quiet(s)
        ensures s.registered.At(Left).Some? && s.registered.At(Left) == s.registered.At(Right)
      {
        SmallestSurvives(dials, link, s);
      }
    } else {
      var first := SomeSmallest(dials);
      assert !Smallest(dials, first);
      var second :| second in dials && second != first && !Before(dials[first], dials[second]);
      BeforeTotal(dials[first], dials[second]);
      var s := TiedDialsCanLoseEveryLink(dials, first, second);
      assert !Converges(dials);
    }
  }

  /** Crossing dials: one each way between two nodes with different names. */
  lemma CrossingDialsConverge(mine: string, theirs: string, s: State)
    requires mine != theirs
    requires var dials: Dials := map[0 := mine, 1 := theirs]; Reachable(dials, s) && Quiet(s)
    ensures SettledOn(map[0 := mine, 1 := theirs], if Before(mine, theirs) then 0 else 1, s)
  {
    var dials: Dials := map[0 := mine, 1 := theirs];
    BeforeTotal(mine, theirs);
    SmallestSurvives(dials, if Before(mine, theirs) then 0 else 1, s);
  }
}
