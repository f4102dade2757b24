/**
 Who may dial whom. A peer's name is claimed before it is dialed, by a program's dial or by
 one that gossip started, and gossip that arrives while a program dials is held until the
 last such dial ends. Any number of threads do this at once, each step below being one
 critical section of one of them.
 */
module DialClaims {
  import opened Wrappers
  import opened NodeNames

  /** The longest a dial can take, in milliseconds: its connect, a handshake and its retry. */
  const DIAL_CEILING: nat := 1000 * (5 + 2 * 10)

  /** One gossiped peer. `stamp` numbers the entries in the order they were first looked at. */
  datatype Entry = Entry(name: string, addr: string, stamp: nat)

  /** Held gossip after more arrives: a later entry for a name replaces the earlier. */
  function Extend(held: map<string, Entry>, list: seq<Entry>): map<string, Entry>
    decreases |list|
  {
    if list == [] then held else Extend(held[list[0].name := list[0]], list[1..])
  }

  /** Not a peer to dial: ourselves, one that cannot be dialed, or one we are linked to. */
  predicate Skipped(me: string, connected: set<string>, e: Entry) {
    e.name == me || e.addr == "" || IsGuestName(e.name) || e.name in connected
  }

  /** The names a gossip list claims, in order: each peer once, and none already claimed. */
  function Claims(me: string, connected: set<string>, pending: set<string>, list: seq<Entry>): seq<string>
    decreases |list|
  {
    if list == [] then []
    else if Skipped(me, connected, list[0]) || list[0].name in pending
    then Claims(me, connected, pending, list[1..])
    else [list[0].name] + Claims(me, connected, pending + {list[0].name}, list[1..])
  }

  lemma ClaimsUnfold(me: string, connected: set<string>, pending: set<string>, list: seq<Entry>, i: nat)
    requires i < |list|
    ensures Claims(me, connected, pending, list[i..]) ==
            if Skipped(me, connected, list[i]) || list[i].name in pending
            then Claims(me, connected, pending, list[i + 1..])
            else [list[i].name] + Claims(me, connected, pending + {list[i].name}, list[i + 1..])
  {
    assert list[i..][1..] == list[i + 1..];
  }

  function AsSet(names: seq<string>): set<string> {
    set n | n in names
  }

  ghost predicate Distinct(names: seq<string>) {
    forall i, j :: 0 <= i < j < |names| ==> names[i] != names[j]
  }

  /** The claims are exactly the list's own dialable names, each once. */
  lemma {:induction false} ClaimsAreUnskipped(me: string, connected: set<string>, pending: set<string>, list: seq<Entry>)
    decreases |list|
    ensures Distinct(Claims(me, connected, pending, list))
    ensures forall n :: n in Claims(me, connected, pending, list) <==>
                        n !in pending && exists i :: 0 <= i < |list| && list[i].name == n && !Skipped(me, connected, list[i])
  {
    if list != [] {
      var head := list[0];
      var taken := !Skipped(me, connected, head) && head.name !in pending;
      var pending' := if taken then pending + {head.name} else pending;
      var rest := Claims(me, connected, pending', list[1..]);
      ClaimsAreUnskipped(me, connected, pending', list[1..]);
      forall n
        ensures n in Claims(me, connected, pending, list) <==>
                n !in pending && exists i :: 0 <= i < |list| && list[i].name == n && !Skipped(me, connected, list[i])
      {
        if n !in pending && exists i :: 0 <= i < |list| && list[i].name == n && !Skipped(me, connected, list[i]) {
          var i :| 0 <= i < |list| && list[i].name == n && !Skipped(me, connected, list[i]);
          if i > 0 {
            assert list[1..][i - 1] == list[i];
          }
        }
      }
      assert forall j :: 0 <= j < |rest| ==> rest[j] in rest;
    }
  }

  /**
   A list claims each name once, and a name if and only if it is another node's and no guest's, has
   no link and no claim, and the list has an address for it.
   */
  lemma ClaimsAreNew(me: string, connected: set<string>, pending: set<string>, list: seq<Entry>)
    ensures Distinct(Claims(me, connected, pending, list))
    ensures forall n :: n in Claims(me, connected, pending, list) <==>
                        && n != me && !(GUEST_PREFIX <= n) && n !in connected && n !in pending
                        && exists e :: e in list && e.name == n && e.addr != ""
  {
    ClaimsAreUnskipped(me, connected, pending, list);
    forall n | n != me && !(GUEST_PREFIX <= n) && n !in connected && n !in pending && exists e :: e in list && e.name == n && e.addr != ""
      ensures exists i :: 0 <= i < |list| && list[i].name == n && !Skipped(me, connected, list[i])
    {
      var e :| e in list && e.name == n && e.addr != "";
      var i :| 0 <= i < |list| && list[i] == e;
      assert !Skipped(me, connected, list[i]);
    }
  }

  // ----- the shared tables, changed in place ---------------------------------------------

  class DialTables {
    var pending: set<string>
    var underWay: nat
    var held: map<string, Entry>

    constructor ()
      ensures pending == {} && underWay == 0 && held == map[]
    {
      pending, underWay, held := {}, 0, map[];
    }

    /** A program's dial begins. */
    method Begin()
      modifies this`underWay
      ensures underWay == old(underWay) + 1
    {
      underWay := underWay + 1;
    }

    /** A program's dial ends; the last one takes the held gossip away with it. */
    method End() returns (drained: set<Entry>)
      requires underWay > 0
      modifies this`underWay, this`held
      ensures underWay == old(underWay) - 1
      ensures underWay == 0 ==> drained == old(held).Values && held == map[]
      ensures underWay > 0 ==> drained == {} && held == old(held)
    {
      underWay := underWay - 1;
      if underWay == 0 {
        drained := held.Values;
        held := map[];
      } else {
        drained := {};
      }
    }

    /** Claim `peer`, unless it is claimed. */
    method TryClaim(peer: string) returns (claimed: bool)
      modifies this`pending
      ensures claimed <==> peer !in old(pending)
      ensures pending == old(pending) + {peer}
    {
      claimed := peer !in pending;
      pending := pending + {peer};
    }

    /** Hold `list` back if a program is dialing, else say that it may be considered. */
    method HoldBack(list: seq<Entry>) returns (isHeld: bool)
      modifies this`held
      ensures isHeld <==> underWay > 0
      ensures held == if isHeld then Extend(old(held), list) else old(held)
    {
      isHeld := underWay > 0;
      if isHeld {
        for i := 0 to |list|
          invariant Extend(held, list[i..]) == Extend(old(held), list)
        {
          assert list[i..][1..] == list[i + 1..];
          held := held[list[i].name := list[i]];
        }
        assert list[|list|..] == [];
      }
    }

    /** Claim the dialable, unclaimed names of `list`. */
    method ClaimGossip(me: string, connected: set<string>, list: seq<Entry>) returns (toDial: seq<string>)
      modifies this`pending
      ensures toDial == Claims(me, connected, old(pending), list)
      ensures pending == old(pending) + AsSet(toDial)
    {
      toDial := [];
      for i := 0 to |list|
        invariant toDial + Claims(me, connected, pending, list[i..]) == Claims(me, connected, old(pending), list)
        invariant pending == old(pending) + AsSet(toDial)
      {
        ClaimsUnfold(me, connected, pending, list, i);
        if !(Skipped(me, connected, list[i]) || list[i].name in pending) {
          var name := list[i].name;
          ghost var rest := Claims(me, connected, pending + {name}, list[i + 1..]);
          assert toDial + ([name] + rest) == (toDial + [name]) + rest;
          assert AsSet(toDial + [name]) == AsSet(toDial) + {name};
          pending := pending + {name};
          toDial := toDial + [name];
        }
      }
      assert list[|list|..] == [];
    }
  }

  // ----- any interleaving of dials and gossip ------------------------------------------------

  /** Where a thread is. */
  datatype Pc =
    // a program's dial: counted, and waiting for the claim; dialing, with it or past the wait; done
    | Waiting(peer: string, since: nat)
    | Dialing(peer: string, since: nat, owns: bool)
    | Ending
    // gossip: a drained list about to be looked at again; a list past the check; its claims to start
    | Drained(list: seq<Entry>)
    | Checked(list: seq<Entry>)
    | Starting(todo: seq<string>)
    | GossipDial(peer: string)

  /** The held gossip, and the history of what arrived. */
  datatype Gossip = Gossip(
    held: map<string, Entry>,
    arrived: seq<Entry>)        // every entry, by stamp

  datatype State = State(
    me: string,
    pending: set<string>,
    underWay: nat,
    threads: map<nat, Pc>,
    clock: nat,
    gossip: Gossip)

  datatype Step =
    | Tick
    | Begin(thread: nat, peer: string)
    | Claim(thread: nat)
    | GiveUpWaiting(thread: nat)
    | Dialed(thread: nat)
    | End(thread: nat, order: seq<Entry>)
    | Receive(thread: nat, peers: seq<(string, string)>)
    | Reconsider(thread: nat)
    | ClaimList(thread: nat, connected: set<string>)
    | Start(thread: nat, dialer: nat, spawned: bool)
    | GossipDialed(thread: nat)

  /** A frame's entries, stamped. */
  function Stamped(peers: seq<(string, string)>, from: nat): (list: seq<Entry>)
    ensures |list| == |peers|
    ensures forall i :: 0 <= i < |list| ==> list[i] == Entry(peers[i].0, peers[i].1, from + i)
  {
    seq(|peers|, i requires 0 <= i < |peers| => Entry(peers[i].0, peers[i].1, from + i))
  }

  /** Draining hands out each held entry once, in some order. */
  ghost predicate Drains(held: map<string, Entry>, order: seq<Entry>) {
    && (forall i :: 0 <= i < |order| ==> order[i].name in held && held[order[i].name] == order[i])
    && (forall n :: n in held ==> held[n] in order)
    && (forall i, j :: 0 <= i < j < |order| ==> order[i].name != order[j].name)
  }

  ghost predicate Enabled(s: State, step: Step) {
    match step
    case Tick => true
    case Begin(t, _) => t !in s.threads
    case Claim(t) => t in s.threads && s.threads[t].Waiting? && s.threads[t].peer !in s.pending
    // the deadline is looked at after a failed claim, and the name may have been let go in between
    case GiveUpWaiting(t) =>
      t in s.threads && s.threads[t].Waiting? && s.threads[t].since + DIAL_CEILING <= s.clock
    case Dialed(t) => t in s.threads && s.threads[t].Dialing?
    case End(t, order) => t in s.threads && s.threads[t].Ending? && s.underWay > 0 && Drains(s.gossip.held, order)
    case Receive(t, _) => t !in s.threads
    case Reconsider(t) => t in s.threads && s.threads[t].Drained?
    case ClaimList(t, _) => t in s.threads && s.threads[t].Checked?
    case Start(t, u, _) => t in s.threads && s.threads[t].Starting? && u !in s.threads && s.threads[t].todo != []
    case GossipDialed(t) => t in s.threads && s.threads[t].GossipDial?
  }

  ghost function Apply(s: State, step: Step): State
    requires Enabled(s, step)
  {
    match step
    case Tick => s.(clock := s.clock + 1)
    case Begin(t, peer) =>
      s.(underWay := s.underWay + 1, threads := s.threads[t := Waiting(peer, s.clock)])
    case Claim(t) =>
      var peer := s.threads[t].peer;
      s.(pending := s.pending + {peer}, threads := s.threads[t := Dialing(peer, s.threads[t].since, true)])
    case GiveUpWaiting(t) =>
      s.(threads := s.threads[t := Dialing(s.threads[t].peer, s.threads[t].since, false)])
    case Dialed(t) =>
      s.(pending := if s.threads[t].owns then s.pending - {s.threads[t].peer} else s.pending,
      threads := s.threads[t := Ending])
    case End(t, order) =>
      if s.underWay == 1
      then s.(underWay := 0, gossip := s.gossip.(held := map[]), threads := s.threads[t := Drained(order)])
      else s.(underWay := s.underWay - 1, threads := s.threads - {t})
    case Receive(t, peers) =>
      var list := Stamped(peers, |s.gossip.arrived|);
      var arrived := s.gossip.arrived + list;
      if s.underWay > 0 then s.(gossip := Gossip(Extend(s.gossip.held, list), arrived))
      else s.(gossip := Gossip(s.gossip.held, arrived), threads := s.threads[t := Checked(list)])
    case Reconsider(t) =>
      var list := s.threads[t].list;
      if s.underWay > 0 then s.(gossip := Gossip(Extend(s.gossip.held, list), s.gossip.arrived), threads := s.threads - {t})
      else s.(threads := s.threads[t := Checked(list)])
    case ClaimList(t, connected) =>
      var list := s.threads[t].list;
      var todo := Claims(s.me, connected, s.pending, list);
      s.(pending := s.pending + AsSet(todo), threads := s.threads[t := Starting(todo)])
    case Start(t, u, spawned) =>
      var todo := s.threads[t].todo;
      if spawned
      then s.(threads := s.threads[t := Starting(todo[1..])][u := GossipDial(todo[0])])
      else s.(threads := s.threads[t := Starting(todo[1..])], pending := s.pending - {todo[0]})
    case GossipDialed(t) => s.(pending := s.pending - {s.threads[t].peer}, threads := s.threads - {t})
  }

  ghost predicate Init(s: State) {
    && s.pending == {} && s.underWay == 0 && s.threads == map[]
    && s.gossip == Gossip(map[], [])
  }

  ghost predicate IsRun(run: seq<State>, steps: seq<Step>) {
    && |run| == |steps| + 1
    && Init(run[0])
    && forall i :: 0 <= i < |steps| ==> Enabled(run[i], steps[i]) && run[i + 1] == Apply(run[i], steps[i])
  }

  // ----- one owner per claimed name ------------------------------------------------------------

  /** The thread is answerable for the claim on `name`. */
  ghost predicate Owns(pc: Pc, name: string) {
    || (pc.Dialing? && pc.owns && pc.peer == name)
    || (pc.Starting? && name in pc.todo)
    || (pc.GossipDial? && pc.peer == name)
  }

  ghost predicate OwnsAt(s: State, t: nat, name: string) {
    t in s.threads && Owns(s.threads[t], name)
  }

  ghost predicate HasOwner(s: State, name: string) {
    exists t :: OwnsAt(s, t, name)
  }

  /** The claims are the owners' claims, each the claim of one owner. */
  ghost predicate OneOwner(s: State) {
    && (forall n :: n in s.pending <==> HasOwner(s, n))
    && (forall t, u, n :: OwnsAt(s, t, n) && OwnsAt(s, u, n) ==> t == u)
    && (forall t :: t in s.threads && s.threads[t].Starting? ==> Distinct(s.threads[t].todo))
  }

  /** What a step does to the claims: `gained` and `lost` are its own, the rest stay with their owners. */
  ghost predicate Gained(s: State, step: Step, t: nat, n: string)
    requires Enabled(s, step)
  {
    OwnsAt(Apply(s, step), t, n) && !OwnsAt(s, t, n)
  }

  lemma GainsAreFree(s: State, step: Step, t: nat, n: string)
    requires OneOwner(s) && Enabled(s, step) && Gained(s, step, t, n)
    ensures n !in s.pending ||
            (step.Start? && t == step.dialer && n == s.threads[step.thread].todo[0] && OwnsAt(s, step.thread, n))
    ensures n in Apply(s, step).pending
  {
    if step.ClaimList? {
      ClaimsAreUnskipped(s.me, step.connected, s.pending, s.threads[step.thread].list);
    } else if step.Start? {
      assert OwnsAt(s, step.thread, n);
      assert HasOwner(s, n);
    }
  }

  /** An owner keeps its claim, or the claim ends, or passes to the dialer it starts. */
  lemma OwnersKeep(s: State, step: Step, t: nat, n: string)
    requires OneOwner(s) && Enabled(s, step) && OwnsAt(s, t, n)
    ensures n in Apply(s, step).pending ==> HasOwner(Apply(s, step), n)
    ensures n !in Apply(s, step).pending ==> !OwnsAt(Apply(s, step), t, n)
    ensures step.Start? && t == step.thread && n == s.threads[t].todo[0] ==> !OwnsAt(Apply(s, step), t, n)
  {
    var s' := Apply(s, step);
    assert HasOwner(s, n);
    if step.Start? && step.thread == t {
      var todo := s.threads[t].todo;
      assert todo == [todo[0]] + todo[1..];
      assert todo[0] !in todo[1..];
      if step.spawned && n == todo[0] {
        assert OwnsAt(s', step.dialer, n);
      }
    }
    if n !in s'.pending {
      assert OwnsAt(s, step.thread, n);
    } else if OwnsAt(s', t, n) {
      assert HasOwner(s', n);
    }
  }

  lemma ClaimsMatchOwners(s: State, step: Step, n: string)
    requires OneOwner(s) && Enabled(s, step)
    ensures n in Apply(s, step).pending <==> HasOwner(Apply(s, step), n)
  {
    var s' := Apply(s, step);
    if HasOwner(s', n) {
      var t :| OwnsAt(s', t, n);
      if OwnsAt(s, t, n) {
        OwnersKeep(s, step, t, n);
      } else {
        GainsAreFree(s, step, t, n);
      }
    } else if n in s.pending {
      assert HasOwner(s, n);
      var t :| OwnsAt(s, t, n);
      OwnersKeep(s, step, t, n);
    } else if n in s'.pending {
      assert OwnsAt(s', step.thread, n);
    }
  }

  lemma OwnersStayUnique(s: State, step: Step, t: nat, u: nat, n: string)
    requires OneOwner(s) && Enabled(s, step)
    requires OwnsAt(Apply(s, step), t, n) && OwnsAt(Apply(s, step), u, n)
    ensures t == u
  {
    if OwnsAt(s, t, n) && !OwnsAt(s, u, n) {
      GainsAreFree(s, step, u, n);
      OwnersKeep(s, step, t, n);
      assert HasOwner(s, n);
    } else if OwnsAt(s, u, n) && !OwnsAt(s, t, n) {
      GainsAreFree(s, step, t, n);
      OwnersKeep(s, step, u, n);
      assert HasOwner(s, n);
    } else if !OwnsAt(s, t, n) {
      GainsAreFree(s, step, t, n);
      GainsAreFree(s, step, u, n);
    }
  }

  lemma TodosStayDistinct(s: State, step: Step)
    requires OneOwner(s) && Enabled(s, step)
    ensures forall t :: t in Apply(s, step).threads && Apply(s, step).threads[t].Starting? ==>
                          Distinct(Apply(s, step).threads[t].todo)
  {
    if step.ClaimList? {
      ClaimsAreUnskipped(s.me, step.connected, s.pending, s.threads[step.thread].list);
    }
  }

  lemma OneOwnerKept(s: State, step: Step)
    requires OneOwner(s) && Enabled(s, step)
    ensures OneOwner(Apply(s, step))
  {
    forall n ensures n in Apply(s, step).pending <==> HasOwner(Apply(s, step), n) {
      ClaimsMatchOwners(s, step, n);
    }
    forall t, u, n | OwnsAt(Apply(s, step), t, n) && OwnsAt(Apply(s, step), u, n) ensures t == u {
      OwnersStayUnique(s, step, t, u, n);
    }
    TodosStayDistinct(s, step);
  }

  /** A dial without the claim waited out the ceiling for it. */
  ghost predicate Patient(s: State) {
    forall t :: t in s.threads && s.threads[t].Dialing? && !s.threads[t].owns ==>
                  s.threads[t].since + DIAL_CEILING <= s.clock
  }

  lemma PatientKept(s: State, step: Step)
    requires Patient(s) && Enabled(s, step)
    ensures Patient(Apply(s, step))
  {}

  // ----- gossip is held while a program dials -----------------------------------------------------

  ghost predicate IsProgram(pc: Pc) {
    pc.Waiting? || pc.Dialing? || pc.Ending?
  }

  ghost function Programs(threads: map<nat, Pc>): set<nat> {
    set t | t in threads && IsProgram(threads[t])
  }

  /** The count of program dials is right, and nothing is held without one. */
  ghost predicate Counted(s: State) {
    && s.underWay == |Programs(s.threads)|
    && (s.underWay == 0 ==> s.gossip.held == map[])
  }

  lemma CountPut(threads: map<nat, Pc>, t: nat, pc: Pc)
    ensures |Programs(threads[t := pc])| == |Programs(threads) - {t}| + if IsProgram(pc) then 1 else 0
    ensures |Programs(threads)| == |Programs(threads) - {t}| + if t in threads && IsProgram(threads[t]) then 1 else 0
  {
    var rest := Programs(threads) - {t};
    assert Programs(threads[t := pc]) == if IsProgram(pc) then rest + {t} else rest;
    assert Programs(threads) == if t in threads && IsProgram(threads[t]) then rest + {t} else rest;
  }

  lemma CountDrop(threads: map<nat, Pc>, t: nat)
    ensures |Programs(threads - {t})| == |Programs(threads) - {t}|
  {
    assert Programs(threads - {t}) == Programs(threads) - {t};
  }

  ghost function ProgramAt(s: State, t: nat): nat {
    if t in s.threads && IsProgram(s.threads[t]) then 1 else 0
  }

  /** What a step does to its own thread, and to the count on that account. */
  lemma OwnThread(s: State, step: Step)
    requires Enabled(s, step) && !step.Tick? && !step.Start?
    ensures var s', t := Apply(s, step), step.thread;
            && s'.threads == (if t in s'.threads then s.threads[t := s'.threads[t]] else s.threads - {t})
            && s'.underWay + ProgramAt(s, t) == s.underWay + ProgramAt(s', t)
  {}

  lemma ProgramsCounted(s: State, step: Step)
    requires s.underWay == |Programs(s.threads)| && Enabled(s, step) && !step.Tick? && !step.Start?
    ensures Apply(s, step).underWay == |Programs(Apply(s, step).threads)|
  {
    var threads, t := Apply(s, step).threads, step.thread;
    OwnThread(s, step);
    if t in threads {
      CountPut(s.threads, t, threads[t]);
    } else {
      CountPut(s.threads, t, Ending);
      CountDrop(s.threads, t);
    }
  }

  lemma StartCounted(s: State, step: Step)
    requires s.underWay == |Programs(s.threads)| && Enabled(s, step) && step.Start?
    ensures Apply(s, step).underWay == |Programs(Apply(s, step).threads)|
  {
    var t, todo := step.thread, s.threads[step.thread].todo;
    CountPut(s.threads, t, Starting(todo[1..]));
    CountPut(s.threads[t := Starting(todo[1..])], step.dialer, GossipDial(todo[0]));
  }

  lemma CountedKept(s: State, step: Step)
    requires Counted(s) && Enabled(s, step)
    ensures Counted(Apply(s, step))
  {
    if step.Start? {
      StartCounted(s, step);
    } else if !step.Tick? {
      ProgramsCounted(s, step);
    }
  }

  // ----- no gossip is lost ----------------------------------------------------------------------------

  /** The thread still has entry `e` to look at. */
  ghost predicate Carries(pc: Pc, e: Entry) {
    (pc.Drained? || pc.Checked?) && e in pc.list
  }

  ghost predicate IsHeld(held: map<string, Entry>, e: Entry) {
    e.name in held && held[e.name] == e
  }

  ghost predicate InFlight(s: State, e: Entry) {
    IsHeld(s.gossip.held, e) || exists t :: t in s.threads && Carries(s.threads[t], e)
  }

  ghost predicate IsArrived(g: Gossip, e: Entry) {
    e.stamp < |g.arrived| && g.arrived[e.stamp] == e
  }

  /** Stamps are positions, and what is held arrived and is held under its name. */
  ghost predicate HeldRight(g: Gossip) {
    && (forall k :: 0 <= k < |g.arrived| ==> g.arrived[k].stamp == k)
    && (forall n :: n in g.held ==> IsArrived(g, g.held[n]) && g.held[n].name == n)
  }

  ghost predicate CarriedRight(s: State) {
    forall t, e :: t in s.threads && Carries(s.threads[t], e) ==> IsArrived(s.gossip, e)
  }

  lemma {:induction false} ExtendRight(g: Gossip, list: seq<Entry>)
    requires HeldRight(g) && forall e :: e in list ==> IsArrived(g, e)
    ensures HeldRight(Gossip(Extend(g.held, list), g.arrived))
    decreases |list|
  {
    if list != [] {
      assert list[0] in list && (forall e :: e in list[1..] ==> e in list);
      ExtendRight(Gossip(g.held[list[0].name := list[0]], g.arrived), list[1..]);
    }
  }

  lemma ArriveRight(g: Gossip, list: seq<Entry>)
    requires HeldRight(g)
    requires forall i :: 0 <= i < |list| ==> list[i].stamp == |g.arrived| + i
    ensures HeldRight(Gossip(g.held, g.arrived + list))
    ensures forall e :: e in list ==> IsArrived(Gossip(g.held, g.arrived + list), e)
    ensures forall e :: IsArrived(g, e) ==> IsArrived(Gossip(g.held, g.arrived + list), e)
  {}

  lemma HeldRightKept(s: State, step: Step)
    requires HeldRight(s.gossip) && CarriedRight(s) && Enabled(s, step)
    ensures HeldRight(Apply(s, step).gossip)
  {
    if step.Receive? {
      var list := Stamped(step.peers, |s.gossip.arrived|);
      ArriveRight(s.gossip, list);
      ExtendRight(Gossip(s.gossip.held, s.gossip.arrived + list), list);
    } else if step.Reconsider? {
      assert forall e :: e in s.threads[step.thread].list ==> Carries(s.threads[step.thread], e);
      ExtendRight(s.gossip, s.threads[step.thread].list);
    }
  }

  lemma CarriedRightKept(s: State, step: Step)
    requires HeldRight(s.gossip) && CarriedRight(s) && Enabled(s, step)
    ensures CarriedRight(Apply(s, step))
  {
    var s' := Apply(s, step);
    if step.Receive? {
      ArriveRight(s.gossip, Stamped(step.peers, |s.gossip.arrived|));
    }
    forall t, e | t in s'.threads && Carries(s'.threads[t], e) ensures IsArrived(s'.gossip, e) {
      if t in s.threads && Carries(s.threads[t], e) {
        assert IsArrived(s.gossip, e);
      }
    }
  }

  /** The list a step puts over the held gossip; nothing for a step that holds none. */
  function Holding(s: State, step: Step): seq<Entry> {
    if step.Receive? && s.underWay > 0 then Stamped(step.peers, |s.gossip.arrived|)
    else if step.Reconsider? && s.underWay > 0 && step.thread in s.threads && s.threads[step.thread].Drained?
    then s.threads[step.thread].list
    else []
  }

  lemma HoldingIsHeld(s: State, step: Step)
    requires Enabled(s, step) && !(step.End? && s.underWay == 1)
    ensures Apply(s, step).gossip.held == Extend(s.gossip.held, Holding(s, step))
  {}

  /** Who stands for `d` after `list` is put over `held`: an entry that is overwritten is stood for by the one over it. */
  function StandIn(held: map<string, Entry>, list: seq<Entry>, d: Entry): Entry
    decreases |list|
  {
    if list == [] then d
    else
      var e := list[0];
      StandIn(held[e.name := e], list[1..], if d.name == e.name && e.name in held && held[e.name] == d then e else d)
  }

  /** Who stands for the `k`th entry in state `i`: itself, until the held entry that stands for it is overwritten. */
  ghost function StandsFor(run: seq<State>, steps: seq<Step>, i: nat, k: nat): Entry
    requires i < |run| == |steps| + 1 && k < |run[i].gossip.arrived|
  {
    if i == 0 then run[i].gossip.arrived[k]
    else
      var before := if k < |run[i - 1].gossip.arrived| then StandsFor(run, steps, i - 1, k) else run[i].gossip.arrived[k];
      StandIn(run[i - 1].gossip.held, Holding(run[i - 1], steps[i - 1]), before)
  }

  lemma {:induction false} StandInHasTheName(held: map<string, Entry>, list: seq<Entry>, d: Entry)
    ensures StandIn(held, list, d).name == d.name
    decreases |list|
  {
    if list != [] {
      var e := list[0];
      StandInHasTheName(held[e.name := e], list[1..], if d.name == e.name && e.name in held && held[e.name] == d then e else d);
    }
  }

  /** Whoever stands for a held entry, or for one that is being put there, is held afterwards. */
  lemma {:induction false} StandInIsHeld(held: map<string, Entry>, list: seq<Entry>, d: Entry)
    requires IsHeld(held, d) || d in list
    ensures IsHeld(Extend(held, list), StandIn(held, list, d))
    decreases |list|
  {
    if list != [] {
      var e := list[0];
      var d' := if d.name == e.name && e.name in held && held[e.name] == d then e else d;
      assert list == [e] + list[1..];
      StandInIsHeld(held[e.name := e], list[1..], d');
    }
  }

  /** An entry that is neither held nor put there stands for itself. */
  lemma {:induction false} StandInIsItself(held: map<string, Entry>, list: seq<Entry>, d: Entry)
    requires !IsHeld(held, d) && d !in list
    ensures StandIn(held, list, d) == d
    decreases |list|
  {
    if list != [] {
      assert list[0] in list && (forall e :: e in list[1..] ==> e in list);
      StandInIsItself(held[list[0].name := list[0]], list[1..], d);
    }
  }

  /** The step takes up a list with `e` in it, and claims or skips it. */
  ghost predicate TakesUp(s: State, step: Step, e: Entry) {
    step.ClaimList? && step.thread in s.threads && s.threads[step.thread].Checked? && e in s.threads[step.thread].list
  }

  /** Who stood for entry `k` at the time was taken up in one of the first `i` steps, after `k` had arrived. */
  ghost predicate HadItsTurn(run: seq<State>, steps: seq<Step>, i: nat, k: nat)
    requires |run| == |steps| + 1 && i <= |steps|
  {
    exists t :: 0 <= t < i && k < |run[t].gossip.arrived| && TakesUp(run[t], steps[t], StandsFor(run, steps, t, k))
  }

  /** What is in flight stays so, through whoever stands for it, unless it is taken up. */
  lemma FlightKept(s: State, step: Step, d: Entry)
    requires Enabled(s, step) && InFlight(s, d) && !TakesUp(s, step, d)
    ensures InFlight(Apply(s, step), StandIn(s.gossip.held, Holding(s, step), d))
  {
    var s', list := Apply(s, step), Holding(s, step);
    if step.End? && s.underWay == 1 {
      if IsHeld(s.gossip.held, d) {
        assert Carries(s'.threads[step.thread], d);
      } else {
        CarriedOn(s, step, d);
      }
    } else if IsHeld(s.gossip.held, d) || d in list {
      HoldingIsHeld(s, step);
      StandInIsHeld(s.gossip.held, list, d);
    } else {
      StandInIsItself(s.gossip.held, list, d);
      CarriedOn(s, step, d);
    }
  }

  lemma CarriedOn(s: State, step: Step, d: Entry)
    requires Enabled(s, step) && !TakesUp(s, step, d) && d !in Holding(s, step)
    requires exists t :: t in s.threads && Carries(s.threads[t], d)
    ensures exists t :: t in Apply(s, step).threads && Carries(Apply(s, step).threads[t], d)
  {
    var t :| t in s.threads && Carries(s.threads[t], d);
    assert t in Apply(s, step).threads && Carries(Apply(s, step).threads[t], d);
  }

  lemma ArrivalInFlight(s: State, step: Step, k: nat)
    requires Enabled(s, step) && |s.gossip.arrived| <= k < |Apply(s, step).gossip.arrived|
    ensures InFlight(Apply(s, step), StandIn(s.gossip.held, Holding(s, step), Apply(s, step).gossip.arrived[k]))
  {
    var s' := Apply(s, step);
    var list := Stamped(step.peers, |s.gossip.arrived|);
    var e := s'.gossip.arrived[k];
    assert e == list[k - |s.gossip.arrived|] && e in list;
    if s.underWay > 0 {
      StandInIsHeld(s.gossip.held, list, e);
    } else {
      assert Carries(s'.threads[step.thread], e);
    }
  }

  /** Every entry that arrived had its turn, or whoever stands for it is still to be looked at. */
  lemma {:induction false} TurnOrFlight(run: seq<State>, steps: seq<Step>, i: nat, k: nat)
    requires IsRun(run, steps) && i < |run| && k < |run[i].gossip.arrived|
    ensures HadItsTurn(run, steps, i, k) || InFlight(run[i], StandsFor(run, steps, i, k))
  {
    if i > 0 {
      var s, step := run[i - 1], steps[i - 1];
      if k >= |s.gossip.arrived| {
        ArrivalInFlight(s, step, k);
      } else {
        TurnOrFlight(run, steps, i - 1, k);
        if HadItsTurn(run, steps, i - 1, k) {
          var t :| 0 <= t < i - 1 && k < |run[t].gossip.arrived| && TakesUp(run[t], steps[t], StandsFor(run, steps, t, k));
          assert HadItsTurn(run, steps, i, k);
        } else if TakesUp(s, step, StandsFor(run, steps, i - 1, k)) {
          assert HadItsTurn(run, steps, i, k);
        } else {
          FlightKept(s, step, StandsFor(run, steps, i - 1, k));
        }
      }
    }
  }

  // ----- over whole runs --------------------------------------------------------------------------

  ghost predicate Inv(s: State) {
    && OneOwner(s) && Patient(s) && Counted(s)
    && HeldRight(s.gossip) && CarriedRight(s)
  }

  lemma {:induction false} RunInv(run: seq<State>, steps: seq<Step>, i: nat)
    requires IsRun(run, steps) && i < |run|
    ensures Inv(run[i])
  {
    if i > 0 {
      var s, step := run[i - 1], steps[i - 1];
      RunInv(run, steps, i - 1);
      OneOwnerKept(s, step);
      PatientKept(s, step);
      CountedKept(s, step);
      HeldRightKept(s, step);
      CarriedRightKept(s, step);
    }
  }

  /** In every state of every run a claimed name has exactly one owner, and an owner's name is claimed. */
  lemma EveryClaimHasOneOwner(run: seq<State>, steps: seq<Step>, i: nat, name: string)
    requires IsRun(run, steps) && i < |run|
    ensures name in run[i].pending <==> exists t :: OwnsAt(run[i], t, name)
    ensures forall t, u :: OwnsAt(run[i], t, name) && OwnsAt(run[i], u, name) ==> t == u
  {
    RunInv(run, steps, i);
    assert HasOwner(run[i], name) <==> exists t :: OwnsAt(run[i], t, name);
  }

  /** The thread dials `name` now. */
  ghost predicate Dials(pc: Pc, name: string) {
    (pc.Dialing? || pc.GossipDial?) && pc.peer == name
  }

  /** Two dials of one name overlap only when one of them waited out the ceiling for the claim. */
  lemma DialsOverlapOnlyPastTheCeiling(run: seq<State>, steps: seq<Step>, i: nat, t: nat, u: nat, name: string)
    requires IsRun(run, steps) && i < |run| && t != u
    requires t in run[i].threads && Dials(run[i].threads[t], name)
    requires u in run[i].threads && Dials(run[i].threads[u], name)
    ensures exists v :: v in {t, u} && run[i].threads[v].Dialing? && !run[i].threads[v].owns
                        && run[i].threads[v].since + DIAL_CEILING <= run[i].clock
  {
    RunInv(run, steps, i);
    assert !(OwnsAt(run[i], t, name) && OwnsAt(run[i], u, name));
    var v := if OwnsAt(run[i], t, name) then u else t;
    assert v in {t, u} && run[i].threads[v].Dialing? && !run[i].threads[v].owns;
  }

  /**
   Nothing gossiped is lost: once nothing is held and no list is being looked at, each entry
   that ever arrived was taken up after its arrival, or the entry that had by then come to
   stand for it was: one for the same name, put over the held entry that stood for it before.
   */
  lemma NoGossipLost(run: seq<State>, steps: seq<Step>, i: nat, k: nat)
    requires IsRun(run, steps) && i < |run| && k < |run[i].gossip.arrived|
    requires run[i].gossip.held == map[]
    requires forall t :: t in run[i].threads ==> !run[i].threads[t].Drained? && !run[i].threads[t].Checked?
    ensures HadItsTurn(run, steps, i, k)
  {
    TurnOrFlight(run, steps, i, k);
    assert !InFlight(run[i], StandsFor(run, steps, i, k));
  }

  /** Whoever stands for an entry is an entry for the same name. */
  lemma {:induction false} StandInsShareTheName(run: seq<State>, steps: seq<Step>, i: nat, k: nat)
    requires IsRun(run, steps) && i < |run| && k < |run[i].gossip.arrived|
    ensures StandsFor(run, steps, i, k).name == run[i].gossip.arrived[k].name
  {
    if i > 0 {
      assert Enabled(run[i - 1], steps[i - 1]) && run[i] == Apply(run[i - 1], steps[i - 1]);
      if k < |run[i - 1].gossip.arrived| {
        StandInsShareTheName(run, steps, i - 1, k);
      }
      var before := if k < |run[i - 1].gossip.arrived| then StandsFor(run, steps, i - 1, k) else run[i].gossip.arrived[k];
      StandInHasTheName(run[i - 1].gossip.held, Holding(run[i - 1], steps[i - 1]), before);
    }
  }

  /** Gossip is held back only while a program dials; when none does, nothing stays held. */
  lemma HeldOnlyWhileDialing(run: seq<State>, steps: seq<Step>, i: nat)
    requires IsRun(run, steps) && i < |run| && run[i].gossip.held != map[]
    ensures exists t :: t in run[i].threads && IsProgram(run[i].threads[t])
  {
    RunInv(run, steps, i);
    assert Programs(run[i].threads) != {};
    var t :| t in Programs(run[i].threads);
  }

  // ----- every dial and every list comes to its end ------------------------------------------------------

  /** How far a thread is from its end. */
  function Phase(pc: Pc): nat {
    match pc
    case Waiting(_, _) => 6
    case Dialing(_, _, _) => 5
    case Ending => 4
    case Drained(_) => 3
    case Checked(_) => 2
    case Starting(_) => 1
    case GossipDial(_) => 0
  }

  /** Each step of its own brings a thread to a later phase, or leaves it fewer dials to start. */
  lemma OwnStepsUseUpWork(s: State, step: Step)
    requires Enabled(s, step) && !step.Tick? && !step.Begin? && !step.Receive?
    ensures var s', t := Apply(s, step), step.thread;
            && t in s.threads
            && (t in s'.threads ==>
                  || Phase(s'.threads[t]) < Phase(s.threads[t])
                  || (s.threads[t].Starting? && s'.threads[t].Starting? && |s'.threads[t].todo| < |s.threads[t].todo|))
  {}

  lemma {:induction false} DrainOrder(held: map<string, Entry>) returns (order: seq<Entry>)
    requires forall n :: n in held ==> held[n].name == n
    ensures Drains(held, order)
    decreases |held|
  {
    if held == map[] {
      return [];
    }
    var n :| n in held;
    var rest := held - {n};
    assert rest.Keys == held.Keys - {n} && |rest.Keys| == |held.Keys| - 1;
    order := DrainOrder(rest);
    order := order + [held[n]];
    forall m | m in held ensures held[m] in order {
      assert m != n ==> m in rest && rest[m] in order;
    }
  }

  lemma {:induction false} FreshThread(threads: set<nat>) returns (t: nat)
    ensures t !in threads && forall u :: u in threads ==> u < t
    decreases threads
  {
    if threads == {} {
      return 0;
    }
    var u :| u in threads;
    t := FreshThread(threads - {u});
    if t <= u {
      t := u + 1;
    }
    assert forall v :: v in threads ==> v == u || v in threads - {u};
  }

  /**
   Nobody is stuck: a thread with anything left to do can do it now, but for a program's dial whose peer
   somebody else is dialing, and that one once it has waited out the ceiling.
   */
  lemma ThreadsGoOn(run: seq<State>, steps: seq<Step>, i: nat, t: nat)
    requires IsRun(run, steps) && i < |run| && t in run[i].threads
    requires run[i].threads[t].Starting? ==> run[i].threads[t].todo != []
    requires run[i].threads[t].Waiting? ==>
               run[i].threads[t].peer !in run[i].pending || run[i].threads[t].since + 25000 <= run[i].clock
    ensures exists step :: Enabled(run[i], step) && !step.Tick? && !step.Begin? && !step.Receive? && step.thread == t
  {
    var s := run[i];
    RunInv(run, steps, i);
    var order := DrainOrder(s.gossip.held);
    var u := FreshThread(s.threads.Keys);
    assert s.threads[t].Ending? ==> t in Programs(s.threads);
    var step := match s.threads[t]
      case Waiting(peer, _) => if peer !in s.pending then Claim(t) else GiveUpWaiting(t)
      case Dialing(_, _, _) => Dialed(t)
      case Ending => End(t, order)
      case Drained(_) => Reconsider(t)
      case Checked(_) => ClaimList(t, {})
      case Starting(_) => Start(t, u, true)
      case GossipDial(_) => GossipDialed(t);
    assert Enabled(s, step);
  }

  // ----- which gossip replaces which ----------------------------------------------------------------

  /** Some name is now held with an older entry than before. */
  ghost predicate HoldsOlder(before: map<string, Entry>, after: map<string, Entry>) {
    exists n :: n in before && n in after && after[n].stamp < before[n].stamp
  }

  /** Lists that were drained name each peer once. */
  ghost predicate DrainedOnce(s: State) {
    forall t :: t in s.threads && s.threads[t].Drained? ==> NamesOnce(s.threads[t].list)
  }

  ghost predicate NamesOnce(list: seq<Entry>) {
    forall i, j :: 0 <= i < j < |list| ==> list[i].name != list[j].name
  }

  lemma {:induction false} RunDrainedOnce(run: seq<State>, steps: seq<Step>, i: nat)
    requires IsRun(run, steps) && i < |run|
    ensures DrainedOnce(run[i])
  {
    if i > 0 {
      RunDrainedOnce(run, steps, i - 1);
    }
  }

  /** What a list leaves held for a name: its last entry for it, else what was held. */
  lemma {:induction false} ExtendAt(held: map<string, Entry>, list: seq<Entry>, n: string)
    ensures n in Extend(held, list) <==> n in held || exists e :: e in list && e.name == n
    ensures n in Extend(held, list) ==>
              (exists i :: 0 <= i < |list| && list[i].name == n && Extend(held, list)[n] == list[i])
              || (n in held && Extend(held, list)[n] == held[n] && forall e :: e in list ==> e.name != n)
    decreases |list|
  {
    if list != [] {
      var e, rest := list[0], list[1..];
      ExtendAt(held[e.name := e], rest, n);
      assert forall d :: d in list <==> d == e || d in rest;
      if i :| 0 <= i < |rest| && rest[i].name == n && Extend(held, list)[n] == rest[i] {
        assert list[i + 1] == rest[i];
      }
    }
  }

  /** Gossip that has just arrived replaces only what arrived before it. */
  lemma NewGossipReplacesOlder(run: seq<State>, steps: seq<Step>, i: nat)
    requires IsRun(run, steps) && i < |steps| && !steps[i].Reconsider?
    ensures !HoldsOlder(run[i].gossip.held, run[i + 1].gossip.held)
  {
    RunInv(run, steps, i);
    var s, s' := run[i], run[i + 1];
    if steps[i].Receive? && s.underWay > 0 {
      var list := Stamped(steps[i].peers, |s.gossip.arrived|);
      forall n | n in s.gossip.held && n in s'.gossip.held
        ensures s'.gossip.held[n].stamp >= s.gossip.held[n].stamp
      {
        ExtendAt(s.gossip.held, list, n);
      }
    }
  }

  /**
   Gossip that was drained and then held again, because another program's dial had begun
   meanwhile, replaces a newer entry exactly when one for the same name had come to be held.
   */
  lemma DrainedGossipReplacesNewer(run: seq<State>, steps: seq<Step>, i: nat)
    requires IsRun(run, steps) && i < |steps| && steps[i].Reconsider? && run[i].underWay > 0
    ensures var list := run[i].threads[steps[i].thread].list;
            HoldsOlder(run[i].gossip.held, run[i + 1].gossip.held) <==>
            exists e :: e in list && e.name in run[i].gossip.held && e.stamp < run[i].gossip.held[e.name].stamp
  {
    RunDrainedOnce(run, steps, i);
    var held, list := run[i].gossip.held, run[i].threads[steps[i].thread].list;
    assert run[i + 1].gossip.held == Extend(held, list);
    if n :| n in held && n in Extend(held, list) && Extend(held, list)[n].stamp < held[n].stamp {
      ExtendAt(held, list, n);
    }
    if e :| e in list && e.name in held && e.stamp < held[e.name].stamp {
      ExtendAt(held, list, e.name);
      assert Extend(held, list)[e.name] == e;
    }
  }

  lemma Advance(run: seq<State>, steps: seq<Step>, step: Step) returns (run': seq<State>, steps': seq<Step>)
    requires IsRun(run, steps) && Enabled(run[|steps|], step)
    ensures IsRun(run', steps') && run'[|steps'|] == Apply(run[|steps|], step)
    ensures |steps'| == |steps| + 1 && steps'[|steps|] == step && run'[|steps|] == run[|steps|]
  {
    run', steps' := run + [Apply(run[|steps|], step)], steps + [step];
    forall i | 0 <= i < |steps'|
      ensures Enabled(run'[i], steps'[i]) && run'[i + 1] == Apply(run'[i], steps'[i])
    {
      if i < |steps| {
        assert run'[i] == run[i] && run'[i + 1] == run[i + 1];
      }
    }
  }

  /** A program's dial of `a` is under way, and `n` was gossiped meanwhile. */
  lemma GossipHeld(me: string, a: string, n: string, addr: string) returns (run: seq<State>, steps: seq<Step>)
    ensures IsRun(run, steps)
    ensures var s := run[|steps|];
            && s.threads == map[1 := Waiting(a, 0)] && s.underWay == 1 && s.pending == {}
            && s.gossip.held == map[n := Entry(n, addr, 0)] && |s.gossip.arrived| == 1
  {
    var s0 := State(me, {}, 0, map[], 0, Gossip(map[], []));
    run, steps := Advance([s0], [], Begin(1, a));
    var list := Stamped([(n, addr)], 0);
    assert list == [Entry(n, addr, 0)] && list[1..] == [];
    assert Extend(map[], list) == map[n := Entry(n, addr, 0)];
    run, steps := Advance(run, steps, Receive(2, [(n, addr)]));
  }

  /** The dial has ended, and is about to look at the gossip it drained. */
  lemma OneDialEnded(me: string, a: string, n: string, addr: string) returns (run: seq<State>, steps: seq<Step>)
    ensures IsRun(run, steps)
    ensures var s := run[|steps|];
            && s.threads == map[1 := Drained([Entry(n, addr, 0)])] && s.underWay == 0
            && s.gossip.held == map[] && |s.gossip.arrived| == 1
  {
    run, steps := GossipHeld(me, a, n, addr);
    run, steps := Advance(run, steps, Claim(1));
    run, steps := Advance(run, steps, Dialed(1));
    assert run[|steps|].threads == map[1 := Ending];
    run, steps := Advance(run, steps, End(1, [Entry(n, addr, 0)]));
  }

  /** It happens: an address a peer had before replaces the one gossiped since. */
  lemma OlderAddressCanWin(me: string, a: string, n: string, before: string, since: string)
    returns (run: seq<State>, steps: seq<Step>)
    ensures IsRun(run, steps) && |steps| > 0
    ensures HoldsOlder(run[|steps| - 1].gossip.held, run[|steps|].gossip.held)
    ensures run[|steps|].gossip.held == map[n := Entry(n, before, 0)]
    ensures |run[|steps|].gossip.arrived| == 2 && run[|steps|].gossip.arrived[1] == Entry(n, since, 1)
  {
    run, steps := OneDialEnded(me, a, n, before);
    run, steps := Advance(run, steps, Begin(2, a));
    var list := Stamped([(n, since)], 1);
    assert list == [Entry(n, since, 1)] && list[1..] == [];
    run, steps := Advance(run, steps, Receive(3, [(n, since)]));
    assert Extend(map[], list) == map[n := Entry(n, since, 1)];
    var again := [Entry(n, before, 0)];
    assert again[1..] == [];
    assert run[|steps|].gossip.held == map[n := Entry(n, since, 1)];
    assert Extend(run[|steps|].gossip.held, again) == map[n := Entry(n, before, 0)];
    run, steps := Advance(run, steps, Reconsider(1));
    assert n in run[|steps| - 1].gossip.held && run[|steps| - 1].gossip.held[n].stamp == 1;
  }
}
