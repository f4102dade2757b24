/**
 The teardowns, sweeps and setups of a node come to an end. Each step by which a thread
 finishes what it has begun uses up work, and while a node that is gone is not quiet there is
 such a step; so once nothing new comes in, every node that is gone becomes quiet, and then
 every monitor of it has been told.
 */
module Cleanup {
  import opened Couplings
  import opened Causes
  import opened LeftOvers

  /** A step by which the node finishes something: no new dial, request, message or loss of a link. */
  predicate IsFinishing(step: Step) {
    || step.DoRegister? || step.DoNodedown? || step.SweepMonitors? || step.SweepLinks? || step.DoDeliverExit?
    || step.Route? || step.Enqueue? || step.Fallback?
  }

  /** A joining link can still take the table, be retired there, torn down and swept. */
  ghost function NetWork(n: Net): nat {
    5 * |n.joining| + 4 * |n.nodes| + 3 * |n.teardowns|
  }

  ghost function SweepWork(s: State): nat {
    2 * |s.monitorSweeps| + |s.linkSweeps|
  }

  /** A recorded setup has the link to find, the frame to queue, and maybe the fallback. */
  ghost function SetupWork(setups: map<nat, Setup>): nat {
    |setups.Keys| + |Unrefused(setups)| + |Unrouted(setups)|
  }

  ghost function Unrefused(setups: map<nat, Setup>): set<nat> {
    set t | t in setups && !setups[t].stage.Refused?
  }

  ghost function Unrouted(setups: map<nat, Setup>): set<nat> {
    set t | t in setups && setups[t].stage.Recorded?
  }

  ghost function LedgerWork(l: Ledger): nat {
    2 * |l.pending| + |l.claimed|
  }

  ghost function Work(s: State): nat {
    NetWork(s.net) + SweepWork(s) + SetupWork(s.setups) + LedgerWork(s.ledger)
  }

  lemma RemoveKey<K, V>(m: map<K, V>, k: K)
    requires k in m
    ensures |m - {k}| == |m| - 1
  {
    assert (m - {k}).Keys == m.Keys - {k};
    assert |(m - {k}).Keys| == |m - {k}| && |m.Keys| == |m|;
  }

  lemma PutKey<K, V>(m: map<K, V>, k: K, v: V)
    ensures |m[k := v]| == |m| + if k in m then 0 else 1
  {
    assert m[k := v].Keys == m.Keys + {k};
    assert |m[k := v].Keys| == |m[k := v]| && |m.Keys| == |m|;
  }

  lemma RegisterUsesUp(n: Net, id: nat)
    requires id in n.joining
    ensures NetWork(Register(n, id)) + (if Evicts(n, id) then 2 else 0) < NetWork(n)
  {
    var (peer, conn) := n.joining[id];
    RemoveKey(n.joining, id);
    PutKey(n.nodes, peer, conn);
    if peer in n.nodes {
      RemoveKey(n.nodes, peer);
    }
  }

  lemma ClaimUsesUp(l: Ledger, taken: set<Coupling>)
    requires taken <= l.pending
    ensures LedgerWork(Claim(l, taken)) <= LedgerWork(l)
  {
    var links := set c | c in taken && c.Link?;
    Subset(links, taken);
    assert |l.pending - taken| == |l.pending| - |taken|;
  }

  lemma Subset<T>(a: set<T>, b: set<T>)
    requires a <= b
    ensures |a| <= |b|
  {
    assert |b| == |a| + |b - a|;
  }

  lemma SetupGone(setups: map<nat, Setup>, t: nat)
    requires t in setups
    ensures SetupWork(setups - {t}) < SetupWork(setups)
  {
    var rest := setups - {t};
    assert rest.Keys == setups.Keys - {t};
    assert |rest.Keys| == |setups.Keys| - 1;
    Subset(Unrefused(rest), Unrefused(setups));
    Subset(Unrouted(rest), Unrouted(setups));
  }

  lemma Fewer<T>(a: set<T>, b: set<T>, x: T)
    requires a == b - {x} && x in b
    ensures |a| == |b| - 1
  {}

  lemma RecordedMoves(setups: map<nat, Setup>, t: nat, next: Setup)
    requires t in setups && setups[t].stage.Recorded? && !next.stage.Recorded?
    ensures SetupWork(setups[t := next]) < SetupWork(setups)
  {
    var after := setups[t := next];
    assert after.Keys == setups.Keys;
    Subset(Unrefused(after), Unrefused(setups));
    Fewer(Unrouted(after), Unrouted(setups), t);
  }

  lemma RoutedMoves(setups: map<nat, Setup>, t: nat, next: Setup)
    requires t in setups && setups[t].stage.Routed? && next.stage.Refused?
    ensures SetupWork(setups[t := next]) < SetupWork(setups)
  {
    var after := setups[t := next];
    assert after.Keys == setups.Keys;
    assert Unrouted(after) == Unrouted(setups);
    Fewer(Unrefused(after), Unrefused(setups), t);
  }

  lemma SweepUsesUp(s: State, step: Step)
    requires Enabled(s, step) && (step.SweepMonitors? || step.SweepLinks?)
    ensures Work(Apply(s, step)) < Work(s)
  {
    var s', peer := Apply(s, step), step.peer;
    assert s'.net == s.net && s'.setups == s.setups;
    if step.SweepMonitors? {
      ClaimUsesUp(s.ledger, MonitorsOf(s.ledger, peer));
      assert |s'.monitorSweeps| == |s.monitorSweeps| - 1;
    } else {
      ClaimUsesUp(s.ledger, LinksOf(s.ledger, peer));
      assert |s'.linkSweeps| == |s.linkSweeps| - 1;
    }
  }

  lemma SetupUsesUp(s: State, step: Step)
    requires Enabled(s, step) && (step.Route? || step.Enqueue? || step.Fallback?)
    ensures Work(Apply(s, step)) < Work(s)
  {
    var s', t := Apply(s, step), step.thread;
    assert s'.net == s.net && SweepWork(s') == SweepWork(s);
    if step.Fallback? {
      ClaimUsesUp(s.ledger, Only(s.ledger, s.setups[t].coupling));
      SetupGone(s.setups, t);
    } else if step.Enqueue? && step.accepted {
      SetupGone(s.setups, t);
    } else if step.Enqueue? {
      RoutedMoves(s.setups, t, s'.setups[t]);
    } else {
      RecordedMoves(s.setups, t, s'.setups[t]);
    }
  }

  lemma NetUsesUp(s: State, step: Step)
    requires Enabled(s, step) && (step.DoRegister? || step.DoNodedown? || step.DoDeliverExit?)
    ensures Work(Apply(s, step)) < Work(s)
  {
    var s' := Apply(s, step);
    assert s'.setups == s.setups;
    if step.DoRegister? {
      RegisterUsesUp(s.net, step.id);
    } else if step.DoNodedown? {
      assert |s'.net.teardowns| == |s.net.teardowns| - 1;
    } else {
      assert |s'.ledger.claimed| == |s.ledger.claimed| - 1;
    }
  }

  /** Every finishing step uses up work, so what is under way ends as soon as nothing new comes in. */
  lemma FinishingUsesUpWork(s: State, step: Step)
    requires Enabled(s, step) && IsFinishing(step)
    ensures Work(Apply(s, step)) < Work(s)
  {
    if step.SweepMonitors? || step.SweepLinks? {
      SweepUsesUp(s, step);
    } else if step.Route? || step.Enqueue? || step.Fallback? {
      SetupUsesUp(s, step);
    } else {
      NetUsesUp(s, step);
    }
  }

  /** A node that is gone and not yet quiet has a finishing step to take. */
  lemma UnquietCanFinish(s: State, peer: string)
    requires peer !in s.net.nodes && !QuietFor(s, peer)
    ensures exists step :: Enabled(s, step) && IsFinishing(step)
  {
    if peer in s.net.teardowns {
      assert Enabled(s, DoNodedown(peer)) && IsFinishing(DoNodedown(peer));
    } else if peer in s.monitorSweeps {
      assert Enabled(s, SweepMonitors(peer)) && IsFinishing(SweepMonitors(peer));
    } else if peer in s.linkSweeps {
      assert Enabled(s, SweepLinks(peer)) && IsFinishing(SweepLinks(peer));
    } else {
      var t :| t in s.setups && s.setups[t].coupling.node == peer;
      var step := match s.setups[t].stage
        case Recorded => Route(t)
        case Routed(_) => Enqueue(t, true)
        case Refused => Fallback(t);
      assert Enabled(s, step) && IsFinishing(step);
    }
  }

  /** However the threads are scheduled, no more finishing steps follow each other than there is work. */
  lemma {:induction false} FinishingEnds(run: seq<State>, steps: seq<Step>, i: nat, j: nat)
    requires IsRun(run, steps) && i <= j <= |steps| && forall k :: i <= k < j ==> IsFinishing(steps[k])
    ensures j - i + Work(run[j]) <= Work(run[i])
    decreases j
  {
    if i < j {
      FinishingEnds(run, steps, i, j - 1);
      FinishingUsesUpWork(run[j - 1], steps[j - 1]);
    }
  }

  /** No thread has anything left to finish. */
  ghost predicate Finished(s: State) {
    forall step :: IsFinishing(step) ==> !Enabled(s, step)
  }

  /** Then each recorded monitor of a node without a link was told of exactly once, or called off. */
  lemma FinishedIsTold(run: seq<State>, steps: seq<Step>, i: nat, c: Coupling)
    requires IsRun(run, steps) && i < |run| && c.Monitor?
    requires exists j :: 0 <= j < i && steps[j].DoRecord? && steps[j].coupling == c
    requires c.node !in run[i].net.nodes && Finished(run[i])
    ensures run[i].ledger.notices[c] == if WasCalledOff(run, steps, i, c) then 0 else 1
  {
    if !QuietFor(run[i], c.node) {
      UnquietCanFinish(run[i], c.node);
    }
    MonitorOfGoneNodeIsTold(run, steps, i, c);
  }

  /** And each process link was told of as often as it was made, but for cancels, and for an entry that was stranded. */
  lemma FinishedLinksAreTold(run: seq<State>, steps: seq<Step>, i: nat, c: Coupling)
    requires IsRun(run, steps) && i < |run| && c.Link?
    requires c.node !in run[i].net.nodes && Finished(run[i])
    ensures run[i].ledger.notices[c] + CalledOff(run, steps, i, c) + (if exists j: nat :: StrandedAt(run, steps, j, i, c) then 1 else 0)
            == Made(run, steps, i, c)
  {
    if !QuietFor(run[i], c.node) {
      UnquietCanFinish(run[i], c.node);
    }
    LeftOverExactlyWhenStranded(run, steps, i, c);
    LinkExitsAreEarned(run, steps, i, c);
    if run[i].ledger.claimed[c] > 0 {
      assert Enabled(run[i], DoDeliverExit(c)) && IsFinishing(DoDeliverExit(c));
    }
  }
}
