/**
 What becomes of everything a link is given to send. A plain frame is written, and so is the last
 payload of each slot; of the others, each is written or replaced by a later one of its slot, and
 each send leaves one ticket in the queue, whose length never exceeds its bound.
 */
module LatestDelivery {
  import opened Wrappers
  import opened LatestQueue

  /** The payload of the call with this generation was put into its slot. */
  ghost predicate WasPut(s: State, insert: Insert) {
    insert in s.inserts
  }

  ghost predicate HasTicket(s: State, generation: nat) {
    exists q :: 0 <= q < |s.sent| && s.sent[q].Latest? && s.sent[q].generation == generation
  }

  /** Where a `send-latest` of this payload, under this generation, has got to. */
  ghost predicate Underway(s: State, slot: string, payload: Bytes, generation: nat) {
    generation < s.generations &&
    if generation in s.calls
    then s.calls[generation].slot == slot && s.calls[generation].payload == payload
         && (s.calls[generation].filled ==> WasPut(s, Insert(slot, generation, payload)))
    else WasPut(s, Insert(slot, generation, payload)) && HasTicket(s, generation)
  }

  /** Generations in use were minted; a call under way has no ticket queued and none is queued twice. */
  ghost predicate TicketsOnce(s: State) {
    && (forall g :: g in s.calls ==> g < s.generations)
    && (forall q :: 0 <= q < |s.sent| && s.sent[q].Latest? ==> s.sent[q].generation < s.generations && s.sent[q].generation !in s.calls)
    && (forall p, q :: 0 <= p < q < |s.sent| && s.sent[p].Latest? && s.sent[q].Latest? ==> s.sent[p].generation != s.sent[q].generation)
  }

  /** No call's payload is put into its slot twice. */
  ghost predicate PutOnce(s: State) {
    && (forall i :: 0 <= i < |s.inserts| ==> s.inserts[i].generation < s.generations)
    && (forall i :: 0 <= i < |s.inserts| && s.inserts[i].generation in s.calls ==> s.calls[s.inserts[i].generation].filled)
    && (forall i, j :: 0 <= i < j < |s.inserts| ==> s.inserts[i].generation != s.inserts[j].generation)
  }

  ghost predicate WithinCap(s: State) {
    s.taken <= |s.sent| <= s.taken + WRITER_QUEUE_CAP
  }

  lemma TicketsOnceKept(s: State, step: Step)
    requires TicketsOnce(s) && Enabled(s, step)
    ensures TicketsOnce(Apply(s, step))
  {}

  lemma PutOnceKept(s: State, step: Step)
    requires PutOnce(s) && TicketsOnce(s) && Enabled(s, step)
    ensures PutOnce(Apply(s, step))
  {}

  lemma WithinCapKept(s: State, step: Step)
    requires WithinCap(s) && Enabled(s, step)
    ensures WithinCap(Apply(s, step))
  {}

  lemma {:induction false} RunOnce(run: seq<State>, steps: seq<Step>, n: nat)
    requires IsRun(run, steps) && n < |run|
    ensures TicketsOnce(run[n]) && PutOnce(run[n]) && WithinCap(run[n])
  {
    if n > 0 {
      RunOnce(run, steps, n - 1);
      TicketsOnceKept(run[n - 1], steps[n - 1]);
      PutOnceKept(run[n - 1], steps[n - 1]);
      WithinCapKept(run[n - 1], steps[n - 1]);
    }
  }

  /** In every state the writer has at most as many items before it as the queue holds, and no ticket is queued twice. */
  lemma QueueIsBounded(run: seq<State>, steps: seq<Step>, n: nat)
    requires IsRun(run, steps) && n < |run|
    ensures run[n].taken <= |run[n].sent| <= run[n].taken + WRITER_QUEUE_CAP
    ensures forall p, q :: 0 <= p < q < |run[n].sent| && run[n].sent[p].Latest? && run[n].sent[q].Latest? ==>
                             run[n].sent[p].generation != run[n].sent[q].generation
  {
    RunOnce(run, steps, n);
  }

  /** Below the bound every sender can go on, and at the bound the writer can: nobody waits for ever. */
  lemma SomebodyCanGoOn(run: seq<State>, steps: seq<Step>, n: nat, payload: Bytes)
    requires IsRun(run, steps) && n < |run|
    ensures if |run[n].sent| - run[n].taken < WRITER_QUEUE_CAP
            then && Enabled(run[n], SendFrame(payload))
                 && forall g :: g in run[n].calls ==> Enabled(run[n], Fill(g)) || Enabled(run[n], SendTicket(g))
            else Enabled(run[n], Take)
    ensures run[n].taken < |run[n].sent| ==> Enabled(run[n], Take)
  {
    RunOnce(run, steps, n);
  }

  lemma UnderwayKept(s: State, step: Step, s': State, slot: string, payload: Bytes, generation: nat)
    requires Enabled(s, step) && s' == Apply(s, step) && TicketsOnce(s)
    requires Underway(s, slot, payload, generation)
    ensures Underway(s', slot, payload, generation)
  {
    if step == SendTicket(generation) {
      assert s'.sent[|s.sent|].generation == generation;
    } else if HasTicket(s, generation) {
      var q :| 0 <= q < |s.sent| && s.sent[q].Latest? && s.sent[q].generation == generation;
      assert s'.sent[q] == s.sent[q];
    }
    if step == Fill(generation) {
      assert s'.inserts[|s.inserts|] == Insert(slot, generation, payload);
    } else if WasPut(s, Insert(slot, generation, payload)) {
      assert s.inserts <= s'.inserts;
    }
  }

  lemma BeginIsUnderway(s: State, step: Step, s': State)
    requires step.Begin? && s' == Apply(s, step)
    ensures Underway(s', step.slot, step.payload, s.generations)
  {}

  /** A step of a run, after which the call under way still is. */
  lemma UnderwayInRun(run: seq<State>, steps: seq<Step>, n: nat, slot: string, payload: Bytes, generation: nat)
    requires IsRun(run, steps) && 0 < n < |run|
    ensures Underway(run[n - 1], slot, payload, generation) ==> Underway(run[n], slot, payload, generation)
  {
    RunOnce(run, steps, n - 1);
    if Underway(run[n - 1], slot, payload, generation) {
      UnderwayKept(run[n - 1], steps[n - 1], run[n], slot, payload, generation);
    }
  }

  lemma {:induction false} SendIsUnderway(
    run: seq<State>, steps: seq<Step>, i: nat, n: nat, slot: string, payload: Bytes, generation: nat)
    requires IsRun(run, steps) && i < n < |run|
    requires steps[i] == Begin(slot, payload) && run[i].generations == generation
    ensures Underway(run[n], slot, payload, generation)
    decreases n
  {
    if n == i + 1 {
      BeginIsUnderway(run[i], steps[i], run[n]);
    } else {
      SendIsUnderway(run, steps, i, n - 1, slot, payload, generation);
      UnderwayInRun(run, steps, n, slot, payload, generation);
    }
  }

  /**
   Once no send is under way and the queue is drained, the payload of every `send-latest` was put into its slot
   once, and there it was written, or replaced by a later one.
   */
  lemma LatestIsWrittenOrReplaced(run: seq<State>, steps: seq<Step>, i: nat, n: nat)
    requires IsRun(run, steps) && i < n < |run| && steps[i].Begin?
    requires run[n].calls == map[] && run[n].taken == |run[n].sent|
    ensures exists k :: 0 <= k < |run[n].inserts|
                        && run[n].inserts[k] == Insert(steps[i].slot, run[i].generations, steps[i].payload)
                        && ((exists later :: k < later < |run[n].inserts| && run[n].inserts[later].slot == steps[i].slot)
                            || (exists o :: 0 <= o < |run[n].output| && run[n].output[o].insert == Some(k)
                                            && run[n].output[o].payload == steps[i].payload))
  {
    SendIsUnderway(run, steps, i, n, steps[i].slot, steps[i].payload, run[i].generations);
    var insert := Insert(steps[i].slot, run[i].generations, steps[i].payload);
    var k :| 0 <= k < |run[n].inserts| && run[n].inserts[k] == insert;
    if !exists later :: k < later < |run[n].inserts| && run[n].inserts[later].slot == steps[i].slot {
      LastOfEachSlotWritten(run, steps, n, k);
    }
  }

  /** No send puts its payload into its slot twice. */
  lemma OneInsertPerSend(run: seq<State>, steps: seq<Step>, n: nat, a: nat, b: nat)
    requires IsRun(run, steps) && n < |run| && a < |run[n].inserts| && b < |run[n].inserts|
    requires run[n].inserts[a].generation == run[n].inserts[b].generation
    ensures a == b
  {
    RunOnce(run, steps, n);
  }

  lemma {:induction false} SentStays(run: seq<State>, steps: seq<Step>, i: nat, n: nat)
    requires IsRun(run, steps) && i <= n < |run|
    ensures run[i].sent <= run[n].sent
    decreases n
  {
    if i < n {
      SentStays(run, steps, i, n - 1);
      assert run[n] == Apply(run[n - 1], steps[n - 1]);
    }
  }

  /** Every plain frame is written, in its place, once the writer has come to it. */
  lemma FramesAreWritten(run: seq<State>, steps: seq<Step>, i: nat, n: nat)
    requires IsRun(run, steps) && i < n < |run| && steps[i].SendFrame? && |run[i].sent| < run[n].taken
    ensures exists o :: 0 <= o < |run[n].output| && run[n].output[o] == Written(|run[i].sent|, steps[i].payload, None)
  {
    var p := |run[i].sent|;
    assert run[i + 1].sent == run[i].sent + [Frame(steps[i].payload)];
    SentStays(run, steps, i + 1, n);
    assert run[n].sent[p] == run[i + 1].sent[p];
    WrittenInQueueOrder(run, steps, n);
    assert Wrote(run[n], p);
    var o :| 0 <= o < |run[n].output| && run[n].output[o].position == p;
    assert OutputRight(run[n], run[n].output[o]);
  }
}
