/**
 A link's writer queue with `send-latest` tickets. A plain frame queues its own payload; a
 latest frame puts its payload in its slot, replacing an unwritten one, and queues a ticket
 that is worth the payload only while it is still the slot's newest. Minting the ticket's
 generation, filling the slot and queueing the ticket are three steps of the sender, and
 other senders and the writer run in between; the link is never severed in these runs.
 */
module LatestQueue {
  import opened Wrappers

  type Bytes = seq<nat>

  datatype Outbound = Frame(payload: Bytes) | Latest(slot: string, generation: nat)

  type Slots = map<string, (nat, Bytes)>

  /** The most frames a link's queue holds; a sender that finds it full severs the link. */
  const WRITER_QUEUE_CAP := 4096

  /** The payload a queued item is worth, and the slots after it has been claimed. */
  function Claim(slots: Slots, item: Outbound): (Option<Bytes>, Slots) {
    match item
    case Frame(payload) => (Some(payload), slots)
    case Latest(slot, generation) =>
      if slot in slots && slots[slot].0 == generation
      then (Some(slots[slot].1), slots - {slot})
      else (None, slots)
  }

  /** One link's queue and slots, changed in place by its senders and its writer. */
  class LinkQueue {
    var queue: seq<Outbound>
    var slots: Slots
    var generations: nat
    // the writer thread has ended, and with it the receiving side of the queue
    var writerGone: bool
    var severed: bool

    constructor ()
      ensures queue == [] && slots == map[] && generations == 0 && !writerGone && !severed
    {
      queue, slots, generations, writerGone, severed := [], map[], 0, false, false;
    }

    /** Queue one item, or sever the link when the queue is full or its writer gone. */
    method TrySend(item: Outbound) returns (sent: bool)
      modifies this`queue, this`severed
      ensures sent <==> |old(queue)| < WRITER_QUEUE_CAP && !writerGone
      ensures queue == if sent then old(queue) + [item] else old(queue)
      ensures severed == (old(severed) || !sent)
    {
      sent := |queue| < WRITER_QUEUE_CAP && !writerGone;
      if sent {
        queue := queue + [item];
      } else {
        severed := true;
      }
    }

    method EnqueueLatest(slot: string, payload: Bytes) returns (sent: bool)
      modifies this`queue, this`slots, this`generations, this`severed
      ensures slots == old(slots)[slot := (old(generations), payload)]
      ensures generations == old(generations) + 1
      ensures sent <==> |old(queue)| < WRITER_QUEUE_CAP && !writerGone
      ensures queue == if sent then old(queue) + [Latest(slot, old(generations))] else old(queue)
      ensures severed == (old(severed) || !sent)
    {
      var generation := generations;
      generations := generations + 1;
      slots := slots[slot := (generation, payload)];
      sent := TrySend(Latest(slot, generation));
    }

    method ClaimOutbound(item: Outbound) returns (payload: Option<Bytes>)
      modifies this`slots
      ensures (payload, slots) == Claim(old(slots), item)
    {
      match item
      case Frame(bytes) => payload := Some(bytes);
      case Latest(slot, generation) =>
        if slot in slots && slots[slot].0 == generation {
          payload := Some(slots[slot].1);
          slots := slots - {slot};
        } else {
          payload := None;
        }
    }
  }

  // ----- any interleaving of senders and the writer ---------------------------------------

  /** A `send-latest` under way: its generation is minted; `filled` once its payload is in the slot. */
  datatype Call = Call(slot: string, payload: Bytes, filled: bool)

  /** A payload put into a slot. */
  datatype Insert = Insert(slot: string, generation: nat, payload: Bytes)

  /** A payload written: the queue position it was claimed at, and the insertion it is, if any. */
  datatype Written = Written(position: nat, payload: Bytes, insert: Option<nat>)

  datatype State = State(
    sent: seq<Outbound>,         // everything ever queued, in order
    taken: nat,                  // how much of it the writer has taken off
    slots: Slots,
    generations: nat,
    calls: map<nat, Call>,       // by generation
    inserts: seq<Insert>,        // history
    newest: map<string, nat>,    // history: each slot's last insertion
    output: seq<Written>)        // history: what the writer wrote, in order

  datatype Step =
    | SendFrame(payload: Bytes)
    | Begin(slot: string, payload: Bytes)
    | Fill(generation: nat)
    | SendTicket(generation: nat)
    | Take

  ghost predicate Init(s: State) {
    s == State([], 0, map[], 0, map[], [], map[], [])
  }

  predicate Enabled(s: State, step: Step) {
    match step
    case SendFrame(_) => s.taken <= |s.sent| < s.taken + WRITER_QUEUE_CAP
    case Begin(_, _) => true
    case Fill(g) => g in s.calls && !s.calls[g].filled
    case SendTicket(g) => g in s.calls && s.calls[g].filled && |s.sent| < s.taken + WRITER_QUEUE_CAP
    case Take => s.taken < |s.sent|
  }

  function Apply(s: State, step: Step): State
    requires Enabled(s, step)
  {
    match step
    case SendFrame(payload) => s.(sent := s.sent + [Frame(payload)])
    case Begin(slot, payload) =>
      s.(generations := s.generations + 1, calls := s.calls[s.generations := Call(slot, payload, false)])
    case Fill(g) =>
      var call := s.calls[g];
      s.(calls := s.calls[g := call.(filled := true)],
      slots := s.slots[call.slot := (g, call.payload)],
      newest := s.newest[call.slot := |s.inserts|],
      inserts := s.inserts + [Insert(call.slot, g, call.payload)])
    case SendTicket(g) =>
      s.(calls := s.calls - {g}, sent := s.sent + [Latest(s.calls[g].slot, g)])
    case Take =>
      var item := s.sent[s.taken];
      var (payload, slots) := Claim(s.slots, item);
      var s' := s.(taken := s.taken + 1, slots := slots);
      if payload.None? then s'
      else
        var insert := if item.Latest? && item.slot in s.newest then Some(s.newest[item.slot]) else None;
        s'.(output := s.output + [Written(s.taken, payload.value, insert)])
  }

  ghost predicate IsRun(run: seq<State>, steps: seq<Step>) {
    && |run| == |steps| + 1
    && Init(run[0])
    && forall i :: 0 <= i < |steps| ==> Enabled(run[i], steps[i]) && run[i + 1] == Apply(run[i], steps[i])
  }

  // ----- the invariant ------------------------------------------------------------------------

  /** `newest` is what it says: the last insertion into each slot that had one. */
  ghost predicate NewestRight(s: State) {
    && (forall k :: k in s.newest ==> s.newest[k] < |s.inserts| && s.inserts[s.newest[k]].slot == k)
    && (forall i :: 0 <= i < |s.inserts| ==> s.inserts[i].slot in s.newest && i <= s.newest[s.inserts[i].slot])
  }

  /** A filled slot holds its last insertion, and its ticket is queued or about to be. */
  ghost predicate SlotRight(s: State, k: string)
    requires k in s.slots
  {
    && k in s.newest && s.newest[k] < |s.inserts|
    && s.inserts[s.newest[k]] == Insert(k, s.slots[k].0, s.slots[k].1)
    && (TicketQueued(s, k, s.slots[k].0) || TicketDue(s, k, s.slots[k].0))
  }

  ghost predicate SlotsRight(s: State) {
    forall k :: k in s.slots ==> SlotRight(s, k)
  }

  ghost predicate TicketQueued(s: State, slot: string, generation: nat) {
    exists i :: s.taken <= i < |s.sent| && s.sent[i] == Latest(slot, generation)
  }

  ghost predicate TicketDue(s: State, slot: string, generation: nat) {
    generation in s.calls && s.calls[generation].filled && s.calls[generation].slot == slot
  }

  /** Each output is a taken item's payload: a frame's own, or the insertion its ticket is for. */
  ghost predicate OutputRight(s: State, o: Written) {
    && o.position < s.taken <= |s.sent|
    && (match s.sent[o.position]
        case Frame(payload) => o.insert.None? && o.payload == payload
        case Latest(slot, generation) =>
          && o.insert.Some? && o.insert.value < |s.inserts|
          && s.inserts[o.insert.value] == Insert(slot, generation, o.payload))
  }

  /** The slot of a latest output. */
  ghost predicate ForSlot(s: State, o: Written, slot: string) {
    o.insert.Some? && o.insert.value < |s.inserts| && s.inserts[o.insert.value].slot == slot
  }

  ghost predicate OutputsRight(s: State) {
    && (forall i :: 0 <= i < |s.output| ==> OutputRight(s, s.output[i]))
    // the writer works through the queue in order
    && (forall i, j :: 0 <= i < j < |s.output| ==> s.output[i].position < s.output[j].position)
    // and through each slot's insertions in order
    && (forall i, j, k :: 0 <= i < j < |s.output| && ForSlot(s, s.output[i], k) && ForSlot(s, s.output[j], k) ==>
                            s.output[i].insert.value < s.output[j].insert.value)
  }

  ghost predicate FramesWritten(s: State) {
    forall p :: 0 <= p < s.taken <= |s.sent| && s.sent[p].Frame? ==> Wrote(s, p)
  }

  ghost predicate Wrote(s: State, position: nat) {
    exists i :: 0 <= i < |s.output| && s.output[i].position == position
  }

  /** A filled slot's last insertion is unwritten; an empty one's has been written. */
  ghost predicate LastsRight(s: State) {
    && (forall k, i :: k in s.slots && k in s.newest && 0 <= i < |s.output| && ForSlot(s, s.output[i], k) ==>
                         s.output[i].insert.value < s.newest[k])
    && (forall k :: k in s.newest && k !in s.slots ==> WroteInsert(s, s.newest[k]))
  }

  ghost predicate WroteInsert(s: State, insert: nat) {
    exists i :: 0 <= i < |s.output| && s.output[i].insert == Some(insert)
  }

  ghost predicate Inv(s: State) {
    && s.taken <= |s.sent|
    && NewestRight(s) && SlotsRight(s) && OutputsRight(s) && FramesWritten(s) && LastsRight(s)
    && (forall g :: g in s.calls ==> g < s.generations)
  }

  lemma NewestKept(s: State, step: Step)
    requires NewestRight(s) && Enabled(s, step)
    ensures NewestRight(Apply(s, step))
  {}

  /** A queued ticket stays queued until the writer reaches it. */
  lemma TicketStays(s: State, step: Step, slot: string, generation: nat)
    requires Enabled(s, step) && TicketQueued(s, slot, generation)
    requires step.Take? ==> s.sent[s.taken] != Latest(slot, generation)
    ensures TicketQueued(Apply(s, step), slot, generation)
  {
    var i :| s.taken <= i < |s.sent| && s.sent[i] == Latest(slot, generation);
    assert Apply(s, step).sent[i] == Latest(slot, generation);
  }

  lemma SlotKept(s: State, step: Step, k: string)
    requires Enabled(s, step) && k in Apply(s, step).slots
    requires k in s.slots ==> SlotRight(s, k)
    requires s.generations !in s.calls && s.taken <= |s.sent|
    ensures SlotRight(Apply(s, step), k)
  {
    var s' := Apply(s, step);
    if k in s.slots && s.slots[k] == s'.slots[k] {
      var g := s.slots[k].0;
      if TicketQueued(s, k, g) && !(step.Take? && s.sent[s.taken] == Latest(k, g)) {
        TicketStays(s, step, k, g);
      } else if step == SendTicket(g) {
        assert s'.sent[|s.sent|] == Latest(k, g);
      }
    }
  }

  lemma SlotsKept(s: State, step: Step)
    requires SlotsRight(s) && s.generations !in s.calls && s.taken <= |s.sent| && Enabled(s, step)
    ensures SlotsRight(Apply(s, step))
  {
    forall k | k in Apply(s, step).slots ensures SlotRight(Apply(s, step), k) {
      SlotKept(s, step, k);
    }
  }

  /** What was right about an output stays right as histories grow. */
  lemma OutputStays(s: State, step: Step, o: Written)
    requires Enabled(s, step) && OutputRight(s, o)
    ensures OutputRight(Apply(s, step), o)
    ensures forall k :: ForSlot(Apply(s, step), o, k) <==> ForSlot(s, o, k)
  {}

  /** What the writer writes next: at the next position, and the newest of its slot. */
  lemma NextOutput(s: State)
    requires s.taken <= |s.sent| && SlotsRight(s)
    requires Enabled(s, Take) && |Apply(s, Take).output| > |s.output|
    ensures var s' := Apply(s, Take);
            var o := s'.output[|s.output|];
            && s'.output == s.output + [o]
            && OutputRight(s', o)
            && o.position == s.taken
            && (o.insert.Some? ==> s.sent[s.taken].Latest?
                                   && s.sent[s.taken].slot in s.slots
                                   && o.insert.value == s.newest[s.sent[s.taken].slot])
  {}

  /** The newest of a filled slot comes after everything written of that slot. */
  lemma NextOutputLast(s: State, i: nat, k: string)
    requires s.taken <= |s.sent| && SlotsRight(s) && OutputsRight(s) && LastsRight(s)
    requires Enabled(s, Take) && i < |s.output| < |Apply(s, Take).output|
    requires ForSlot(s, s.output[i], k) && ForSlot(Apply(s, Take), Apply(s, Take).output[|s.output|], k)
    ensures s.output[i].insert.value < Apply(s, Take).output[|s.output|].insert.value
  {
    NextOutput(s);
  }

  lemma OutputsKept(s: State, step: Step)
    requires s.taken <= |s.sent| && SlotsRight(s) && OutputsRight(s) && LastsRight(s) && Enabled(s, step)
    ensures OutputsRight(Apply(s, step))
  {
    var s' := Apply(s, step);
    forall i | 0 <= i < |s.output|
      ensures OutputRight(s', s'.output[i])
      ensures forall k :: ForSlot(s', s.output[i], k) <==> ForSlot(s, s.output[i], k)
    {
      OutputStays(s, step, s.output[i]);
    }
    if |s'.output| > |s.output| {
      NextOutput(s);
      var o := s'.output[|s.output|];
      forall i, k | 0 <= i < |s.output| && ForSlot(s', s'.output[i], k) && ForSlot(s', o, k)
        ensures s'.output[i].insert.value < o.insert.value
      {
        NextOutputLast(s, i, k);
      }
    }
  }

  lemma FramesKept(s: State, step: Step)
    requires s.taken <= |s.sent| && FramesWritten(s) && Enabled(s, step)
    ensures FramesWritten(Apply(s, step))
  {
    var s' := Apply(s, step);
    forall p | 0 <= p < s'.taken && s'.sent[p].Frame? ensures Wrote(s', p) {
      if p < s.taken {
        assert Wrote(s, p);
        var i :| 0 <= i < |s.output| && s.output[i].position == p;
        assert s'.output[i].position == p;
      } else {
        assert s'.output[|s.output|].position == p;
      }
    }
  }

  lemma InsertStaysWritten(s: State, step: Step, insert: nat)
    requires Enabled(s, step) && WroteInsert(s, insert)
    ensures WroteInsert(Apply(s, step), insert)
  {
    var i :| 0 <= i < |s.output| && s.output[i].insert == Some(insert);
    assert Apply(s, step).output[i].insert == Some(insert);
  }

  lemma FilledSlotUnwritten(s: State, step: Step, k: string, i: nat)
    requires OutputsRight(s) && LastsRight(s) && Enabled(s, step)
    requires k in Apply(s, step).slots && k in Apply(s, step).newest
    requires i < |s.output| && ForSlot(Apply(s, step), s.output[i], k)
    ensures s.output[i].insert.value < Apply(s, step).newest[k]
  {
    OutputStays(s, step, s.output[i]);
    assert ForSlot(s, s.output[i], k);
  }

  /** Writing a slot's payload empties the slot. */
  lemma WritingEmptiesTheSlot(s: State, k: string)
    requires s.taken <= |s.sent| && SlotsRight(s)
    requires Enabled(s, Take) && |s.output| < |Apply(s, Take).output|
    requires ForSlot(Apply(s, Take), Apply(s, Take).output[|s.output|], k)
    ensures k !in Apply(s, Take).slots
  {
    NextOutput(s);
  }

  lemma EmptySlotWritten(s: State, step: Step, k: string)
    requires s.taken <= |s.sent| && SlotsRight(s) && LastsRight(s) && Enabled(s, step)
    requires k in Apply(s, step).newest && k !in Apply(s, step).slots
    ensures WroteInsert(Apply(s, step), Apply(s, step).newest[k])
  {
    if k !in s.slots {
      InsertStaysWritten(s, step, s.newest[k]);
    } else {
      NextOutput(s);
      assert Apply(s, step).output[|s.output|].insert == Some(s.newest[k]);
    }
  }

  lemma LastsKept(s: State, step: Step)
    requires s.taken <= |s.sent| && SlotsRight(s) && OutputsRight(s) && LastsRight(s) && Enabled(s, step)
    ensures LastsRight(Apply(s, step))
  {
    var s' := Apply(s, step);
    forall k, i | k in s'.slots && k in s'.newest && 0 <= i < |s'.output| && ForSlot(s', s'.output[i], k)
      ensures s'.output[i].insert.value < s'.newest[k]
    {
      if i < |s.output| {
        FilledSlotUnwritten(s, step, k, i);
      } else {
        WritingEmptiesTheSlot(s, k);
      }
    }
    forall k | k in s'.newest && k !in s'.slots ensures WroteInsert(s', s'.newest[k]) {
      EmptySlotWritten(s, step, k);
    }
  }

  lemma {:induction false} RunInv(run: seq<State>, steps: seq<Step>, i: nat)
    requires IsRun(run, steps) && i < |run|
    ensures Inv(run[i])
  {
    if i > 0 {
      var s, step := run[i - 1], steps[i - 1];
      RunInv(run, steps, i - 1);
      NewestKept(s, step);
      SlotsKept(s, step);
      OutputsKept(s, step);
      FramesKept(s, step);
      LastsKept(s, step);
    }
  }

  // ----- what the link promises -----------------------------------------------------------------

  /**
   In every state of every run, the output follows the queue: each thing written is what
   one queued item was worth, in queue order, and every plain frame taken was written.
   */
  lemma WrittenInQueueOrder(run: seq<State>, steps: seq<Step>, n: nat)
    requires IsRun(run, steps) && n < |run|
    ensures var s := run[n];
            && s.taken <= |s.sent|
            && (forall i :: 0 <= i < |s.output| ==> OutputRight(s, s.output[i]))
            && (forall i, j :: 0 <= i < j < |s.output| ==> s.output[i].position < s.output[j].position)
            && (forall p :: 0 <= p < s.taken <= |s.sent| && s.sent[p].Frame? ==> Wrote(s, p))
  {
    RunInv(run, steps, n);
  }

  /**
   Of each slot, what is written is a subsequence of what was put in: in insertion order,
   and no insertion twice.
   */
  lemma WrittenOncePerInsertion(run: seq<State>, steps: seq<Step>, n: nat, i: nat, j: nat, slot: string)
    requires IsRun(run, steps) && n < |run| && i < j < |run[n].output|
    requires ForSlot(run[n], run[n].output[i], slot) && ForSlot(run[n], run[n].output[j], slot)
    ensures run[n].output[i].insert.value < run[n].output[j].insert.value
  {
    RunInv(run, steps, n);
  }

  /** Once no send is under way and the queue is drained, nothing is left in a slot. */
  lemma DrainedSlotsEmpty(run: seq<State>, steps: seq<Step>, n: nat)
    requires IsRun(run, steps) && n < |run|
    requires run[n].calls == map[] && run[n].taken == |run[n].sent|
    ensures run[n].slots == map[]
  {
    RunInv(run, steps, n);
    assert forall k :: k !in run[n].slots;
  }

  /** And the last payload put into each slot has been written, after everything else of its slot. */
  lemma LastOfEachSlotWritten(run: seq<State>, steps: seq<Step>, n: nat, last: nat)
    requires IsRun(run, steps) && n < |run|
    requires run[n].calls == map[] && run[n].taken == |run[n].sent|
    requires last < |run[n].inserts|
    requires forall i :: last < i < |run[n].inserts| ==> run[n].inserts[i].slot != run[n].inserts[last].slot
    ensures exists o :: 0 <= o < |run[n].output| && run[n].output[o].insert == Some(last)
                        && run[n].output[o].payload == run[n].inserts[last].payload
  {
    var s := run[n];
    RunInv(run, steps, n);
    DrainedSlotsEmpty(run, steps, n);
    var slot := s.inserts[last].slot;
    assert s.newest[slot] == last;
    assert WroteInsert(s, last);
    var o :| 0 <= o < |s.output| && s.output[o].insert == Some(last);
    assert OutputRight(s, s.output[o]);
  }
}
