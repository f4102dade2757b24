/**
 The writer thread of a link, which gathers what it finds queued into batches. Batching must
 not show: the wire carries the bytes that sealing and writing each frame on its own, under
 consecutive nonces, would have produced, as far as the first frame the cipher refuses.
 */
module LinkWriter {
  import opened Wrappers

  type Bytes = seq<nat>

  /** Sealing a payload under a nonce; `None` when the cipher refuses it. */
  type Seal = (nat, Bytes) -> Option<Bytes>

  /** A batch takes no further frame once it holds this many bytes. */
  const WRITE_BATCH_BYTES := 262144

  /**
   One write per frame. `claims` is what each queued item turned out to be worth, in queue
   order: a replaced ticket is worth nothing and uses no nonce.
   */
  ghost function FrameByFrame(seal: Seal, claims: seq<Option<Bytes>>, nonce: nat): Bytes {
    if claims == [] then []
    else if claims[0].None? then FrameByFrame(seal, claims[1..], nonce)
    else match seal(nonce, claims[0].value)
      case None => []
      case Some(frame) => frame + FrameByFrame(seal, claims[1..], nonce + 1)
  }

  /** Every frame of `claims` seals, from `nonce` on. */
  ghost predicate AllSeal(seal: Seal, claims: seq<Option<Bytes>>, nonce: nat) {
    claims == []
    || (claims[0].None? && AllSeal(seal, claims[1..], nonce))
    || (claims[0].Some? && seal(nonce, claims[0].value).Some? && AllSeal(seal, claims[1..], nonce + 1))
  }

  lemma FirstFrame(seal: Seal, claims: seq<Option<Bytes>>, i: nat, nonce: nat)
    requires i < |claims|
    ensures claims[i].None? ==> FrameByFrame(seal, claims[i..], nonce) == FrameByFrame(seal, claims[i + 1..], nonce)
    ensures claims[i].Some? ==>
              FrameByFrame(seal, claims[i..], nonce) ==
              match seal(nonce, claims[i].value)
              case None => []
              case Some(frame) => frame + FrameByFrame(seal, claims[i + 1..], nonce + 1)
  {
    assert claims[i..][1..] == claims[i + 1..];
  }

  lemma FirstSeals(seal: Seal, claims: seq<Option<Bytes>>, i: nat, nonce: nat)
    requires i < |claims|
    ensures AllSeal(seal, claims[i..], nonce) <==>
            (claims[i].None? && AllSeal(seal, claims[i + 1..], nonce))
            || (claims[i].Some? && seal(nonce, claims[i].value).Some? && AllSeal(seal, claims[i + 1..], nonce + 1))
  {
    assert claims[i..][1..] == claims[i + 1..];
  }

  /**
   Run the writer over `claims`. `ready[i]` says whether item `i` was already queued when
   the writer looked for one to add to a batch. The write with index `failing` fails after
   putting `partial` bytes of its batch on the wire. Whatever the batches came to be, the
   wire is a prefix of the frame-by-frame stream, and all of it when no write fails; the
   link is left open exactly when every frame sealed and every write succeeded.
   */
  method WriteLink(seal: Seal, claims: seq<Option<Bytes>>, ready: seq<bool>, failing: Option<nat>, partial: nat)
    returns (wire: Bytes, writes: nat, open: bool)
    requires |ready| == |claims|
    ensures wire <= FrameByFrame(seal, claims, 0)
    ensures failing.None? ==> wire == FrameByFrame(seal, claims, 0)
    ensures failing.None? ==> (open <==> AllSeal(seal, claims, 0))
    ensures failing.Some? && failing.value < writes ==> !open
    ensures writes <= |claims|
  {
    wire, writes, open := [], 0, true;
    var i, nonce := 0, 0;
    assert claims[0..] == claims;
    while i < |claims| && open
      invariant 0 <= i <= |claims|
      invariant writes <= i
      invariant open ==> wire + FrameByFrame(seal, claims[i..], nonce) == FrameByFrame(seal, claims, 0)
      invariant open ==> (AllSeal(seal, claims[i..], nonce) <==> AllSeal(seal, claims, 0))
      invariant open && failing.Some? ==> writes <= failing.value
      invariant !open ==> wire <= FrameByFrame(seal, claims, 0)
      invariant !open && failing.None? ==> wire == FrameByFrame(seal, claims, 0) && !AllSeal(seal, claims, 0)
      decreases |claims| - i
    {
      FirstFrame(seal, claims, i, nonce);
      FirstSeals(seal, claims, i, nonce);
      var payload := claims[i];
      i := i + 1;
      if payload.None? {
        continue;
      }
      var batch, sealed, used, count := FillBatch(seal, claims, ready, i, nonce, payload.value);
      i, nonce := used, count;
      var rest := if sealed then FrameByFrame(seal, claims[i..], nonce) else [];
      assert wire + (batch + rest) == (wire + batch) + rest;
      if failing == Some(writes) {
        var kept := if partial <= |batch| then partial else |batch|;
        assert batch[..kept] <= batch;
        wire, open := wire + batch[..kept], false;
      } else {
        wire, open := wire + batch, sealed;
      }
      writes := writes + 1;
    }
    if open {
      assert claims[i..] == [];
    }
  }

  /**
   One batch: the frame the writer woke for, and what is already queued behind it. The
   batch is exactly the frames it used up, sealed in order; a frame that will not seal
   ends it and leaves the frames before it in place.
   */
  method FillBatch(seal: Seal, claims: seq<Option<Bytes>>, ready: seq<bool>, start: nat, nonce: nat, first: Bytes)
    returns (batch: Bytes, sealed: bool, i: nat, count: nat)
    requires |ready| == |claims| && start <= |claims|
    ensures start <= i <= |claims|
    ensures var whole := match seal(nonce, first)
                         case None => []
                         case Some(frame) => frame + FrameByFrame(seal, claims[start..], nonce + 1);
            whole == batch + if sealed then FrameByFrame(seal, claims[i..], count) else []
    ensures seal(nonce, first).Some? && AllSeal(seal, claims[start..], nonce + 1) <==>
            sealed && AllSeal(seal, claims[i..], count)
  {
    var frame := seal(nonce, first);
    i, count := start, nonce + 1;
    if frame.None? {
      return [], false, i, count;
    }
    batch, sealed := frame.value, true;
    while sealed && |batch| < WRITE_BATCH_BYTES
      invariant start <= i <= |claims|
      invariant frame.value + FrameByFrame(seal, claims[start..], nonce + 1) ==
                batch + if sealed then FrameByFrame(seal, claims[i..], count) else []
      invariant AllSeal(seal, claims[start..], nonce + 1) <==> sealed && AllSeal(seal, claims[i..], count)
      decreases |claims| - i, sealed
    {
      if i == |claims| || !ready[i] {
        break;
      }
      FirstFrame(seal, claims, i, count);
      FirstSeals(seal, claims, i, count);
      var next := claims[i];
      i := i + 1;
      if next.Some? {
        match seal(count, next.value)
        case None => sealed := false;
        case Some(bytes) =>
          assert batch + (bytes + FrameByFrame(seal, claims[i..], count + 1)) ==
                 (batch + bytes) + FrameByFrame(seal, claims[i..], count + 1);
          batch, count := batch + bytes, count + 1;
      }
    }
  }
}
