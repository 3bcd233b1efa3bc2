/** The transmit side of the channel manager: its slots stay in step with the driver's ring. */
module CmTx {
  import opened Fabric
  import opened OmsgRing
  import opened RingSlots

  const EBUSY: int := -16

  /** A request packet waiting for a free slot. */
  datatype TxReq = TxReq(destid: nat, data: seq<nat>, buffer: nat)

  class CmTx {
    const ring: Omsg
    const txBuf: array<Option<nat>>
    var txSlot: nat
    var txCnt: int
    var txAckSlot: nat
    var txReqs: seq<TxReq>
    /** The slot that the driver's handler found, on its way to the completion handler. */
    var event: Option<nat>
    ghost var acked: nat
    /** The buffers posted, in order. */
    ghost var buffers: seq<nat>

    ghost predicate Valid()
      reads this, ring, ring.omq, ring.desc, txBuf
    {
      && ring.Valid() && Separate() && InStep() && Events() && Held(txBuf[..], buffers, acked)
      && forall r <- txReqs :: Sendable(r.data)
    }

    ghost predicate Separate()
      reads this
    {
      txBuf.Length == RING_SIZE && txBuf as object != ring.omq as object && txBuf as object != ring.desc as object
    }

    /** Both layers use the same slot, and the slots in use are the messages not acknowledged yet. */
    ghost predicate InStep()
      reads this, ring
    {
      && txSlot == ring.txSlot && acked <= |ring.posted| <= acked + RING_SIZE
      && txCnt == |ring.posted| - acked && txAckSlot == Slot(acked) && |buffers| == |ring.posted|
      && txSlot == Slot(|ring.posted|)
    }

    ghost predicate Events()
      reads this, ring
    {
      acked <= ring.seen && if event.None? then acked == ring.seen
            else acked < ring.seen && event.value == Slot(ring.seen)
    }

    constructor ()
      ensures Valid() && fresh(ring) && fresh(ring.omq) && fresh(ring.desc) && fresh(txBuf) && ring.posted == []
      ensures txReqs == []
    {
      ring := new Omsg();
      txBuf := new Option<nat>[RING_SIZE](_ => None);
      txSlot, txCnt, txAckSlot, txReqs, event := 0, 0, 0, [], None;
      acked, buffers := 0, [];
    }

    /** `riocm_post_send`.  A message that the driver refuses still takes a slot, so the layers stay in
        step exactly as long as all messages have a valid length. */
    method PostSend(destid: nat, data: seq<nat>, buffer: nat) returns (rc: int)
      requires Valid()
      modifies this, ring, ring.omq, ring.desc, txBuf
      ensures (rc == EBUSY <==> old(txCnt) == RING_SIZE) && rc in {0, EBUSY, EINVAL}
      ensures rc != EBUSY ==> (rc == 0 <==> Sendable(data)) && (rc == 0 <==> InStep()) && (rc == 0 <==> Valid())
      ensures rc != EBUSY ==> txCnt == old(txCnt) + 1 && txSlot == (old(txSlot) + 1) % RING_SIZE
      ensures rc != 0 ==> ring.posted == old(ring.posted) && ring.txSlot == old(ring.txSlot)
      ensures rc == EBUSY || rc == 0 ==> Valid() && txReqs == old(txReqs) && acked == old(acked)
      ensures rc == 0 ==> ring.posted == old(ring.posted) + [Packet(destid, data)] && buffers == old(buffers) + [buffer]
    {
      hide Omsg.Valid, Omsg.Ready, Held;
      if txCnt == RING_SIZE {
        return EBUSY;
      }
      RingFits();
      rc := Place(destid, data, buffer);
    }

    /** Puts a message into the next slot of both layers. */
    method Place(destid: nat, data: seq<nat>, buffer: nat) returns (rc: int)
      requires Valid() && txCnt < RING_SIZE && |ring.posted| < |ring.sent| + SIZE
      modifies this`txSlot, this`txCnt, this`buffers, ring`txSlot, ring`wrCount, ring`dwrcnt, ring`posted, ring.omq,
               ring.desc, txBuf
      ensures rc == 0 || rc == EINVAL
      ensures (rc == 0 <==> Sendable(data)) && (rc == 0 <==> InStep()) && (rc == 0 <==> Valid())
      ensures txCnt == old(txCnt) + 1 && txSlot == (old(txSlot) + 1) % RING_SIZE
      ensures rc != 0 ==> ring.posted == old(ring.posted) && ring.txSlot == old(ring.txSlot)
      ensures rc == 0 ==> ring.posted == old(ring.posted) + [Packet(destid, data)] && buffers == old(buffers) + [buffer]
    {
      hide Omsg.Valid, Omsg.Ready, Held, Slot;
      NextSlot(|ring.posted|);
      ghost var slots := txBuf[..];
      txBuf[txSlot] := Some(buffer);
      assert txBuf[..] == slots[txSlot := Some(buffer)];
      HeldMore(slots, buffers, acked, buffer);
      rc := ring.AddMessage(destid, data);
      txCnt := txCnt + 1;
      txSlot := txSlot + 1;
      txSlot := txSlot % RING_SIZE;
      if rc == 0 {
        buffers := buffers + [buffer];
        RingSlot();
      }
    }

    lemma {:induction false} RingFits()
      requires Valid() && txCnt < RING_SIZE
      ensures |ring.posted| < |ring.sent| + SIZE
    {
    }

    lemma {:induction false} RingSlot()
      requires ring.Valid()
      ensures ring.txSlot == Slot(|ring.posted|)
    {
    }

    /** `riocm_queue_req`. */
    method QueueReq(destid: nat, data: seq<nat>, buffer: nat)
      requires Valid() && Sendable(data)
      modifies this`txReqs
      ensures Valid() && txReqs == old(txReqs) + [TxReq(destid, data, buffer)]
    {
      txReqs := txReqs + [TxReq(destid, data, buffer)];
    }

    /** The hardware takes its next descriptor. */
    method HardwareStep()
      requires Valid() && ring.drdcnt < ring.dwrcnt
      modifies ring`drdcnt, ring`hwPos, ring`sts, ring`sent
      ensures Valid() && ring.posted == old(ring.posted) && old(ring.sent) <= ring.sent
      ensures ring.drdcnt == old(ring.drdcnt) + 1
    {
      ring.HardwareStep();
    }

    /** The driver's interrupt handler, up to the call of the completion handler. */
    method Interrupt()
      requires Valid() && event.None?
      modifies this`event, ring`sts, ring`seen
      ensures Valid() && acked == old(acked) && ring.seen == |ring.sent|
      ensures (event.Some? <==> old(ring.seen) < |ring.sent|)
    {
      hide Held;
      event := ring.Handler();
    }

    /** `rio_txcq_handler`: gives back the slots of exactly the messages that the driver saw finished,
        even if all 128 did, and moves waiting requests into free slots, oldest first. */
    method TxcqHandler()
      requires Valid() && event.Some?
      modifies this, ring`txSlot, ring`wrCount, ring`dwrcnt, ring`posted, ring.omq, ring.desc, txBuf
      ensures Valid() && event.None? && acked == ring.seen == old(ring.seen) && ring.sent == old(ring.sent)
      ensures exists n: nat ::
            && Drained(old(txReqs), n, old(ring.posted), ring.posted, txReqs)
            && Taken(old(txReqs), n, old(buffers), buffers) && (txReqs == [] || txCnt == RING_SIZE)
    {
      hide Omsg.Valid, Omsg.Ready, Held;
      Acknowledge(event.value);
      ghost var n := Drain();
    }

    /** The first loop: from the oldest slot up to the one that the driver named. */
    method Acknowledge(slot: nat)
      requires Valid() && event == Some(slot)
      modifies this`txCnt, this`txAckSlot, this`event, this`acked, txBuf
      ensures Valid() && event.None? && acked == ring.seen
    {
      hide Omsg.Valid, Held, Slot;
      SeenFits();
      ghost var goal := ring.seen;
      var ackSlot := txAckSlot;
      while txCnt > 0 && (ackSlot != slot || txCnt == RING_SIZE)
        invariant ring.Valid() && Separate() && Held(txBuf[..], buffers, acked) && |buffers| == |ring.posted|
        invariant old(acked) <= acked <= goal == ring.seen <= |ring.posted| <= old(acked) + RING_SIZE
        invariant slot == Slot(goal)
        invariant ackSlot == Slot(acked) && txCnt == |ring.posted| - acked
        invariant txCnt == RING_SIZE ==> acked == old(acked) < goal
        invariant txSlot == old(txSlot) == ring.txSlot && forall r <- txReqs :: Sendable(r.data)
        decreases txCnt
      {
        NextSlot(acked);
        HeldLess(txBuf[..], buffers, acked);
        txBuf[ackSlot] := None;
        ackSlot := ackSlot + 1;
        ackSlot := ackSlot % RING_SIZE;
        txCnt := txCnt - 1;
        acked := acked + 1;
      }
      Reached(acked, goal, |ring.posted|);
      txAckSlot := ackSlot;
      event := None;
      RingSlot();
    }

    /** The second loop. */
    method Drain() returns (ghost n: nat)
      requires Valid() && event.None?
      modifies this`txReqs, this`txSlot, this`txCnt, this`buffers, ring`txSlot, ring`wrCount, ring`dwrcnt, ring`posted,
               ring.omq, ring.desc, txBuf
      ensures Valid() && (txReqs == [] || txCnt == RING_SIZE)
      ensures Drained(old(txReqs), n, old(ring.posted), ring.posted, txReqs)
      ensures Taken(old(txReqs), n, old(buffers), buffers)
    {
      hide Omsg.Valid, Omsg.Ready, Held;
      n := 0;
      while txReqs != [] && txCnt < RING_SIZE
        invariant Valid() && n <= |old(txReqs)| && event.None? && acked == old(acked)
        invariant Drained(old(txReqs), n, old(ring.posted), ring.posted, txReqs)
        invariant Taken(old(txReqs), n, old(buffers), buffers)
        decreases |txReqs|
      {
        var req := txReqs[0];
        assert req in txReqs;
        txReqs := txReqs[1..];
        RingFits();
        var rc := Place(req.destid, req.data, req.buffer);
        DrainedMore(old(txReqs), n, old(ring.posted), ring.posted, txReqs);
        n := n + 1;
      }
    }

    lemma {:induction false} SeenFits()
      requires Valid()
      ensures ring.seen <= |ring.posted|
    {
    }
  }

  /** A message of 7 bytes is refused, and the two layers then stand at different slots. */
  method RefusedRun() returns (t: CmTx, rc: int)
    ensures rc == EINVAL && !t.InStep() && t.txSlot == 1 && t.ring.txSlot == 0 && t.ring.posted == []
  {
    t := new CmTx();
    rc := t.PostSend(1, [0, 0, 0, 0, 0, 0, 0], 0);
  }

  // ----- slots

  /** The loop stops nowhere else. */
  lemma {:induction false} Reached(a: nat, goal: nat, posted: nat)
    requires a <= goal <= posted < a + RING_SIZE && (posted == a || Slot(a) == Slot(goal))
    ensures a == goal
  {
  }

  /** The first `n` requests went out after the messages before, in order; the others wait. */
  ghost predicate Drained(reqs: seq<TxReq>, n: nat, before: seq<Packet>, after: seq<Packet>, waiting: seq<TxReq>) {
    && n <= |reqs| && waiting == reqs[n..] && |after| == |before| + n && after[..|before|] == before
    && forall k: nat :: k < n ==> after[|before| + k] == Packet(reqs[k].destid, reqs[k].data)
  }

  /** Their buffers are on record behind those of the messages before. */
  ghost predicate Taken(reqs: seq<TxReq>, n: nat, before: seq<nat>, after: seq<nat>) {
    && n <= |reqs| && |after| == |before| + n && after[..|before|] == before
    && forall k: nat :: k < n ==> after[|before| + k] == reqs[k].buffer
  }

  lemma {:induction false} DrainedMore(reqs: seq<TxReq>, n: nat, before: seq<Packet>, after: seq<Packet>,
        waiting: seq<TxReq>)
    requires n < |reqs| && waiting == reqs[n..][1..] && |after| == |before| + n + 1
    requires Drained(reqs, n, before, after[..|before| + n], reqs[n..])
    requires after[|before| + n] == Packet(reqs[n].destid, reqs[n].data)
    ensures Drained(reqs, n + 1, before, after, waiting)
  {
  }
}
