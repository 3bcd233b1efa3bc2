/** An outbound message ring of the Tsi721: the driver fills slots, the hardware works them off, and
    the interrupt handler learns from the status FIFO how far it got. */
module OmsgRing {
  import opened Fabric
  import opened RingSlots

  const SIZE: nat := RING_SIZE
  const MAX_MSG: nat := 4096
  const EINVAL: int := -22

  /** A message as posted, or as it leaves on the wire. */
  datatype Packet = Packet(destid: nat, data: seq<nat>)

  /** The fields of a `struct tsi721_omsg_desc`; `bcount` of zero stands for 4096. */
  datatype Desc = Desc(destid: nat, bcount: nat, bufptr: nat)

  /** Messages go out in units of eight bytes. */
  function Padded(len: nat): nat { (len + 7) / 8 * 8 }

  predicate Sendable(data: seq<nat>) { 8 <= |data| <= MAX_MSG }

  ghost predicate Carries(sent: Packet, posted: Packet) {
    sent.destid == posted.destid && |sent.data| == Padded(|posted.data|) && |posted.data| <= |sent.data|
    && sent.data[..|posted.data|] == posted.data
  }

  function WireLength(bcount: nat): nat { if bcount == 0 then MAX_MSG else bcount }

  /** How often the link descriptor was passed. */
  function Rounds(counter: nat): nat { counter / SIZE }

  lemma {:induction false} NextRound(c: nat)
    ensures Slot(c + 1) == (if Slot(c) + 1 == SIZE then 0 else Slot(c) + 1)
    ensures Rounds(c + 1) == Rounds(c) + if Slot(c) + 1 == SIZE then 1 else 0
  {
  }

  lemma {:induction false} MoreRounds(c: nat, d: nat)
    requires c <= d
    ensures Rounds(c) <= Rounds(d)
  {
  }

  class Omsg {
    const omq: array<seq<nat>>
    const desc: array<Desc>
    var txSlot: nat
    var wrCount: nat
    /** Hardware: counters of descriptors written and read, the position in the ring, the status FIFO. */
    var dwrcnt: nat
    var drdcnt: nat
    var hwPos: nat
    var sts: seq<nat>
    ghost var posted: seq<Packet>
    ghost var sent: seq<Packet>
    /** How many sent messages the handler knows of. */
    ghost var seen: nat

    ghost predicate Valid()
      reads this, omq, desc
    {
      && omq.Length == SIZE && desc.Length == SIZE && omq as object != desc as object
      && (forall k: nat :: k < SIZE ==> |omq[k]| == MAX_MSG)
      && Counts() && StatusOk() && SentOk(posted, sent)
      && (forall c: nat :: |sent| <= c < |posted| ==> Ready(omq[..], desc[..], c, posted[c]))
    }

    /** Slots and counters, with one link descriptor per round. */
    ghost predicate Counts()
      reads this
    {
      && seen <= |sent| <= |posted| <= |sent| + SIZE
      && txSlot == Slot(|posted|) && wrCount == dwrcnt == |posted| + Rounds(|posted|)
      && (if hwPos == SIZE then Slot(|sent|) == 0 && |sent| > 0 && drdcnt == |sent| + Rounds(|sent|) - 1
          else hwPos == Slot(|sent|) && drdcnt == |sent| + Rounds(|sent|))
    }

    /** The last data entry of the status FIFO tells how far the hardware got. */
    ghost predicate StatusOk()
      reads this
    {
      && (sts == [] ==> seen == |sent|)
      && (|sts| > 0 && sts[|sts| - 1] != SIZE ==>
            seen < |sent| && sts[|sts| - 1] == Slot(|sent| - 1) && sts[|sts| - 1] < SIZE)
      && (|sts| > 0 && sts[|sts| - 1] == SIZE ==> Slot(|sent|) == 0 && hwPos != SIZE)
      && (|sts| == 1 && sts[0] == SIZE ==> seen == |sent|)
      && (|sts| > 1 && sts[|sts| - 1] == SIZE ==> seen < |sent| && sts[|sts| - 2] == SIZE - 1)
    }

    ghost predicate SentOk(posted: seq<Packet>, sent: seq<Packet>) {
      |sent| <= |posted| && forall c: nat :: c < |sent| ==> Carries(sent[c], posted[c])
    }

    /** The slot for message `c` holds it. */
    ghost predicate Ready(bufs: seq<seq<nat>>, descs: seq<Desc>, c: nat, p: Packet)
      requires |bufs| == |descs| == SIZE
    {
      var d := descs[Slot(c)];
      && d.bufptr < SIZE && d.bufptr == Slot(c) && WireLength(d.bcount) <= |bufs[d.bufptr]|
      && Carries(Packet(d.destid, bufs[d.bufptr][..WireLength(d.bcount)]), p)
    }

    constructor ()
      ensures Valid() && fresh(omq) && fresh(desc) && posted == sent == [] && sts == [] && seen == 0
    {
      omq := new seq<nat>[SIZE](_ => seq(MAX_MSG, _ => 0));
      desc := new Desc[SIZE](_ => Desc(0, 0, 0));
      txSlot, wrCount, dwrcnt, drdcnt, hwPos, seen := 0, 0, 0, 0, 0, 0;
      sts, posted, sent := [], [], [];
    }

    /** `tsi721_add_outb_message`.  The caller keeps at most a ring of messages unsent. */
    method AddMessage(destid: nat, data: seq<nat>) returns (rc: int)
      requires Valid() && |posted| < |sent| + SIZE
      modifies this`txSlot, this`wrCount, this`dwrcnt, this`posted, omq, desc
      ensures Valid() && (rc == 0 <==> Sendable(data))
      ensures (rc != 0 ==> rc == EINVAL && posted == old(posted) && txSlot == old(txSlot))
      ensures rc == 0 ==> posted == old(posted) + [Packet(destid, data)]
    {
      hide Carries, Ready, SentOk, Slot, Rounds;
      NextRound(|posted|);
      if |data| > MAX_MSG || |data| < 8 {
        return EINVAL;
      }
      FillSlot(destid, data);
      SentStays(posted, sent, Packet(destid, data));
      posted := posted + [Packet(destid, data)];
      wrCount := wrCount + 1;
      txSlot := txSlot + 1;
      if txSlot == SIZE {
        txSlot := 0;
        wrCount := wrCount + 1;
      }
      dwrcnt := wrCount;
      rc := 0;
    }

    /** Copies the message and builds its descriptor. */
    method FillSlot(destid: nat, data: seq<nat>)
      requires Valid() && |posted| < |sent| + SIZE && Sendable(data)
      modifies omq, desc
      ensures Valid() && Ready(omq[..], desc[..], |posted|, Packet(destid, data))
    {
      hide Carries, SentOk, Ready, Slot, Rounds;
      omq[txSlot] := data + omq[txSlot][|data|..];
      var len := |data|;
      if len % 8 != 0 {
        len := len + 8;
      }
      desc[txSlot] := Desc(destid, len / 8 * 8 % MAX_MSG, txSlot);
      Filled(omq[..], desc[..], |posted|, destid, data);
      OthersReady(old(omq[..]), old(desc[..]), omq[..], desc[..], |posted|);
    }

    lemma {:induction false} SentStays(before: seq<Packet>, s: seq<Packet>, p: Packet)
      requires SentOk(before, s)
      ensures SentOk(before + [p], s)
    {
      hide Carries;
    }

    lemma {:induction false} Filled(bufs: seq<seq<nat>>, descs: seq<Desc>, c: nat, destid: nat, data: seq<nat>)
      requires |bufs| == |descs| == SIZE && Sendable(data)
      requires |bufs[Slot(c)]| == MAX_MSG && bufs[Slot(c)][..|data|] == data
      requires descs[Slot(c)]
            == Desc(destid, (if |data| % 8 != 0 then |data| + 8 else |data|) / 8 * 8 % MAX_MSG, Slot(c))
      ensures Ready(bufs, descs, c, Packet(destid, data))
    {
    }

    /** The slots of the unsent messages are other slots. */
    lemma {:induction false} OthersReady(bufs: seq<seq<nat>>, descs: seq<Desc>, bufs': seq<seq<nat>>,
          descs': seq<Desc>, c: nat)
      requires |bufs| == |descs| == |bufs'| == |descs'| == SIZE && c == |posted| < |sent| + SIZE
      requires forall k: nat :: k < SIZE && k != Slot(c) ==> bufs'[k] == bufs[k] && descs'[k] == descs[k]
      requires forall d: nat :: |sent| <= d < c ==> Ready(bufs, descs, d, posted[d])
      ensures forall d: nat :: |sent| <= d < c ==> Ready(bufs', descs', d, posted[d])
    {
    }

    /** The hardware works off one descriptor, the link included, and reports it. */
    method HardwareStep()
      requires Valid() && drdcnt < dwrcnt
      modifies this`drdcnt, this`hwPos, this`sts, this`sent
      ensures Valid() && posted == old(posted) && old(sent) <= sent && drdcnt == old(drdcnt) + 1
      ensures |sent| == |old(sent)| + if old(hwPos) == SIZE then 0 else 1
    {
      hide Carries, Slot, Rounds, Ready, SentOk;
      MoreRounds(|sent|, |posted|);
      NextRound(|sent|);
      if |sent| > 0 { NextRound(|sent| - 1); }
      drdcnt := drdcnt + 1;
      if hwPos == SIZE {
        sts := sts + [SIZE];
        hwPos := 0;
      } else {
        assert |sent| < |posted|;
        var d := desc[hwPos];
        NextSent(omq[..], desc[..]);
        sent := sent + [Packet(d.destid, omq[d.bufptr][..WireLength(d.bcount)])];
        sts := sts + [hwPos];
        hwPos := hwPos + 1;
      }
    }

    /** The packet for the next slot is the next message. */
    lemma {:induction false} NextSent(bufs: seq<seq<nat>>, descs: seq<Desc>)
      requires |bufs| == |descs| == SIZE && |sent| < |posted| && SentOk(posted, sent)
      requires Ready(bufs, descs, |sent|, posted[|sent|])
      ensures var d := descs[Slot(|sent|)];
              && d.bufptr < SIZE && WireLength(d.bcount) <= |bufs[d.bufptr]|
              && SentOk(posted, sent + [Packet(d.destid, bufs[d.bufptr][..WireLength(d.bcount)])])
    {
      hide Carries;
    }

    /** `tsi721_omsg_handler` for finished messages: empties the status FIFO and finds the slot after the
        last one sent.  With a link descriptor only there is nothing to tell. */
    method Handler() returns (slot: Option<nat>)
      requires Valid()
      modifies this`sts, this`seen
      ensures Valid() && sts == [] && seen == |sent|
      ensures slot == if old(seen) < |sent| then Some(Slot(|sent|)) else None
    {
      hide Carries, Ready, SentOk, Slot, Rounds;
      if |sent| > 0 { NextRound(|sent| - 1); }
      var lastPtr: Option<nat>, prevPtr: Option<nat> := None, None;
      var i := 0;
      while i < |sts|
        invariant i <= |sts|
        invariant lastPtr == if i == 0 then None else Some(sts[i - 1])
        invariant prevPtr == if i <= 1 then None else Some(sts[i - 2])
      {
        prevPtr := lastPtr;
        lastPtr := Some(sts[i]);
        i := i + 1;
      }
      sts, seen := [], |sent|;
      if lastPtr.None? {
        return None;
      }
      var txSlot := lastPtr.value;
      if txSlot == SIZE {
        if prevPtr.Some? {
          txSlot := prevPtr.value;
        } else {
          return None;
        }
      }
      txSlot := txSlot + 1;
      if txSlot == SIZE {
        txSlot := 0;
      }
      slot := Some(txSlot);
    }

    /** Whatever was posted and whatever happened since: the wire carries the messages in order. */
    lemma {:induction false} InOrder(k: nat)
      requires Valid() && k < |sent|
      ensures k < |posted| && sent[k].destid == posted[k].destid && posted[k].data <= sent[k].data
      ensures drdcnt == dwrcnt ==> |sent| == |posted|
    {
      assert Carries(sent[k], posted[k]);
    }
  }
}
