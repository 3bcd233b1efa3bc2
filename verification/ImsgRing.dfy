/** An inbound message ring of the Tsi721: client buffers wait in slots, messages wait in descriptors. */
module ImsgRing {
  import opened Fabric
  import opened RingSlots

  const EINVAL: int := -22

  class Imsg {
    const imq: array<Option<nat>>
    /** Message descriptors; a full one has its hardware-ownership bit set. */
    const imd: array<Option<seq<nat>>>
    var rxSlot: nat
    var descRdptr: nat
    var hwWrptr: nat
    /** All buffers that were added, how many were used, all messages that arrived, how many were taken. */
    ghost var added: seq<nat>
    ghost var used: nat
    ghost var arrived: seq<seq<nat>>
    ghost var taken: nat

    ghost predicate Valid()
      reads this, imq, imd
    {
      && imq.Length == imd.Length == RING_SIZE && imq as object != imd as object
      && Held(imq[..], added, used) && Held(imd[..], arrived, taken)
      && rxSlot == Slot(|added|) && descRdptr == Slot(taken) && hwWrptr == Slot(|arrived|)
    }

    constructor ()
      ensures Valid() && fresh(imq) && fresh(imd) && added == [] && used == 0 && arrived == [] && taken == 0
    {
      imq := new Option<nat>[RING_SIZE](_ => None);
      imd := new Option<seq<nat>>[RING_SIZE](_ => None);
      rxSlot, descRdptr, hwWrptr, added, used, arrived, taken := 0, 0, 0, [], 0, [], 0;
    }

    /** The hardware stores a message, if it has a descriptor left. */
    method Arrive(data: seq<nat>)
      requires Valid() && |arrived| < taken + RING_SIZE
      modifies this`hwWrptr, this`arrived, imd
      ensures Valid() && arrived == old(arrived) + [data]
    {
      hide Held, Slot;
      ghost var was := imd[..];
      HeldMore(was, arrived, taken, data);
      imd[hwWrptr] := Some(data);
      assert imd[..] == was[hwWrptr := Some(data)];
      NextSlot(|arrived|);
      arrived := arrived + [data];
      hwWrptr := if hwWrptr + 1 == RING_SIZE then 0 else hwWrptr + 1;
    }

    /** `tsi721_add_inb_buffer`: fails only if all slots are full. */
    method AddBuffer(buf: nat) returns (rc: int)
      requires Valid()
      modifies this`rxSlot, this`added, imq
      ensures Valid() && (rc == 0 <==> |old(added)| < used + RING_SIZE)
      ensures if rc == 0 then added == old(added) + [buf]
            else rc == EINVAL && added == old(added) && imq[..] == old(imq[..])
    {
      hide Slot;
      if imq[rxSlot].Some? {
        if |added| < used + RING_SIZE { HeldMore(imq[..], added, used, buf); }
        return EINVAL;
      }
      FullIsFull(imq[..], added, used);
      ghost var was := imq[..];
      HeldMore(was, added, used, buf);
      imq[rxSlot] := Some(buf);
      assert imq[..] == was[rxSlot := Some(buf)];
      NextSlot(|added|);
      added := added + [buf];
      rxSlot := rxSlot + 1;
      if rxSlot == RING_SIZE {
        rxSlot := 0;
      }
      rc := 0;
    }

    /** There is a buffer to find exactly if one was added and not used; without one, the search would go
        round empty slots for ever. */
    lemma {:induction false} Findable()
      requires Valid()
      ensures used < |added| <==> exists k: nat :: k < RING_SIZE && imq[k].Some?
    {
      if used < |added| { assert imq[Slot(used)].Some?; }
    }

    /** The search for the buffer that was added first. */
    method FindBuffer() returns (rx: nat)
      requires Valid() && used < |added|
      ensures rx == Slot(used) && imq[rx] == Some(added[used])
    {
      hide Slot;
      rx := rxSlot;
      ghost var d := |added|;
      NextSlot(used);
      while imq[rx] == None
        invariant rx == Slot(d) && |added| <= d <= used + RING_SIZE
        decreases used + RING_SIZE - d
      {
        NextSlot(d);
        rx := rx + 1;
        if rx == RING_SIZE {
          rx := 0;
        }
        d := d + 1;
      }
      if d < used + RING_SIZE {
        Gap(imq[..], added, used, d);
      }
    }

    /** `tsi721_get_inb_message`: the oldest message, in the oldest buffer.  With a message but no
        buffer the search would not end. */
    method GetMessage() returns (buf: Option<nat>, data: seq<nat>)
      requires Valid() && (taken < |arrived| ==> used < |added|)
      modifies this`descRdptr, this`used, this`taken, imq, imd
      ensures Valid() && (buf.Some? <==> taken == old(taken) + 1) && (buf.None? <==> old(taken) == |arrived|)
      ensures buf.Some? ==> old(taken) < |arrived| && data == arrived[old(taken)]
      ensures buf.Some? ==> old(used) < |added| && buf.value == added[old(used)] && used == old(used) + 1
      ensures buf.None? ==> used == old(used) && taken == old(taken)
    {
      hide Slot;
      Waiting(imd[..], arrived, taken);
      if imd[descRdptr].None? {
        return None, [];
      }
      var rx := FindBuffer();
      buf, data := imq[rx], imd[descRdptr].value;
      HeldLess(imq[..], added, used);
      HeldLess(imd[..], arrived, taken);
      ghost var bufs, msgs := imq[..], imd[..];
      imq[rx] := None;
      imd[descRdptr] := None;
      assert imq[..] == bufs[rx := None] && imd[..] == msgs[descRdptr := None];
      NextSlot(taken);
      used, taken := used + 1, taken + 1;
      descRdptr := descRdptr + 1;
      if descRdptr == RING_SIZE {
        descRdptr := 0;
      }
    }
  }

  lemma {:induction false} FullIsFull<T>(slots: seq<Option<T>>, entries: seq<T>, a: nat)
    requires Held(slots, entries, a)
    ensures |entries| == a + RING_SIZE ==> slots[Slot(|entries|)].Some?
  {
    if |entries| == a + RING_SIZE { NextSlot(a); }
  }

  lemma {:induction false} Waiting<T>(slots: seq<Option<T>>, entries: seq<T>, a: nat)
    requires Held(slots, entries, a)
    ensures slots[Slot(a)] == if a < |entries| then Some(entries[a]) else None
  {
    if a == |entries| { Gap(slots, entries, a, a); }
  }
}
