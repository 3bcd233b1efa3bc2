/** The receive side of the channel manager: its record of buffers agrees with the driver's ring. */
module CmRx {
  import opened Fabric
  import opened RingSlots
  import opened ImsgRing
  import opened Records

  const RX_RING_SIZE: nat := RING_SIZE

  class CmRx {
    const ring: Imsg
    const rxBuf: array<Option<nat>>
    var rxSlots: int

    ghost function HeldBuffers(): seq<nat>
      reads this, ring
      requires ring.used <= |ring.added|
    {
      ring.added[ring.used..]
    }

    ghost predicate Valid()
      reads this, ring, ring.imq, ring.imd, rxBuf
    {
      && ring.Valid() && rxBuf.Length == RX_RING_SIZE
      && rxBuf as object != ring.imq as object && rxBuf as object != ring.imd as object
      && Recorded(rxBuf[..], HeldBuffers()) && rxSlots == RX_RING_SIZE - |HeldBuffers()|
    }

    constructor ()
      ensures Valid() && fresh(ring) && fresh(ring.imq) && fresh(ring.imd) && fresh(rxBuf)
      ensures rxSlots == RX_RING_SIZE && ring.added == [] && ring.arrived == [] && ring.taken == 0
    {
      ring := new Imsg();
      rxBuf := new Option<nat>[RX_RING_SIZE](_ => None);
      rxSlots := RX_RING_SIZE;
      new;
      AllEmpty(rxBuf[..]);
    }

    /** `riocm_rx_get_msg`: the buffer that the driver returns is on record. */
    method GetMsg() returns (msg: Option<nat>, data: seq<nat>)
      requires Valid() && (ring.taken < |ring.arrived| ==> rxSlots < RX_RING_SIZE)
      modifies this`rxSlots, ring`descRdptr, ring`used, ring`taken, ring.imq, ring.imd, rxBuf
      ensures Valid() && (msg.Some? <==> old(ring.taken) < |ring.arrived|)
      ensures msg.Some? ==>
                && old(ring.taken) < |ring.arrived| && data == ring.arrived[old(ring.taken)]
                && ring.taken == old(ring.taken) + 1
      ensures msg.Some? ==> old(HeldBuffers()) == [msg.value] + HeldBuffers() && rxSlots == old(rxSlots) + 1
      ensures msg.None? ==>
                HeldBuffers() == old(HeldBuffers()) && rxSlots == old(rxSlots) && ring.taken == old(ring.taken)
    {
      hide Held, Recorded, Slot;
      HeldFits();
      ghost var held := HeldBuffers();
      msg, data := ring.GetMessage();
      if msg.Some? {
        assert held == [msg.value] + HeldBuffers();
        assert Recorded(rxBuf[..], held);
        var i := FindRecord(msg.value, held);
        RecordLess(rxBuf[..], held, i, 0);
        assert Drop(held, 0) == held[1..];
        ghost var was := rxBuf[..];
        rxBuf[i] := None;
        assert rxBuf[..] == was[i := None];
        rxSlots := rxSlots + 1;
      }
    }

    lemma {:induction false} HeldFits()
      requires Valid()
      ensures ring.used <= |ring.added| <= ring.used + RING_SIZE
    {
    }

    /** The search for the record of a buffer. */
    method FindRecord(msg: nat, ghost held: seq<nat>) returns (i: nat)
      requires rxBuf.Length == RX_RING_SIZE && Recorded(rxBuf[..], held) && msg in held
      ensures i < RX_RING_SIZE && rxBuf[i] == Some(msg)
    {
      assert Some(msg) in rxBuf[..];
      i := 0;
      while i < RX_RING_SIZE && rxBuf[i] != Some(msg)
        invariant i <= RX_RING_SIZE && forall j: nat :: j < i ==> rxBuf[j] != Some(msg)
      {
        i := i + 1;
      }
    }

    /** `riocm_rx_fill`: adds up to `nent` new buffers, as long as the allocator has some.  The driver
        accepts every one of them. */
    method Fill(nent0: nat, alloc: seq<nat>) returns (ghost n: nat)
      requires Valid() && Fresh(alloc, HeldBuffers())
      modifies this`rxSlots, ring`rxSlot, ring`added, ring.imq, rxBuf
      ensures Valid() && ring.taken == old(ring.taken) && ring.used == old(ring.used)
      ensures n == Min(Min(nent0, old(rxSlots)), |alloc|) && HeldBuffers() == old(HeldBuffers()) + alloc[..n]
    {
      hide Held, Recorded, Slot;
      n := 0;
      if rxSlots == 0 {
        return;
      }
      var nent, left := nent0, alloc;
      var i: nat := 0;
      HeldFits();
      NoneBefore(rxBuf[..], HeldBuffers());
      while i < RX_RING_SIZE && rxSlots > 0 && nent > 0
        invariant Valid() && i <= RX_RING_SIZE && ring.taken == old(ring.taken)
        invariant ring.used == old(ring.used) <= |ring.added|
        invariant rxSlots == Empties(rxBuf[i..]) && nent == nent0 - n && n <= |alloc| && left == alloc[n..]
        invariant HeldBuffers() == old(HeldBuffers()) + alloc[..n]
        decreases RX_RING_SIZE - i
      {
        OneFewer(rxBuf[..], i);
        if rxBuf[i] == None {
          if left == [] {
            break;
          }
          StillFresh(alloc, old(HeldBuffers()), n);
          ghost var was := rxBuf[..];
          AddOne(i, left[0]);
          assert rxBuf[i + 1..] == was[i + 1..];
          left := left[1..];
          assert alloc[..n + 1] == alloc[..n] + [alloc[n]];
          nent := nent - 1;
          n := n + 1;
        }
        i := i + 1;
      }
    }

    /** Records a new buffer and gives it to the driver. */
    method AddOne(i: nat, b: nat)
      requires Valid() && i < RX_RING_SIZE && rxBuf[i] == None && b !in HeldBuffers() && rxSlots > 0
      modifies this`rxSlots, ring`rxSlot, ring`added, ring.imq, rxBuf
      ensures Valid() && rxBuf[..] == old(rxBuf[..])[i := Some(b)] && rxSlots == old(rxSlots) - 1
      ensures ring.used == old(ring.used) <= |ring.added|
      ensures ring.taken == old(ring.taken) && HeldBuffers() == old(HeldBuffers()) + [b]
    {
      hide Held, Recorded, Slot;
      HeldFits();
      ghost var was, held := rxBuf[..], HeldBuffers();
      RecordMore(was, held, i, b);
      rxBuf[i] := Some(b);
      assert rxBuf[..] == was[i := Some(b)];
      var rc := ring.AddBuffer(b);
      assert HeldBuffers() == held + [b];
      rxSlots := rxSlots - 1;
    }

    /** One round of `rio_ibmsg_handler`: the oldest message, and a new buffer for the one it came in, if
        the allocator has one. */
    method Receive(alloc: seq<nat>) returns (msg: Option<nat>, data: seq<nat>)
      requires Valid() && (ring.taken < |ring.arrived| ==> rxSlots < RX_RING_SIZE)
      requires |alloc| <= 1 && forall b <- alloc :: b !in HeldBuffers()
      modifies this`rxSlots, ring`descRdptr, ring`used, ring`taken, ring`rxSlot, ring`added, ring.imq, ring.imd, rxBuf
      ensures Valid() && (msg.Some? <==> old(ring.taken) < |ring.arrived|)
      ensures msg.Some? ==> old(ring.taken) < |ring.arrived| && data == ring.arrived[old(ring.taken)]
                            && ring.taken == old(ring.taken) + 1
      ensures msg.Some? ==>
                [msg.value] + HeldBuffers() == old(HeldBuffers()) + alloc && rxSlots == old(rxSlots) + 1 - |alloc|
      ensures msg.None? ==>
                HeldBuffers() == old(HeldBuffers()) && rxSlots == old(rxSlots) && ring.taken == old(ring.taken)
    {
      hide Held, Recorded, Slot;
      HeldFits();
      ghost var held := HeldBuffers();
      msg, data := GetMsg();
      HeldFits();
      if msg.Some? {
        assert held == [msg.value] + HeldBuffers();
        assert Fresh(alloc, HeldBuffers()) by { LessFresh(alloc, held, HeldBuffers()); }
        ghost var n := Fill(1, alloc);
        HeldFits();
        assert alloc[..|alloc|] == alloc;
        assert held + alloc == [msg.value] + HeldBuffers();
      }
    }

    /** A message comes in. */
    method Arrive(data: seq<nat>)
      requires Valid() && |ring.arrived| < ring.taken + RING_SIZE
      modifies ring`hwWrptr, ring`arrived, ring.imd
      ensures Valid() && ring.arrived == old(ring.arrived) + [data] && HeldBuffers() == old(HeldBuffers())
    {
      hide Held, Recorded, Slot;
      HeldFits();
      ring.Arrive(data);
    }

    /** The driver's search has no end exactly in states like this one, which an allocator that fails
        leads to: a message waits and no buffer is there. */
    ghost predicate Starved()
      reads ring
    {
      ring.taken < |ring.arrived| && ring.used == |ring.added|
    }
  }

  /** Two messages arrive, and only one buffer could be allocated. */
  method Starve(b: nat) returns (rx: CmRx)
    ensures rx.Valid() && rx.Starved() && forall k: nat :: k < RX_RING_SIZE ==> rx.ring.imq[k] == None
  {
    hide Held, Recorded, Slot;
    rx := new CmRx();
    rx.HeldFits();
    assert rx.HeldBuffers() == [];
    rx.Arrive([1]);
    rx.Arrive([2]);
    ghost var n := rx.Fill(RX_RING_SIZE, [b]);
    rx.HeldFits();
    assert rx.HeldBuffers() == [b];
    var msg, data := rx.Receive([]);
    rx.HeldFits();
    assert rx.HeldBuffers() == [];
    rx.ring.Findable();
  }

  lemma {:induction false} LessFresh(alloc: seq<nat>, held: seq<nat>, rest: seq<nat>)
    requires |alloc| <= 1 && (forall b <- alloc :: b !in held) && forall b <- rest :: b in held
    ensures Fresh(alloc, rest)
  {
  }

  function Min(a: int, b: int): int { if a < b then a else b }

  /** New, and all different. */
  ghost predicate Fresh(alloc: seq<nat>, held: seq<nat>) {
    (forall i: nat, j: nat :: i < j < |alloc| ==> alloc[i] != alloc[j]) && forall i: nat ::
          i < |alloc| ==> alloc[i] !in held
  }

  lemma {:induction false} StillFresh(alloc: seq<nat>, held: seq<nat>, n: nat)
    requires Fresh(alloc, held) && n < |alloc|
    ensures alloc[n] !in held + alloc[..n]
  {
  }

  lemma {:induction false} NoneBefore(bufs: seq<Option<nat>>, held: seq<nat>)
    requires Recorded(bufs, held)
    ensures |bufs| - |held| == Empties(bufs[0..])
  {
    assert bufs[0..] == bufs;
  }
}
