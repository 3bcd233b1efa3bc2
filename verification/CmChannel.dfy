/** One channel object of the channel manager: its receive ring, the completion tokens that wake
    receivers and accepters, and the buffers it owns. */
module CmChannel {
  import opened Fabric
  import opened Trees
  import opened RingSlots
  import opened Records
  import opened CmNet

  const ECONNRESET: int := -104
  const ECONNREFUSED: int := -111
  const ECANCELED: int := -125

  /** Each buffer that left the ring is with the user or freed, and was freed once. */
  ghost predicate Owners(arrived: seq<nat>, popped: nat, given: seq<nat>, freed: seq<nat>) {
    && popped <= |arrived| && NoRepeat(arrived) && NoRepeat(freed)
    && (forall b: nat :: b in given ==> b !in freed)
    && (forall b: nat :: b in arrived[..popped] <==> b in given || b in freed)
  }

  class Channel {
    var state: ChState
    const buf: array<Option<nat>>
    var head: nat
    var tail: nat
    var count: nat
    const inuse: array<Option<nat>>
    var inuseCnt: nat
    var acceptQueue: seq<Addr>
    /** The completion: tokens, or open for all. */
    var tokens: nat
    var allDone: bool
    /** A connect call waits for its answer. */
    ghost var connecting: bool
    /** Receivers and accepters that took a token and have not gone on yet. */
    ghost var wokenRecv: nat
    ghost var wokenAccept: nat
    /** Buffers in order of arrival, how many left the ring, those with the user, and those freed. */
    ghost var arrived: seq<nat>
    ghost var popped: nat
    ghost var given: seq<nat>
    ghost var freed: seq<nat>

    ghost predicate Rings()
      reads this, buf, inuse
    {
      && buf.Length == inuse.Length == RING_SIZE && buf != inuse
      && Held(buf[..], arrived, popped) && head == Slot(|arrived|) && tail == Slot(popped)
      && count == |arrived| - popped
      && Recorded(inuse[..], given) && inuseCnt == |given| && Owners(arrived, popped, given, freed)
    }

    /** Until it closes: on a connected channel, tokens and woken receivers are the messages in the ring,
        with one more for a connect call that was answered; on a listening one, tokens and woken accepters
        never exceed the waiting requests. */
    ghost predicate Tokens()
      reads this
    {
      && (state == Connected ==>
            !allDone && tokens + wokenRecv == count + (if connecting then 1 else 0) && (connecting ==> wokenRecv == 0))
      && (state == ChState.Connect ==>
            !allDone && count == 0 && wokenRecv == 0 && tokens <= (if connecting then 1 else 0))
      && (state == ChState.Listen ==> !allDone && tokens + wokenAccept <= |acceptQueue|)
      && (state == Idle || state == ChanBound ==>
            !allDone && tokens == wokenRecv == wokenAccept == count == 0 && acceptQueue == [])
    }

    ghost predicate Valid()
      reads this, buf, inuse
    {
      Rings() && Tokens()
    }

    /** `riocm_ch_alloc`; the channel for an accepted request is connected at once. */
    constructor (accepted: bool)
      ensures Valid() && fresh(buf) && fresh(inuse) && state == (if accepted then Connected else Idle)
      ensures arrived == given == freed == [] && !connecting && wokenRecv == wokenAccept == 0
      ensures tokens == count == inuseCnt == 0 && !allDone && acceptQueue == []
    {
      state := if accepted then Connected else Idle;
      buf := new Option<nat>[RING_SIZE](_ => None);
      inuse := new Option<nat>[RING_SIZE](_ => None);
      head, tail, count, inuseCnt, acceptQueue, tokens, allDone := 0, 0, 0, 0, [], 0, false;
      connecting, wokenRecv, wokenAccept, arrived, popped, given, freed := false, 0, 0, [], 0, [], [];
      new;
      AllEmpty(inuse[..]);
    }

    // ----- messages

    /** `rio_rx_data_handler`: a message that cannot be kept is freed at once by the handler. */
    method DataHandler(b: nat) returns (rc: int)
      requires Valid() && b !in arrived
      modifies this`head, this`count, this`tokens, this`arrived, buf
      ensures Valid() && rc == (if state != Connected then EIO else if old(count) == RING_SIZE then ENOMEM else 0)
      ensures arrived == (if rc == 0 then old(arrived) + [b] else old(arrived)) && count == |arrived| - popped
      ensures tokens == old(tokens) + if rc == 0 then 1 else 0
    {
      hide Held, Recorded, Slot;
      if state != Connected {
        return EIO;
      }
      if count == RING_SIZE {
        return ENOMEM;
      }
      CountFits();
      ghost var was := buf[..];
      HeldMore(was, arrived, popped, b);
      buf[head] := Some(b);
      assert buf[..] == was[head := Some(b)];
      NextSlot(|arrived|);
      OwnersArrive(arrived, popped, given, freed, b);
      arrived := arrived + [b];
      head := head + 1;
      count := count + 1;
      head := head % RING_SIZE;
      tokens := tokens + 1;
      rc := 0;
    }

    lemma {:induction false} CountFits()
      requires Rings()
      ensures |arrived| <= popped + RING_SIZE
    {
    }

    /** The wait of `riocm_ch_receive` ends with a token.  On a channel that asked for its connection,
        receivers come after the connect call. */
    method ReceiveWake()
      requires Valid() && !connecting && (tokens > 0 || allDone)
      requires state !in {Idle, ChanBound, ChState.Connect, ChState.Listen}
      modifies this`tokens, this`wokenRecv
      ensures Valid() && wokenRecv == old(wokenRecv) + 1 && tokens == old(tokens) - if allDone then 0 else 1
    {
      if !allDone {
        tokens := tokens - 1;
      }
      wokenRecv := wokenRecv + 1;
    }

    /** The rest of `riocm_ch_receive`: on a connected channel there is a message for every woken
        receiver, and they get them in order of arrival. */
    method ReceiveFinish() returns (rc: int, msg: Option<nat>)
      requires Valid() && wokenRecv > 0
      modifies this`wokenRecv, this`tail, this`count, this`inuseCnt, this`popped, this`given, this`freed, buf, inuse
      ensures Valid() && wokenRecv == old(wokenRecv) - 1 && arrived == old(arrived)
      ensures rc == (if state != Connected then ECONNRESET else if old(inuseCnt) == RING_SIZE then ENOMEM else 0)
      ensures state == Connected ==> old(count) > 0 && old(popped) < |arrived| && popped == old(popped) + 1
      ensures rc == 0 ==>
                msg == Some(arrived[old(popped)]) && given == old(given) + [arrived[old(popped)]] && freed == old(freed)
      ensures rc == ENOMEM ==> msg == None && freed == old(freed) + [arrived[old(popped)]] && given == old(given)
      ensures rc == ECONNRESET ==> msg == None && popped == old(popped) && given == old(given) && freed == old(freed)
    {
      hide Held, Recorded, Slot, Owners;
      wokenRecv := wokenRecv - 1;
      if state != Connected {
        return ECONNRESET, None;
      }
      msg := PopRing();
      var i := FindEmpty();
      if i < RING_SIZE {
        RecordMore(inuse[..], given, i, msg.value);
        ghost var was := inuse[..];
        inuse[i] := msg;
        assert inuse[..] == was[i := msg];
        inuseCnt := inuseCnt + 1;
        given := given + [msg.value];
        rc := 0;
      } else {
        freed := freed + [msg.value];
        msg := None;
        rc := ENOMEM;
      }
    }

    /** Takes the oldest message out of the ring. */
    method PopRing() returns (msg: Option<nat>)
      requires Rings() && count > 0
      modifies this`tail, this`count, this`popped, buf
      ensures old(popped) < |arrived| && popped == old(popped) + 1 && count == old(count) - 1
      ensures msg == Some(arrived[old(popped)]) && arrived[old(popped)] !in given
      ensures Held(buf[..], arrived, popped) && head == Slot(|arrived|) && tail == Slot(popped)
      ensures count == |arrived| - popped
      ensures Owners(arrived, popped, given + [arrived[old(popped)]], freed)
      ensures Owners(arrived, popped, given, freed + [arrived[old(popped)]])
    {
      hide Recorded, Slot, Owners;
      OwnersPop(arrived, popped, given, freed);
      HeldLess(buf[..], arrived, popped);
      NextSlot(popped);
      msg := buf[tail];
      ghost var was := buf[..];
      buf[tail] := None;
      assert buf[..] == was[tail := None];
      count := count - 1;
      tail := tail + 1;
      tail := tail % RING_SIZE;
      popped := popped + 1;
    }

    /** The first free entry for a buffer given to the user. */
    method FindEmpty() returns (i: nat)
      requires inuse.Length == RING_SIZE && Recorded(inuse[..], given) && inuseCnt == |given|
      ensures i <= RING_SIZE && (i == RING_SIZE <==> inuseCnt == RING_SIZE) && (i < RING_SIZE ==> inuse[i] == None)
    {
      i := 0;
      SomeEmpty(inuse[..]);
      while i < RING_SIZE && inuse[i] != None
        invariant i <= RING_SIZE && forall j: nat :: j < i ==> inuse[j] != None
      {
        i := i + 1;
      }
    }

    /** `riocm_ch_free_rxbuf`: frees a buffer that the user has, once. */
    method FreeRxbuf(b: nat) returns (rc: int)
      requires Valid()
      modifies this`inuseCnt, this`given, this`freed, inuse
      ensures Valid() && (rc == 0 <==> b in old(given)) && arrived == old(arrived) && popped == old(popped)
      ensures if rc == 0 then freed == old(freed) + [b] && b !in given
            && (forall x: nat :: x in given <==> x in old(given) && x != b)
              else rc == CmNet.EINVAL && freed == old(freed) && given == old(given)
    {
      hide Held, Recorded, Slot, Owners;
      var i: nat := 0;
      while i < RING_SIZE && inuse[i] != Some(b)
        invariant i <= RING_SIZE && (forall j: nat :: j < i ==> inuse[j] != Some(b)) && Valid()
        invariant inuse[..] == old(inuse[..]) && given == old(given) && freed == old(freed) && inuseCnt == old(inuseCnt)
      {
        i := i + 1;
      }
      if i == RING_SIZE {
        NotRecorded(inuse[..], given, b);
        return CmNet.EINVAL;
      }
      ghost var k := RecordAt(inuse[..], given, i);
      RecordLess(inuse[..], given, i, k);
      OwnersFree(arrived, popped, given, freed, k);
      ghost var was := inuse[..];
      inuse[i] := None;
      assert inuse[..] == was[i := None];
      inuseCnt := inuseCnt - 1;
      given, freed := Drop(given, k), freed + [b];
      rc := 0;
    }

    // ----- requests on a listening channel

    method Bind()
      requires Valid() && state == Idle
      modifies this`state
      ensures Valid() && state == ChanBound
    {
      state := ChanBound;
    }

    method Listen()
      requires Valid() && state == ChanBound
      modifies this`state
      ensures Valid() && state == ChState.Listen
    {
      state := ChState.Listen;
    }

    /** `riocm_req_handler` for a listening channel. */
    method ReqHandler(req: Addr) returns (rc: int)
      requires Valid()
      modifies this`acceptQueue, this`tokens
      ensures Valid() && (rc == 0 <==> state == ChState.Listen)
      ensures if rc == 0 then acceptQueue == old(acceptQueue) + [req] && tokens == old(tokens) + 1
              else rc == CmNet.EINVAL && acceptQueue == old(acceptQueue) && tokens == old(tokens)
    {
      hide Held, Recorded, Slot, Owners;
      if state != ChState.Listen {
        return CmNet.EINVAL;
      }
      acceptQueue := acceptQueue + [req];
      tokens := tokens + 1;
      rc := 0;
    }

    /** The wait of `riocm_ch_accept`, or its attempt without waiting, ends with a token. */
    method AcceptWake()
      requires Valid() && (tokens > 0 || allDone)
      requires (state == ChState.Listen || state == Disconnect || state == Destroying)
      modifies this`tokens, this`wokenAccept
      ensures Valid() && wokenAccept == old(wokenAccept) + 1 && tokens == old(tokens) - if allDone then 0 else 1
    {
      hide Held, Recorded, Slot, Owners;
      if !allDone {
        tokens := tokens - 1;
      }
      wokenAccept := wokenAccept + 1;
    }

    /** The rest of `riocm_ch_accept`: while the channel listens, a woken accepter always finds a
        request, and requests are taken in order. */
    method AcceptFinish(allocOk: bool) returns (rc: int, req: Option<Addr>)
      requires Valid() && wokenAccept > 0
      modifies this`acceptQueue, this`wokenAccept
      ensures Valid() && wokenAccept == old(wokenAccept) - 1
      ensures rc == (if state != ChState.Listen then ECANCELED else if !allocOk then ENOMEM else 0)
      ensures state == ChState.Listen ==> old(acceptQueue) != []
      ensures if rc == 0 then req == Some(old(acceptQueue)[0]) && acceptQueue == old(acceptQueue)[1..]
              else req == None && acceptQueue == old(acceptQueue)
    {
      hide Held, Recorded, Slot, Owners;
      wokenAccept := wokenAccept - 1;
      if state != ChState.Listen {
        return ECANCELED, None;
      }
      if !allocOk {
        return ENOMEM, None;
      }
      req := Some(acceptQueue[0]);
      acceptQueue := acceptQueue[1..];
      rc := 0;
    }

    // ----- connecting

    method Connect()
      requires Valid() && state == Idle
      modifies this`state, this`connecting
      ensures Valid() && state == ChState.Connect && connecting
    {
      state, connecting := ChState.Connect, true;
    }

    /** `riocm_resp_handler`, for the one answer that a request gets. */
    method RespHandler(ack: bool) returns (rc: int)
      requires Valid() && (state == ChState.Connect ==> connecting && tokens == 0)
      modifies this`state, this`tokens
      ensures Valid() && (rc == 0 <==> old(state) == ChState.Connect)
      ensures state == if rc == 0 && ack then Connected else old(state)
      ensures tokens == old(tokens) + if rc == 0 then 1 else 0
    {
      hide Held, Recorded, Slot, Owners;
      if state != ChState.Connect {
        return CmNet.EINVAL;
      }
      if ack {
        state := Connected;
      }
      tokens := tokens + 1;
      rc := 0;
    }

    /** The connect call goes on with the token of its answer. */
    method ConnectFinish() returns (rc: int)
      requires Valid() && connecting && (tokens > 0 || allDone)
      modifies this`tokens, this`connecting
      ensures Valid() && !connecting && rc == if state == Connected then 0 else ECONNREFUSED
      ensures tokens == old(tokens) - if allDone then 0 else 1
    {
      hide Held, Recorded, Slot, Owners;
      if !allDone {
        tokens := tokens - 1;
      }
      connecting := false;
      rc := if state == Connected then 0 else ECONNREFUSED;
    }

    // ----- the end

    /** `riocm_ch_close`: from here on all waits end, and no one takes a message any more. */
    method Close()
      requires Valid()
      modifies this`state, this`allDone
      ensures Valid() && state == Destroying && allDone
    {
      state, allDone := Destroying, true;
    }

    /** `riocm_ch_free`, when no one uses the channel any more: what the user or the ring still has is
        freed, so that every message that was kept has been freed exactly once. */
    method Free()
      requires Rings()
      modifies this`inuseCnt, this`count, this`freed
      ensures NoRepeat(freed) && (forall b: nat :: b in arrived <==> b in freed) && old(freed) <= freed
      ensures inuseCnt == 0 && count == 0
    {
      hide Held, Slot, Owners;
      HeldCount(buf[..], arrived, popped);
      FreeInuse();
      FreeRing();
      AllFreed(buf[..], inuse[..], arrived, popped, given, old(freed));
    }

    /** The loop over the buffers with the user, and the same over the ring. */
    method FreeInuse()
      requires inuse.Length == RING_SIZE && inuseCnt == |Somes(inuse[..])|
      modifies this`inuseCnt, this`freed
      ensures inuseCnt == 0 && freed == old(freed) + Somes(inuse[..])
    {
      if inuseCnt > 0 {
        var i: nat := 0;
        assert inuse[0..] == inuse[..];
        while i < RING_SIZE && inuseCnt > 0
          invariant i <= RING_SIZE && inuseCnt == |Somes(inuse[i..])|
          invariant freed + Somes(inuse[i..]) == old(freed) + Somes(inuse[..])
        {
          OneFreed(inuse[..], i, freed);
          if inuse[i].Some? {
            freed := freed + [inuse[i].value];
            inuseCnt := inuseCnt - 1;
          }
          i := i + 1;
        }
      }
    }

    method FreeRing()
      requires buf.Length == RING_SIZE && count == |Somes(buf[..])|
      modifies this`count, this`freed
      ensures count == 0 && freed == old(freed) + Somes(buf[..])
    {
      if count > 0 {
        var i: nat := 0;
        assert buf[0..] == buf[..];
        while i < RING_SIZE && count > 0
          invariant i <= RING_SIZE && count == |Somes(buf[i..])|
          invariant freed + Somes(buf[i..]) == old(freed) + Somes(buf[..])
        {
          OneFreed(buf[..], i, freed);
          if buf[i].Some? {
            freed := freed + [buf[i].value];
            count := count - 1;
          }
          i := i + 1;
        }
      }
    }
  }

  lemma {:induction false} OneFreed(bufs: seq<Option<nat>>, i: nat, freed: seq<nat>)
    requires i < |bufs|
    ensures |Somes(bufs[i..])| == |Somes(bufs[i + 1..])| + if bufs[i].Some? then 1 else 0
    ensures freed + Somes(bufs[i..]) == (if bufs[i].Some? then freed + [bufs[i].value] else freed)
          + Somes(bufs[i + 1..])
  {
    SomesAt(bufs, i);
  }

  /** As many full slots as entries. */
  lemma {:induction false} HeldCount(slots: seq<Option<nat>>, entries: seq<nat>, a: nat)
    requires Held(slots, entries, a)
    ensures Empties(slots) == RING_SIZE - (|entries| - a)
    decreases |entries| - a
  {
    if a == |entries| {
      AllEmpty(slots);
    } else {
      HeldLess(slots, entries, a);
      EmptiesChange(slots, Slot(a), None);
      HeldCount(slots[Slot(a) := None], entries, a + 1);
    }
  }

  lemma {:induction false} HeldIs(slots: seq<Option<nat>>, entries: seq<nat>, a: nat)
    requires Held(slots, entries, a) && NoRepeat(entries)
    ensures forall b: nat :: Some(b) in slots <==> b in entries[a..]
    ensures forall i: nat, j: nat :: i < j < |slots| && slots[i].Some? ==> slots[i] != slots[j]
  {
  }

  lemma {:induction false} AllFreed(buf: seq<Option<nat>>, inuse: seq<Option<nat>>, arrived: seq<nat>, popped: nat,
        given: seq<nat>, freed: seq<nat>)
    requires Held(buf, arrived, popped) && Recorded(inuse, given) && Owners(arrived, popped, given, freed)
    ensures var all := freed + Somes(inuse) + Somes(buf);
            NoRepeat(all) && forall b: nat :: b in arrived <==> b in all
  {
    HeldIs(buf, arrived, popped);
    SomesOnce(buf);
    SomesOnce(inuse);
    assert arrived == arrived[..popped] + arrived[popped..];
    forall b: nat | b in Somes(buf) ensures b !in freed && b !in Somes(inuse) {
      assert b !in arrived[..popped];
    }
    NoRepeatConcat(freed, Somes(inuse));
    NoRepeatConcat(freed + Somes(inuse), Somes(buf));
  }

  lemma {:induction false} NoRepeatConcat(p: seq<nat>, q: seq<nat>)
    requires NoRepeat(p) && NoRepeat(q) && forall x <- q :: x !in p
    ensures NoRepeat(p + q)
  {
    var all := p + q;
    forall i, j | 0 <= i < j < |all| ensures all[i] != all[j] {
      if i < |p| <= j { assert all[j] in q && all[i] in p; }
    }
  }

  // ----- owners

  lemma {:induction false} OwnersArrive(arrived: seq<nat>, popped: nat, given: seq<nat>, freed: seq<nat>, b: nat)
    requires Owners(arrived, popped, given, freed) && b !in arrived
    ensures Owners(arrived + [b], popped, given, freed)
  {
    assert (arrived + [b])[..popped] == arrived[..popped];
  }

  lemma {:induction false} OwnersPop(arrived: seq<nat>, popped: nat, given: seq<nat>, freed: seq<nat>)
    requires Owners(arrived, popped, given, freed) && popped < |arrived|
    ensures Owners(arrived, popped + 1, given + [arrived[popped]], freed)
    ensures Owners(arrived, popped + 1, given, freed + [arrived[popped]])
    ensures arrived[popped] !in given
  {
    var b := arrived[popped];
    assert arrived[..popped + 1] == arrived[..popped] + [b];
    assert b !in arrived[..popped];
  }

  lemma {:induction false} OwnersFree(arrived: seq<nat>, popped: nat, given: seq<nat>, freed: seq<nat>, k: nat)
    requires Owners(arrived, popped, given, freed) && k < |given|
    requires forall j: nat :: j < |given| && j != k ==> given[j] != given[k]
    ensures Owners(arrived, popped, Drop(given, k), freed + [given[k]])
    ensures forall x: nat :: x in Drop(given, k) <==> x in given && x != given[k]
  {
    var b := given[k];
    assert b in given && b !in freed;
    NoRepeatConcat(freed, [b]);
    forall x: nat ensures x in Drop(given, k) <==> x in given && x != b {
      if x in given && x != b {
        var j: nat :| j < |given| && given[j] == x;
        assert x == Drop(given, k)[if j < k then j else j - 1];
      }
      if x in Drop(given, k) {
        var j: nat :| j < |given| - 1 && Drop(given, k)[j] == x;
        assert x == given[if j < k then j else j + 1];
      }
    }
  }
}
