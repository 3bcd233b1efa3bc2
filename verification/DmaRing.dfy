/** The descriptor ring of a Tsi721 block-DMA channel and the compiler of scatter lists into it. */
module DmaRing {
  import opened DmaDescriptors
  import opened Arith

  const EIO: int := -5
  const EINVAL: int := -22

  /** What the hardware does while its counter goes from `from` to `end`; slot by slot, around the ring. */
  ghost function Exec(bd: seq<Bd>, from: nat, end: nat): (r: seq<Move>)
    requires |bd| > 0
    decreases end
  {
    if end <= from then [] else Exec(bd, from, end - 1) + Effect(bd[(end - 1) % |bd|])
  }

  /** How many of the counters in `from..end` stand for slots other than the link slot. */
  ghost function Issued(n: nat, from: nat, end: nat): (r: nat)
    requires n > 0
    ensures end >= from ==> r <= end - from
    decreases end
  {
    if end <= from then 0 else Issued(n, from, end - 1) + if (end - 1) % n == n - 1 then 0 else 1
  }

  lemma {:induction false} ExecSplit(bd: seq<Bd>, from: nat, mid: nat, end: nat)
    requires |bd| > 0 && from <= mid <= end
    ensures Exec(bd, from, end) == Exec(bd, from, mid) + Exec(bd, mid, end)
    decreases end
  {
    hide Effect;
    if end > mid { ExecSplit(bd, from, mid, end - 1); }
  }

  lemma {:induction false} ExecFirst(bd: seq<Bd>, from: nat, end: nat)
    requires |bd| > 0 && from < end
    ensures Exec(bd, from, end) == Effect(bd[from % |bd|]) + Exec(bd, from + 1, end)
  {
    hide Effect;
    ExecSplit(bd, from, from + 1, end);
    assert Exec(bd, from, from) == [];
    assert Exec(bd, from, from + 1) == Exec(bd, from, from) + Effect(bd[from % |bd|]);
  }

  /** Only the slots in the range matter. */
  lemma {:induction false} ExecFrame(a: seq<Bd>, b: seq<Bd>, from: nat, end: nat)
    requires |a| == |b| > 0 && forall c: nat :: from <= c < end ==> a[c % |a|] == b[c % |a|]
    ensures Exec(a, from, end) == Exec(b, from, end)
    decreases end
  {
    if end > from { ExecFrame(a, b, from, end - 1); }
  }

  /** Filling the slot of a later counter, less than a round away, changes nothing. */
  lemma {:induction false} ExecFill(bd: seq<Bd>, from: nat, end: nat, next: nat, b: Bd)
    requires |bd| > 0 && from <= end <= next < from + |bd|
    ensures Exec(bd[next % |bd| := b], from, end) == Exec(bd, from, end)
  {
    forall c: nat | from <= c < end ensures c % |bd| != next % |bd| { SlotsDiffer(c, next, |bd|); }
    ExecFrame(bd, bd[next % |bd| := b], from, end);
  }

  /** From one data slot to the next, past the link slot. */
  lemma {:induction false} Step(from: nat, next: nat, n: nat)
    requires 1 < n && from % n != n - 1 && next % n != n - 1 && from <= next < from + n
    ensures next % n != n - 2 ==> (next + 1) % n == next % n + 1
    ensures next % n == n - 2 ==> (next + 1) % n == n - 1 && (next + 2) % n == 0 && next + 2 <= from + n
  {
    NextSlot(next, n);
    NextSlot(next + 1, n);
    RoundSlot(from, n);
  }

  /** A round that starts and ends off the link slot passes it: at most `n - 1` slots are data. */
  lemma {:induction false} IssuedBound(n: nat, from: nat, end: nat)
    requires 1 < n && from <= end <= from + n && from % n != n - 1
    ensures Issued(n, from, end) <= n - 1
  {
    if end == from + n {
      var link := from + (n - 1 - from % n);
      DivMod(from, n);
      ModIs(link, from / n, n - 1, n);
      IssuedSkips(n, from, link, end);
    }
  }

  lemma {:induction false} IssuedSkips(n: nat, from: nat, link: nat, end: nat)
    requires 1 < n && from <= link < end && link % n == n - 1
    ensures Issued(n, from, end) <= end - from - 1
    decreases end
  {
    if end - 1 > link { IssuedSkips(n, from, link, end - 1); }
  }

  /** There is one link slot in a round. */
  lemma {:induction false} IssuedRound(n: nat, from: nat, end: nat)
    requires 1 < n && from <= end <= from + n
    ensures Issued(n, from, end) >= end - from - 1
    ensures (forall c: nat :: from <= c < end ==> c % n != n - 1) ==> Issued(n, from, end) == end - from
    decreases end
  {
    if end > from {
      IssuedRound(n, from, end - 1);
      if (end - 1) % n == n - 1 {
        forall c: nat | from <= c < end - 1 ensures c % n != n - 1 { SlotsDiffer(c, end - 1, n); }
      }
    }
  }

  /** Of a whole round all slots but the link are data. */
  lemma {:induction false} IssuedAll(n: nat, from: nat)
    requires 1 < n && from % n != n - 1
    ensures Issued(n, from, from + n) == n - 1
  {
    IssuedRound(n, from, from + n);
    IssuedBound(n, from, from + n);
  }

  /** The step past a data slot, and past the link slot if that follows. */
  lemma {:induction false} IssuedMore(n: nat, from: nat, next: nat, added: nat)
    requires 1 < n && from <= next && next % n != n - 1
    requires added == 1 || (added == 2 && (next + 1) % n == n - 1)
    ensures Issued(n, from, next + added) == Issued(n, from, next) + 1
  {
    assert Issued(n, from, next + 1) == Issued(n, from, next) + 1;
  }

  class Ring {
    const bdNum: nat
    const sysSize: nat
    /** The bus address of the ring. */
    const phys: nat
    const bd: array<Bd>
    var drdcnt: nat
    var dwrcnt: nat
    var wrCount: nat
    var wrCountNext: nat

    /** The extra last slot holds the link, and the write counter does not rest on it. */
    ghost predicate Valid()
      reads this, bd
    {
      && 1 <= bdNum && bd.Length == bdNum + 1 && sysSize < 2
      && Effect(bd[bdNum]) == [] && bd[bdNum].raddrHi * TWO32 + bd[bdNum].raddrLo == phys / 32 * 32
      && wrCountNext % (bdNum + 1) != bdNum
      && wrCount == dwrcnt && drdcnt <= dwrcnt
    }

    /** `tsi721_dma_is_idle`. */
    predicate Idle()
      reads this
    {
      drdcnt == dwrcnt
    }

    constructor (bdNum: nat, sysSize: nat, phys: nat)
      requires 1 <= bdNum && sysSize < 2
      ensures Valid() && fresh(bd) && Idle() && wrCount == wrCountNext == 0 && this.bdNum == bdNum
      ensures this.sysSize == sysSize && this.phys == phys
    {
      this.bdNum, this.sysSize, this.phys := bdNum, sysSize, phys;
      drdcnt, dwrcnt, wrCount, wrCountNext := 0, 0, 0, 0;
      bd := new Bd[bdNum + 1](i =>
            if i == bdNum then Bd(DTYPE3 * 0x2000_0000, 0, phys % TWO32 / 32 * 32, phys / TWO32, 0, 0)
            else Bd(0, 0, 0, 0, 0, 0));
      new;
      Small(bdNum + 1);
      LinkWords(phys);
    }

    /** `tsi721_start_dma`. */
    method StartDma()
      requires Valid()
      modifies this`dwrcnt, this`wrCount
      ensures var start := old(Idle() && wrCount != wrCountNext);
              dwrcnt == wrCount && wrCount == if start then wrCountNext else old(wrCount)
    {
      if !Idle() {
        return;
      }
      if wrCount == wrCountNext {
        return;
      }
      dwrcnt := wrCountNext;
      wrCount := wrCountNext;
    }

    /** One descriptor is carried out by the hardware. */
    method Execute() returns (ghost moved: seq<Move>)
      requires Valid() && !Idle()
      modifies this`drdcnt
      ensures Valid() && drdcnt == old(drdcnt) + 1
      ensures moved + Exec(bd[..], drdcnt, dwrcnt) == old(Exec(bd[..], drdcnt, dwrcnt))
    {
      hide Effect, Exec;
      moved := Effect(bd[drdcnt % bd.Length]);
      ExecFirst(bd[..], drdcnt, dwrcnt);
      drdcnt := drdcnt + 1;
    }

    function Slot(counter: nat): nat { counter % (bdNum + 1) }

    /** The descriptor for counter `pos`, as filled so far, moves `bcount` bytes from `start`; it is the
        last one before `next`. */
    ghost predicate Open(tx: Tx, pos: nat, next: nat, start: nat, bcount: nat)
      reads bd
      requires bd.Length == bdNum + 1
    {
      && pos < next && Slot(pos) != bdNum
      && (next == pos + 1 || (next == pos + 2 && Slot(pos + 1) == bdNum))
      && bd[Slot(pos)] == InitBd(tx, start, sysSize) && bcount <= MAX_BCOUNT
    }

    /** Up to entry `i` of the list of `tx0` all is in descriptors for the counters from `from`, with
        `bcount` bytes from `start` in the open one. */
    ghost predicate Filling(tx0: Tx, tx: Tx, i: nat, from: nat, pos: nat, next: nat, start: nat, bcount: nat)
      reads bd
      requires bd.Length == bdNum + 1 && i <= |tx0.sg|
    {
      && Open(tx, pos, next, start, bcount) && from <= pos && tx == tx0.(rioAddr := tx.rioAddr) && tx.rioAddr < TWO64
      && Pending(tx0, tx, i, start, bcount, Exec(bd[..], from, pos))
    }

    /** The same with no descriptor open. */
    ghost predicate Filled(tx0: Tx, i: nat, rioAddr: nat, from: nat, next: nat)
      reads bd
      requires bd.Length == bdNum + 1 && i <= |tx0.sg|
    {
      Whole(tx0, i, rioAddr, Exec(bd[..], from, next))
    }

    /** `tsi721_desc_fill_end` for the open descriptor. */
    method FillEnd(tx0: Tx, tx: Tx, ghost i: nat, bcount: nat, ghost from: nat, ghost pos: nat, ghost next: nat,
          ghost start: nat, slot: nat)
      requires bd.Length == bdNum + 1 && Effect(bd[bdNum]) == [] && sysSize < 2 && Fits(tx0) && i <= |tx0.sg|
      requires Filling(tx0, tx, i, from, pos, next, start, bcount) && slot == Slot(pos) && next <= from + bdNum + 1
      requires i < |tx0.sg| ==> !Joins(Sg(start, bcount), tx0.sg[i])
      modifies bd
      ensures bd[bdNum] == old(bd[bdNum]) && Filled(tx0, i, tx.rioAddr + bcount, from, next)
    {
      hide Fits, Run, RunMoves, Merged, Compiled, RioAddr, Effect, InitBd, EndBd, Whole, Pending;
      Widths(tx0);
      Closed(tx0, tx, i, start, bcount, Exec(bd[..], from, pos));
      ghost var done := Exec(bd[..], from, pos);
      bd[slot] := EndBd(bd[slot], bcount);
      FilledEffect(tx, start, sysSize, bcount);
      assert bd[..] == old(bd[..])[slot := bd[slot]];
      ExecFill(old(bd[..]), from, pos, pos, bd[slot]);
      assert Exec(bd[..], from, pos + 1) == Exec(bd[..], from, pos) + Effect(bd[slot]);
      if next == pos + 2 {
        assert Exec(bd[..], from, next) == Exec(bd[..], from, pos + 1) + Effect(bd[bdNum]);
      }
      assert Exec(bd[..], from, next) == done + Burst(tx.destid, tx.rtype, RioAddr(tx), start, bcount);
    }

    /** `tsi721_desc_fill_init` for entry `i` in the next free slot, and the step past it. */
    method FillInit(tx0: Tx, tx: Tx, i: nat, idx: nat, ghost from: nat, ghost next: nat) returns (idx': nat, added: nat)
      requires bd.Length == bdNum + 1 && 1 <= bdNum && idx == Slot(next) != bdNum && Slot(from) != bdNum
      requires from <= next < from + bdNum + 1 && i < |tx0.sg| && Fits(tx0) && Filled(tx0, i, tx.rioAddr, from, next)
      requires tx == tx0.(rioAddr := tx.rioAddr) && tx.rioAddr < TWO64 && tx0.sg[i].len <= MAX_BCOUNT
      modifies bd
      ensures bd[bdNum] == old(bd[bdNum])
      ensures Filling(tx0, tx, i + 1, from, next, next + added, tx0.sg[i].addr, tx0.sg[i].len)
      ensures idx' == Slot(next + added) != bdNum && 1 <= added && next + added <= from + bdNum + 1
      ensures Issued(bdNum + 1, from, next + added) == Issued(bdNum + 1, from, next) + 1
    {
      hide Fits, Run, RunMoves, Merged, Compiled, RioAddr, InitBd, Whole, Pending, Exec;
      Begin(tx0, tx, i, Exec(bd[..], from, next));
      bd[idx] := InitBd(tx, tx0.sg[i].addr, sysSize);
      assert bd[..] == old(bd[..])[idx := bd[idx]];
      ExecFill(old(bd[..]), from, next, next, bd[idx]);
      Step(from, next, bdNum + 1);
      added, idx' := 1, idx + 1;
      if idx' == bdNum {
        idx' := 0;
        added := 2;
      }
      IssuedMore(bdNum + 1, from, next, added);
    }

    lemma {:induction false} FullRound(c: nat)
      ensures Slot(c + bdNum + 1) == Slot(c)
    {
      RoundSlot(c, bdNum + 1);
    }

    /** Another entry joins the open descriptor. */
    lemma {:induction false} Joined(tx0: Tx, tx: Tx, i: nat, from: nat, pos: nat, next: nat, start: nat, bcount: nat)
      requires bd.Length == bdNum + 1 && i < |tx0.sg| && Fits(tx0)
      requires Filling(tx0, tx, i, from, pos, next, start, bcount)
      requires Joins(Sg(start, bcount), tx0.sg[i])
      ensures Filling(tx0, tx, i + 1, from, pos, next, start, bcount + tx0.sg[i].len)
    {
      hide Pending, Exec;
      Merge(tx0, tx, i, start, bcount, Exec(bd[..], from, pos));
    }

    /** `tsi721_submit_sg` on the rest `tx0` of a transfer: it fills one descriptor for each merged run, until
        the ring is full, and leaves the rest of the list in `tx`. */
    method SubmitSg(tx0: Tx) returns (err: int, tx: Tx)
      requires Valid() && tx0.sg != [] && Fits(tx0) && wrCountNext == wrCount
      modifies this`wrCountNext, bd
      ensures Valid() && (err == EIO <==> !old(Idle())) && (err == 0 || err == EIO || err == EINVAL)
      ensures err == EINVAL <==> old(Idle()) && MeetsTooLarge(bdNum + 1, tx0.sg)
      ensures err != 0 ==> wrCountNext == old(wrCountNext)
      ensures err == 0 ==>
                && tx == tx0.(sg := tx.sg, rioAddr := tx.rioAddr) && |tx.sg| < |tx0.sg|
                && tx.sg == tx0.sg[|tx0.sg| - |tx.sg|..] && Fits(tx)
                && Exec(bd[..], old(wrCountNext), wrCountNext) + Compiled(tx) == Compiled(tx0)
                && old(wrCountNext) < wrCountNext && EntriesFit(tx0.sg[..|tx0.sg| - |tx.sg|])
      ensures err == 0 ==>
                var k := Issued(bdNum + 1, old(wrCountNext), wrCountNext);
                && 0 < k == (if |Runs(tx0.sg)| <= bdNum then |Runs(tx0.sg)| else bdNum)
                && Runs(tx.sg) == Runs(tx0.sg)[k..] && (tx.sg == [] <==> |Runs(tx0.sg)| <= bdNum)
    {
      hide Fits, Effect, Compiled, Exec, Issued, Runs, MeetsTooLarge;
      tx, err := tx0, 0;
      if !Idle() {
        return EIO, tx;
      }
      var rdIdx := drdcnt % (bdNum + 1);
      var idx, addCount := FirstSlot();
      var added: nat;
      err, tx, added := FillList(tx0, idx, rdIdx);
      if err == 0 {
        SomeRuns(tx0.sg, tx.sg);
        MeetsNone(bdNum + 1, tx0.sg, |tx0.sg| - |tx.sg|, wrCountNext, wrCountNext + added);
        wrCountNext := wrCountNext + (addCount + added);
      }
    }

    method FirstSlot() returns (idx: nat, addCount: nat)
      ensures wrCountNext % (bdNum + 1) != bdNum ==> idx == wrCountNext % (bdNum + 1) && addCount == 0
      ensures wrCountNext % (bdNum + 1) == bdNum ==> idx == 0 && addCount == 1
    {
      idx, addCount := wrCountNext % (bdNum + 1), 0;
      if idx == bdNum {
        idx := 0;
        addCount := addCount + 1;
      }
    }

    /** The descriptors for the counters from `from` to `next` and the rest `tx` of the transfer make up the
        whole `tx0`. */
    ghost predicate Split(tx0: Tx, tx: Tx, from: nat, next: nat)
      reads bd
      requires bd.Length == bdNum + 1
    {
      && tx == tx0.(sg := tx.sg, rioAddr := tx.rioAddr) && |tx.sg| < |tx0.sg|
      && tx.sg == tx0.sg[|tx0.sg| - |tx.sg|..] && Fits(tx)
      && Exec(bd[..], from, next) + Compiled(tx) == Compiled(tx0)
      && IssuedPart(bdNum + 1, tx0.sg, |tx0.sg| - |tx.sg|, from, next)
    }

    /** The loop over the list: from slot `idx` on, up to the slot at which the hardware stands. */
    method FillList(tx0: Tx, idx0: nat, rdIdx: nat) returns (err: int, tx: Tx, addCount: nat)
      requires 1 <= bdNum && bd.Length == bdNum + 1 && sysSize < 2 && Effect(bd[bdNum]) == []
      requires tx0.sg != [] && Fits(tx0) && rdIdx == idx0 == Slot(wrCountNext) != bdNum
      modifies bd
      ensures bd[bdNum] == old(bd[bdNum]) && (err == 0 || err == EINVAL)
      ensures err == EINVAL ==> MeetsTooLarge(bdNum + 1, tx0.sg)
      ensures err == 0 ==>
                && Split(tx0, tx, wrCountNext, wrCountNext + addCount)
                && 0 < addCount <= bdNum + 1 && Slot(wrCountNext + addCount) != bdNum
    {
      hide Fits, Effect, Compiled, Exec, Filling, Filled, InRange, Slot, Issued, Issuing, Split, MeetsTooLarge;
      tx, err, addCount := tx0, 0, 0;
      var idx: nat, i: nat, slot: nat := idx0, 0, 0;
      ghost var from, pos: nat, start: nat := wrCountNext, wrCountNext, 0;
      var rioAddr: nat, nextAddr: nat, bcount: nat := tx.rioAddr, NO_ADDR, 0;
      Started(tx0, bd[..], from);
      assert Filled(tx0, 0, rioAddr, from, from) by { NothingYet(tx0, from); }
      NothingIssued(bdNum + 1, tx0.sg, from, start);
      while i < |tx0.sg|
        invariant i < |tx0.sg| && tx == tx0.(rioAddr := tx.rioAddr) && bd[bdNum] == old(bd[bdNum])
        invariant idx == Slot(from + addCount) != bdNum && addCount <= bdNum + 1
        invariant InRange(rioAddr, tx0.sg[i..])
        invariant Issuing(bdNum + 1, tx0.sg, i, from, from + addCount, start, bcount)
        invariant i == 0 ==> addCount == 0 && nextAddr == NO_ADDR && Filled(tx0, 0, rioAddr, from, from)
        invariant i > 0 ==> Filling(tx0, tx, i, from, pos, from + addCount, start, bcount) && slot == Slot(pos)
        invariant i > 0 ==> nextAddr == start + bcount < NO_ADDR && rioAddr == tx.rioAddr + bcount && 0 < addCount
      {
        var e := tx0.sg[i];
        ListAt(tx0, i, rioAddr);
        if e.len > MAX_BCOUNT {
          TooLarge(tx0, i, from, addCount, start, bcount);
          err := EINVAL;
          break;
        }
        if nextAddr == e.addr && bcount + e.len <= MAX_BCOUNT {
          Joined(tx0, tx, i, from, pos, from + addCount, start, bcount);
          IssuingJoined(bdNum + 1, tx0.sg, i, from, from + addCount, start, bcount);
          bcount := bcount + e.len;
        } else {
          if nextAddr != NO_ADDR {
            FillEnd(tx0, tx, i, bcount, from, pos, from + addCount, start, slot);
          }
          tx := tx.(rioAddr := rioAddr);
          if i != 0 && idx == rdIdx {
            tx := tx.(sg := tx0.sg[i..]);
            Part(tx0, i, rioAddr, from, addCount, tx, start, bcount);
            break;
          }
          slot := idx;
          pos := from + addCount;
          FullRound(from);
          var added: nat;
          idx, added := FillInit(tx0, tx, i, idx, from, pos);
          IssuingOpened(bdNum + 1, tx0.sg, i, from, pos, added, start, bcount);
          start := e.addr;
          nextAddr, bcount := e.addr, e.len;
          addCount := addCount + added;
        }
        if i == |tx0.sg| - 1 {
          FillEnd(tx0, tx, i + 1, bcount, from, pos, from + addCount, start, slot);
          tx := tx.(sg := []);
          NothingInRange(tx.rioAddr, tx0.sg[i + 1..]);
          Part(tx0, i + 1, tx.rioAddr + bcount, from, addCount, tx, start, bcount);
          break;
        } else {
          rioAddr := rioAddr + e.len;
          nextAddr := nextAddr + e.len;
        }
        i := i + 1;
      }
    }

    /** The slot at which the hardware stands is met again only after a whole round. */
    lemma {:induction false} RoundFull(from: nat, addCount: nat)
      requires 1 <= bdNum && 0 < addCount <= bdNum + 1 && Slot(from + addCount) == Slot(from) != bdNum
      ensures Issued(bdNum + 1, from, from + addCount) == bdNum
    {
      if addCount < bdNum + 1 { SlotsDiffer(from, from + addCount, bdNum + 1); }
      IssuedAll(bdNum + 1, from);
    }

    lemma {:induction false} NothingYet(tx0: Tx, from: nat)
      requires bd.Length == bdNum + 1 && Fits(tx0)
      ensures Filled(tx0, 0, tx0.rioAddr, from, from)
    {
      Started(tx0, bd[..], from);
    }

    lemma {:induction false} TooLarge(tx0: Tx, i: nat, from: nat, addCount: nat, start: nat, bcount: nat)
      requires 1 <= bdNum && i < |tx0.sg| && tx0.sg[i].len > MAX_BCOUNT && addCount <= bdNum + 1
      requires Slot(from) != bdNum && Issuing(bdNum + 1, tx0.sg, i, from, from + addCount, start, bcount)
      ensures MeetsTooLarge(bdNum + 1, tx0.sg)
    {
      hide Issued;
      IssuedBound(bdNum + 1, from, from + addCount);
      assert TooLargeAt(bdNum + 1, tx0.sg, i);
    }

    /** What is left after entry `i` is a smaller transfer, and nothing unless the round is complete. */
    lemma {:induction false} Part(tx0: Tx, i: nat, rioAddr: nat, from: nat, addCount: nat, tx: Tx, start: nat,
          bcount: nat)
      requires 1 <= bdNum && bd.Length == bdNum + 1 && 0 < i <= |tx0.sg| && Fits(tx0)
      requires Filled(tx0, i, rioAddr, from, from + addCount)
      requires tx == tx0.(rioAddr := tx.rioAddr, sg := tx0.sg[i..]) && (i < |tx0.sg| ==> tx.rioAddr == rioAddr)
      requires InRange(tx.rioAddr, tx0.sg[i..]) && Issuing(bdNum + 1, tx0.sg, i, from, from + addCount, start, bcount)
      requires 0 < addCount <= bdNum + 1 && Slot(from) != bdNum
      requires i < |tx0.sg| ==>
                 && !Joins(Sg(start, bcount), tx0.sg[i]) && Slot(from + addCount) == Slot(from)
                 && tx0.sg[i].len <= MAX_BCOUNT
      ensures Split(tx0, tx, from, from + addCount)
    {
      hide Exec, InRange, Issuing, Issued, Joins, IssuedPart;
      IssuedBound(bdNum + 1, from, from + addCount);
      if i < |tx0.sg| { RoundFull(from, addCount); }
      IssuingEnds(bdNum + 1, tx0.sg, i, from, from + addCount, start, bcount);
    }
  }

  ghost predicate EntriesFit(sg: seq<Sg>) {
    forall e <- sg :: e.len <= MAX_BCOUNT
  }

  // ----- the runs that are issued and those left

  /** The list from entry `i` on makes all runs but the first `k` of the whole list. */
  ghost predicate LeftRuns(sg: seq<Sg>, i: nat, k: nat) {
    i <= |sg| && k <= |Runs(sg)| && Runs(sg[i..]) == Runs(sg)[k..]
  }

  /** The same with the run before still open. */
  ghost predicate OpenRuns(sg: seq<Sg>, i: nat, k: nat, start: nat, bcount: nat) {
    i <= |sg| && 0 < k <= |Runs(sg)| && Merged(Sg(start, bcount), sg[i..]) == Runs(sg)[k - 1..]
  }

  /** One descriptor for each run up to entry `i`, the last one open; none at first. */
  ghost predicate Issuing(n: nat, sg: seq<Sg>, i: nat, from: nat, next: nat, start: nat, bcount: nat)
    requires n > 0
  {
    && i <= |sg| && EntriesFit(sg[..i])
    && if i == 0 then Issued(n, from, next) == 0
       else OpenRuns(sg, i, Issued(n, from, next), start, bcount)
            && LastRun(sg[..i], Issued(n, from, next), Sg(start, bcount))
  }

  /** One descriptor for each run before entry `i`, and all data slots of a round if there are more. */
  ghost predicate IssuedPart(n: nat, sg: seq<Sg>, i: nat, from: nat, next: nat)
    requires n > 0
  {
    && i <= |sg| && EntriesFit(sg[..i]) && LeftRuns(sg, i, Issued(n, from, next))
    && Issued(n, from, next) < n
    && (i < |sg| ==> Issued(n, from, next) == n - 1 && sg[i].len <= MAX_BCOUNT && |Runs(sg[..i + 1])| == n)
  }

  /** A list makes `k` runs, the last of which is `run`. */
  ghost predicate LastRun(sg: seq<Sg>, k: nat, run: Sg) {
    |Runs(sg)| == k > 0 && Runs(sg)[k - 1] == run
  }

  /** An entry that is too large comes up before all data slots of a round are filled. */
  ghost predicate TooLargeAt(n: nat, sg: seq<Sg>, j: nat) {
    j < |sg| && sg[j].len > MAX_BCOUNT && EntriesFit(sg[..j]) && |Runs(sg[..j])| < n
  }

  ghost predicate MeetsTooLarge(n: nat, sg: seq<Sg>) {
    exists j: nat :: TooLargeAt(n, sg, j)
  }

  lemma {:induction false} MergedSnoc(run: Sg, sg: seq<Sg>, e: Sg)
    ensures var m := Merged(run, sg);
            var last := m[|m| - 1];
            Merged(run, sg + [e]) == if Joins(last, e) then m[|m| - 1 := Sg(last.addr, last.len + e.len)] else m + [e]
    decreases |sg|
  {
    hide Joins;
    if sg == [] {
      assert Merged(e, []) == [e] && sg + [e] == [e] && [e][1..] == [];
    } else {
      assert (sg + [e])[1..] == sg[1..] + [e];
      MergedSnoc(if Joins(run, sg[0]) then Sg(run.addr, run.len + sg[0].len) else sg[0], sg[1..], e);
    }
  }

  /** The next entry joins the last run or starts another. */
  lemma {:induction false} RunsNext(sg: seq<Sg>, i: nat, k: nat, run: Sg)
    requires 0 < i < |sg| && LastRun(sg[..i], k, run)
    ensures if Joins(run, sg[i]) then LastRun(sg[..i + 1], k, Sg(run.addr, run.len + sg[i].len))
            else LastRun(sg[..i + 1], k + 1, sg[i])
  {
    hide Joins, Merged;
    assert sg[..i + 1][0] == sg[..i][0] && sg[..i + 1][1..] == sg[..i][1..] + [sg[i]];
    MergedSnoc(sg[0], sg[..i][1..], sg[i]);
  }

  /** A longer part of a list makes as many runs or more. */
  lemma {:induction false} RunsGrow(sg: seq<Sg>, i: nat, j: nat)
    requires 0 < i <= j <= |sg|
    ensures |Runs(sg[..i])| <= |Runs(sg[..j])|
    decreases j
  {
    hide Joins, Merged;
    if i < j {
      RunsGrow(sg, i, j - 1);
      var m := Runs(sg[..j - 1]);
      SomeRun(sg[..j - 1]);
      RunsNext(sg, j - 1, |m|, m[|m| - 1]);
    }
  }

  lemma {:induction false} SomeRun(sg: seq<Sg>)
    requires sg != []
    ensures Runs(sg) != []
  {
  }

  lemma {:induction false} OneRun(sg: seq<Sg>)
    requires sg != []
    ensures LastRun(sg[..1], 1, sg[0])
  {
    assert sg[..1][1..] == [];
  }

  /** A part of a list that was issued has left no entry behind that is too large. */
  lemma {:induction false} MeetsNone(n: nat, sg: seq<Sg>, i: nat, from: nat, next: nat)
    requires n > 0 && 0 < i && IssuedPart(n, sg, i, from, next)
    ensures !MeetsTooLarge(n, sg)
  {
    hide Runs, Issued;
    forall j: nat ensures !TooLargeAt(n, sg, j) {
      if TooLargeAt(n, sg, j) {
        if j > i { RunsGrow(sg, i + 1, j); }
      }
    }
  }

  lemma {:induction false} NothingIssued(n: nat, sg: seq<Sg>, from: nat, start: nat)
    requires n > 0
    ensures Issuing(n, sg, 0, from, from, start, 0)
  {
  }

  lemma {:induction false} IssuingJoined(n: nat, sg: seq<Sg>, i: nat, from: nat, next: nat, start: nat, bcount: nat)
    requires n > 0 && 0 < i < |sg| && Issuing(n, sg, i, from, next, start, bcount)
    requires Joins(Sg(start, bcount), sg[i]) && sg[i].len <= MAX_BCOUNT
    ensures Issuing(n, sg, i + 1, from, next, start, bcount + sg[i].len)
  {
    hide Runs, Merged, Issued;
    RunGrows(sg, i, Sg(start, bcount));
    RunsNext(sg, i, Issued(n, from, next), Sg(start, bcount));
  }

  lemma {:induction false} IssuingOpened(n: nat, sg: seq<Sg>, i: nat, from: nat, next: nat, added: nat, start: nat,
        bcount: nat)
    requires n > 0 && i < |sg| && Issuing(n, sg, i, from, next, start, bcount)
    requires (i > 0 ==> !Joins(Sg(start, bcount), sg[i])) && sg[i].len <= MAX_BCOUNT
    requires Issued(n, from, next + added) == Issued(n, from, next) + 1
    ensures Issuing(n, sg, i + 1, from, next + added, sg[i].addr, sg[i].len)
  {
    hide Issued, Joins;
    var k := Issued(n, from, next);
    if i > 0 {
      RunClosed(sg, i, k, start, bcount);
      RunsNext(sg, i, k, Sg(start, bcount));
    } else {
      assert sg[0..] == sg;
      OneRun(sg);
    }
    RunOpened(sg, i, k);
  }

  lemma {:induction false} IssuingEnds(n: nat, sg: seq<Sg>, i: nat, from: nat, next: nat, start: nat, bcount: nat)
    requires n > 0 && 0 < i <= |sg| && Issuing(n, sg, i, from, next, start, bcount)
    requires i < |sg| ==>
               !Joins(Sg(start, bcount), sg[i]) && Issued(n, from, next) == n - 1 && sg[i].len <= MAX_BCOUNT
    requires Issued(n, from, next) < n
    ensures IssuedPart(n, sg, i, from, next)
  {
    hide Issued, Joins, Merged;
    if i < |sg| { RunsNext(sg, i, Issued(n, from, next), Sg(start, bcount)); }
    RunClosed(sg, i, Issued(n, from, next), start, bcount);
  }

  lemma {:induction false} RunOpened(sg: seq<Sg>, i: nat, k: nat)
    requires i < |sg| && LeftRuns(sg, i, k)
    ensures OpenRuns(sg, i + 1, k + 1, sg[i].addr, sg[i].len)
  {
    assert sg[i..][1..] == sg[i + 1..];
  }

  lemma {:induction false} RunClosed(sg: seq<Sg>, i: nat, k: nat, start: nat, bcount: nat)
    requires OpenRuns(sg, i, k, start, bcount) && (i < |sg| ==> !Joins(Sg(start, bcount), sg[i]))
    ensures LeftRuns(sg, i, k)
  {
    var rest := sg[i..];
    assert Merged(Sg(start, bcount), rest) == [Sg(start, bcount)] + Runs(rest);
    assert Runs(sg)[k - 1..][1..] == Runs(sg)[k..];
  }

  lemma {:induction false} SomeRuns(sg: seq<Sg>, rest: seq<Sg>)
    requires |rest| < |sg| && rest == sg[|sg| - |rest|..]
    ensures Runs(rest) == [] <==> rest == []
    ensures Runs(sg) != []
  {
  }

  // ----- what is done and what is left, while a list is worked off

  /** `done` and the runs from entry `i` on make up the whole; the next byte is at `rioAddr`. */
  ghost predicate Whole(tx0: Tx, i: nat, rioAddr: nat, done: seq<Move>)
    requires i <= |tx0.sg|
  {
    done + RunMoves(tx0.destid, tx0.rtype, tx0.rioAddrU * TWO64 + rioAddr, Runs(tx0.sg[i..])) == Compiled(tx0)
  }

  /** The same with an open run of `bcount` bytes that starts at the address in `tx`. */
  ghost predicate Pending(tx0: Tx, tx: Tx, i: nat, start: nat, bcount: nat, done: seq<Move>)
    requires i <= |tx0.sg|
  {
    done + RunMoves(tx.destid, tx.rtype, RioAddr(tx), Merged(Sg(start, bcount), tx0.sg[i..])) == Compiled(tx0)
  }

  lemma {:induction false} ListAt(tx: Tx, i: nat, rioAddr: nat)
    requires i < |tx.sg| && Fits(tx) && InRange(rioAddr, tx.sg[i..])
    ensures tx.sg[i].addr + tx.sg[i].len < NO_ADDR && rioAddr < TWO64
    ensures InRange(rioAddr + tx.sg[i].len, tx.sg[i + 1..])
  {
    assert tx.sg[i..][1..] == tx.sg[i + 1..];
  }

  lemma {:induction false} NothingInRange(rioAddr: nat, sg: seq<Sg>)
    requires rioAddr <= TWO64 && sg == []
    ensures InRange(rioAddr, sg)
  {
  }

  lemma {:induction false} Started(tx: Tx, bd: seq<Bd>, from: nat)
    requires Fits(tx) && |bd| > 0
    ensures tx.destid < 0x1_0000 && tx.rtype < 16 && tx.rioAddrU < 4 && InRange(tx.rioAddr, tx.sg[0..])
    ensures Whole(tx, 0, tx.rioAddr, Exec(bd, from, from))
  {
    assert tx.sg[0..] == tx.sg;
  }

  lemma {:induction false} Merge(tx0: Tx, tx: Tx, i: nat, start: nat, bcount: nat, done: seq<Move>)
    requires i < |tx0.sg| && Pending(tx0, tx, i, start, bcount, done) && Joins(Sg(start, bcount), tx0.sg[i])
    ensures Pending(tx0, tx, i + 1, start, bcount + tx0.sg[i].len, done)
  {
    hide Merged, RunMoves, Compiled, RioAddr;
    RunGrows(tx0.sg, i, Sg(start, bcount));
  }

  lemma {:induction false} RunGrows(sg: seq<Sg>, i: nat, run: Sg)
    requires i < |sg| && Joins(run, sg[i])
    ensures Merged(run, sg[i..]) == Merged(Sg(run.addr, run.len + sg[i].len), sg[i + 1..])
  {
    assert sg[i..][1..] == sg[i + 1..];
  }

  lemma {:induction false} Begin(tx0: Tx, tx: Tx, i: nat, done: seq<Move>)
    requires i < |tx0.sg| && tx == tx0.(rioAddr := tx.rioAddr) && Whole(tx0, i, tx.rioAddr, done)
    ensures Pending(tx0, tx, i + 1, tx0.sg[i].addr, tx0.sg[i].len, done)
  {
    hide Merged, RunMoves, Compiled;
    assert tx0.sg[i..][1..] == tx0.sg[i + 1..];
  }

  /** The open run is as long as it can be. */
  lemma {:induction false} Closed(tx0: Tx, tx: Tx, i: nat, start: nat, bcount: nat, done: seq<Move>)
    requires i <= |tx0.sg| && Pending(tx0, tx, i, start, bcount, done) && tx == tx0.(rioAddr := tx.rioAddr)
    requires i < |tx0.sg| ==> !Joins(Sg(start, bcount), tx0.sg[i])
    ensures Whole(tx0, i, tx.rioAddr + bcount, done + Burst(tx.destid, tx.rtype, RioAddr(tx), start, bcount))
  {
    hide Burst;
    var rest := tx0.sg[i..];
    assert Merged(Sg(start, bcount), rest) == [Sg(start, bcount)] + Runs(rest);
  }

  lemma {:induction false} Widths(tx: Tx)
    requires Fits(tx)
    ensures tx.destid < 0x1_0000 && tx.rtype < 16 && tx.rioAddrU < 4
  {
  }

  /** The address in a link descriptor. */
  lemma {:induction false} LinkWords(phys: nat)
    ensures phys / TWO32 * TWO32 + phys % TWO32 / 32 * 32 == phys / 32 * 32
  {
    DivMod(phys, TWO32);
    var h, l := phys / TWO32, phys % TWO32;
    DivMod(l, 32);
    DivIs(phys, h * 0x800_0000 + l / 32, l % 32, 32);
  }

  lemma {:induction false} Small(n: nat)
    requires n > 1
    ensures 0 % n == 0
  {
  }
}
