/** Scatter lists, block-DMA descriptors as the hardware reads them, and what both mean: which
    RapidIO byte goes with which local byte. */
module DmaDescriptors {
  import opened Fabric
  import opened Arith

  const TWO26: nat := 0x0400_0000
  const TWO30: nat := 0x4000_0000
  const TWO62: nat := 0x4000_0000_0000_0000
  const TWO64: nat := 0x1_0000_0000_0000_0000

  const DTYPE1: nat := 1
  const DTYPE3: nat := 3
  const MAX_BCOUNT: nat := TWO26

  /** No address: all ones in 64 bits. */
  const NO_ADDR: nat := TWO64 - 1

  datatype Sg = Sg(addr: nat, len: nat)

  /** A `struct tsi721_tx_desc`: what is left of a transfer, and its cookie. */
  datatype Tx = Tx(destid: nat, rtype: nat, rioAddr: nat, rioAddrU: nat, sg: seq<Sg>, cookie: nat,
                   interrupt: bool, callback: Option<nat>)

  /** The words of a `struct tsi721_dma_desc`; a link descriptor keeps its target in `raddr`. */
  datatype Bd = Bd(typeId: nat, bcount: nat, raddrLo: nat, raddrHi: nat, bufptrLo: nat, bufptrHi: nat)

  /** One byte moved between RapidIO address `rio` of a target and local address `mem`. */
  datatype Move = Move(destid: nat, rtype: nat, rio: nat, mem: nat)

  function Run(destid: nat, rtype: nat, rio: nat, mem: nat, len: nat): (r: seq<Move>) {
    seq(len, k requires 0 <= k < len => Move(destid, rtype, rio + k, mem + k))
  }

  /** What a scatter list asks for, from RapidIO address `rio` on. */
  ghost function ListMoves(destid: nat, rtype: nat, rio: nat, sg: seq<Sg>): (r: seq<Move>)
    decreases |sg|
  {
    if sg == [] then []
    else Run(destid, rtype, rio, sg[0].addr, sg[0].len) + ListMoves(destid, rtype, rio + sg[0].len, sg[1..])
  }

  ghost function Total(sg: seq<Sg>): nat {
    if sg == [] then 0 else sg[0].len + Total(sg[1..])
  }

  /** The 66-bit RapidIO address. */
  function RioAddr(tx: Tx): nat { tx.rioAddrU * TWO64 + tx.rioAddr }

  ghost function Rest(tx: Tx): (r: seq<Move>) {
    ListMoves(tx.destid, tx.rtype, RioAddr(tx), tx.sg)
  }

  // ----- merged runs

  /** An entry that a run of entries takes in: it goes on where the run ends, and the count fits. */
  predicate Joins(run: Sg, e: Sg) {
    e.addr == run.addr + run.len && run.len + e.len <= MAX_BCOUNT
  }

  /** The runs that the open one and a list make, each as long as it can be. */
  ghost function Merged(run: Sg, sg: seq<Sg>): (r: seq<Sg>)
    ensures r != []
    decreases |sg|
  {
    if sg == [] then [run]
    else if Joins(run, sg[0]) then Merged(Sg(run.addr, run.len + sg[0].len), sg[1..])
    else [run] + Merged(sg[0], sg[1..])
  }

  ghost function Runs(sg: seq<Sg>): (r: seq<Sg>) {
    if sg == [] then [] else Merged(sg[0], sg[1..])
  }

  /** What the hardware does for a run: a zero count stands for 64 MB. */
  function Burst(destid: nat, rtype: nat, rio: nat, mem: nat, len: nat): (r: seq<Move>) {
    Run(destid, rtype, rio, mem, if len == 0 then TWO26 else len)
  }

  ghost function RunMoves(destid: nat, rtype: nat, rio: nat, runs: seq<Sg>): (r: seq<Move>)
    decreases |runs|
  {
    if runs == [] then []
    else Burst(destid, rtype, rio, runs[0].addr, runs[0].len) + RunMoves(destid, rtype, rio + runs[0].len, runs[1..])
  }

  /** What one descriptor for each merged run does. */
  ghost function Compiled(tx: Tx): (r: seq<Move>) {
    RunMoves(tx.destid, tx.rtype, RioAddr(tx), Runs(tx.sg))
  }

  ghost predicate NoEmptyRun(sg: seq<Sg>) {
    forall r <- Runs(sg) :: r.len > 0
  }

  lemma {:induction false} MergedMean(destid: nat, rtype: nat, rio: nat, run: Sg, sg: seq<Sg>)
    ensures ListMoves(destid, rtype, rio, Merged(run, sg))
         == Run(destid, rtype, rio, run.addr, run.len) + ListMoves(destid, rtype, rio + run.len, sg)
    decreases |sg|
  {
    hide Run, Joins, ListMoves;
    if sg == [] {
      FirstEntry(destid, rtype, rio, run, sg);
      assert [run] + sg == [run];
    } else if Joins(run, sg[0]) {
      MergedMean(destid, rtype, rio, Sg(run.addr, run.len + sg[0].len), sg[1..]);
      JoinedMean(destid, rtype, rio, run, sg);
    } else {
      MergedMean(destid, rtype, rio + run.len, sg[0], sg[1..]);
      FirstEntry(destid, rtype, rio, run, Merged(sg[0], sg[1..]));
      FirstEntry(destid, rtype, rio + run.len, sg[0], sg[1..]);
      assert sg == [sg[0]] + sg[1..];
    }
  }

  lemma {:induction false} FirstEntry(destid: nat, rtype: nat, rio: nat, e: Sg, sg: seq<Sg>)
    ensures ListMoves(destid, rtype, rio, [e] + sg)
         == Run(destid, rtype, rio, e.addr, e.len) + ListMoves(destid, rtype, rio + e.len, sg)
  {
    hide Run;
    assert ([e] + sg)[1..] == sg;
  }

  /** A run that takes in the first entry of a list. */
  lemma {:induction false} JoinedMean(destid: nat, rtype: nat, rio: nat, run: Sg, sg: seq<Sg>)
    requires sg != [] && Joins(run, sg[0])
    ensures Run(destid, rtype, rio, run.addr, run.len + sg[0].len)
          + ListMoves(destid, rtype, rio + run.len + sg[0].len, sg[1..])
         == Run(destid, rtype, rio, run.addr, run.len) + ListMoves(destid, rtype, rio + run.len, sg)
  {
    hide Run;
    RunJoin(destid, rtype, rio, run.addr, run.len, sg[0].len);
  }

  lemma {:induction false} RunJoin(destid: nat, rtype: nat, rio: nat, mem: nat, n: nat, m: nat)
    ensures Run(destid, rtype, rio, mem, n)
          + Run(destid, rtype, rio + n, mem + n, m) == Run(destid, rtype, rio, mem, n + m)
  {
  }

  /** An empty run makes too many moves. */
  lemma {:induction false} RunMovesExact(destid: nat, rtype: nat, rio: nat, runs: seq<Sg>)
    ensures |RunMoves(destid, rtype, rio, runs)| >= |ListMoves(destid, rtype, rio, runs)|
    ensures if forall r <- runs ::
          r.len > 0 then RunMoves(destid, rtype, rio, runs) == ListMoves(destid, rtype, rio, runs)
            else |RunMoves(destid, rtype, rio, runs)| > |ListMoves(destid, rtype, rio, runs)|
    decreases |runs|
  {
    if runs != [] {
      RunMovesExact(destid, rtype, rio + runs[0].len, runs[1..]);
      assert forall r :: r in runs <==> r == runs[0] || r in runs[1..];
    }
  }

  /** The descriptors for a list move what it asks for exactly if no merged run is empty. */
  lemma {:induction false} CompiledExact(tx: Tx)
    ensures Compiled(tx) == Rest(tx) <==> NoEmptyRun(tx.sg)
  {
    RunMovesExact(tx.destid, tx.rtype, RioAddr(tx), Runs(tx.sg));
    if tx.sg != [] { MergedMean(tx.destid, tx.rtype, RioAddr(tx), tx.sg[0], tx.sg[1..]); }
  }

  /** A list without empty entries has no empty run. */
  lemma {:induction false} NoEmptyEntry(run: Sg, sg: seq<Sg>)
    requires run.len > 0 && forall e <- sg :: e.len > 0
    ensures forall r <- Merged(run, sg) :: r.len > 0
    decreases |sg|
  {
    if sg != [] {
      NoEmptyEntry(if Joins(run, sg[0]) then Sg(run.addr, run.len + sg[0].len) else sg[0], sg[1..]);
    }
  }

  /** An empty entry that a run takes in does no harm; one that stands alone becomes 64 MB. */
  lemma {:induction false} EmptyEntries(tx: Tx)
    ensures tx.sg == [Sg(0x1000, 8), Sg(0x1008, 0), Sg(0x1008, 8)] ==> Compiled(tx) == Rest(tx)
    ensures tx.sg == [Sg(0x1000, 0), Sg(0x3000, 8)] ==>
              Compiled(tx) != Rest(tx) && |Compiled(tx)| == TWO26 + 8 && |Rest(tx)| == 8
  {
    CompiledExact(tx);
    if tx.sg == [Sg(0x1000, 8), Sg(0x1008, 0), Sg(0x1008, 8)] {
      assert tx.sg[1..] == [Sg(0x1008, 0), Sg(0x1008, 8)] && tx.sg[1..][1..] == [Sg(0x1008, 8)];
      assert Merged(Sg(0x1000, 16), []) == [Sg(0x1000, 16)];
      assert Merged(Sg(0x1000, 8), [Sg(0x1008, 8)]) == [Sg(0x1000, 16)];
      assert Runs(tx.sg) == [Sg(0x1000, 16)];
    } else if tx.sg == [Sg(0x1000, 0), Sg(0x3000, 8)] {
      assert tx.sg[1..] == [Sg(0x3000, 8)];
      assert Merged(Sg(0x3000, 8), []) == [Sg(0x3000, 8)];
      assert !Joins(Sg(0x1000, 0), Sg(0x3000, 8));
      assert Merged(Sg(0x1000, 0), tx.sg[1..]) == [Sg(0x1000, 0)] + Merged(Sg(0x3000, 8), []);
      assert Runs(tx.sg) == [Sg(0x1000, 0), Sg(0x3000, 8)];
      assert Runs(tx.sg)[0] in Runs(tx.sg) && Runs(tx.sg)[1..] == [Sg(0x3000, 8)];
      RunMovesLength(tx, Runs(tx.sg));
      ListMovesOrder(tx.destid, tx.rtype, RioAddr(tx), tx.sg);
      assert Total(tx.sg[1..]) == 8;
    }
  }

  lemma {:induction false} RunMovesLength(tx: Tx, runs: seq<Sg>)
    requires runs == [Sg(0x1000, 0), Sg(0x3000, 8)]
    ensures |RunMoves(tx.destid, tx.rtype, RioAddr(tx), runs)| == TWO26 + 8
  {
    var rest := runs[1..];
    assert rest == [Sg(0x3000, 8)] && rest[1..] == [];
    assert |RunMoves(tx.destid, tx.rtype, RioAddr(tx), rest)| == 8;
  }

  // ----- descriptors

  /** Every entry starts below the top of the address space, and the last one ends there at most. */
  ghost predicate InRange(rio: nat, sg: seq<Sg>)
    decreases |sg|
  {
    if sg == [] then rio <= TWO64 else rio < TWO64 && InRange(rio + sg[0].len, sg[1..])
  }

  /** The field widths, and addresses that do not wrap or meet `NO_ADDR`. */
  ghost predicate Fits(tx: Tx) {
    && tx.destid < 0x1_0000 && tx.rtype < 16 && tx.rioAddrU < 4
    && InRange(tx.rioAddr, tx.sg) && (forall e <- tx.sg :: e.addr + e.len < NO_ADDR)
  }

  /** `tsi721_desc_fill_init`. */
  function InitBd(tx: Tx, addr: nat, sysSize: nat): Bd {
    var raddr := tx.rioAddr / 4 + (tx.rioAddrU % 4) * TWO62;
    Bd((DTYPE1 * 0x2000_0000) + tx.rtype * 0x8_0000 + tx.destid,
       (tx.rioAddr % 4) * TWO30 + sysSize * TWO26,
       raddr % TWO32, raddr / TWO32, addr % TWO32, addr / TWO32)
  }

  /** `tsi721_desc_fill_end` without the interrupt flag; the count field is still zero. */
  function EndBd(b: Bd, bcount: nat): Bd {
    b.(bcount := b.bcount + bcount % TWO26)
  }

  /** What the hardware does for a descriptor: a link moves nothing, and a zero count stands for
      64 MB. */
  function Effect(b: Bd): (r: seq<Move>) {
    if b.typeId / 0x2000_0000 == DTYPE3 then []
    else Run(b.typeId % 0x1_0000, b.typeId / 0x8_0000 % 16, (b.raddrHi * TWO32 + b.raddrLo) * 4 + b.bcount / TWO30,
             b.bufptrHi * TWO32 + b.bufptrLo, if b.bcount % TWO26 == 0 then TWO26 else b.bcount % TWO26)
  }

  /** The width of destination IDs, and no other flags: priority, critical flow, interrupt. */
  function SystemSize(b: Bd): nat { b.bcount / TWO26 % 16 }
  predicate PlainFlags(b: Bd) { b.typeId / 0x1_0000 % 8 == 0 && b.typeId / 0x80_0000 % 64 == 0 }

  /** A descriptor filled in both steps does what its count stands for. */
  lemma {:induction false} FilledEffect(tx: Tx, addr: nat, sysSize: nat, bcount: nat)
    requires tx.destid < 0x1_0000 && tx.rtype < 16 && tx.rioAddrU < 4 && tx.rioAddr < TWO64 && sysSize < 16
    requires bcount <= MAX_BCOUNT
    ensures Effect(EndBd(InitBd(tx, addr, sysSize), bcount)) == Burst(tx.destid, tx.rtype, RioAddr(tx), addr, bcount)
    ensures var b := EndBd(InitBd(tx, addr, sysSize), bcount); SystemSize(b) == sysSize && PlainFlags(b)
  {
    var b := EndBd(InitBd(tx, addr, sysSize), bcount);
    CountField(tx.rioAddr % 4, sysSize, if bcount == 0 then TWO26 else bcount);
    TypeField(tx.rtype, tx.destid);
    assert b.raddrHi * TWO32 + b.raddrLo == tx.rioAddr / 4 + tx.rioAddrU * TWO62;
  }

  lemma {:induction false} CountField(low: nat, sysSize: nat, bcount: nat)
    requires low < 4 && sysSize < 16 && 1 <= bcount <= MAX_BCOUNT
    ensures var w := low * TWO30 + sysSize * TWO26 + bcount % TWO26;
            && w / TWO30 == low && w / TWO26 % 16 == sysSize && (if w % TWO26 == 0 then TWO26 else w % TWO26) == bcount
  {
  }

  lemma {:induction false} TypeField(rtype: nat, destid: nat)
    requires rtype < 16 && destid < 0x1_0000
    ensures var w := DTYPE1 * 0x2000_0000 + rtype * 0x8_0000 + destid;
            && w / 0x2000_0000 == DTYPE1 && w / 0x8_0000 % 16 == rtype && w % 0x1_0000 == destid
            && w / 0x1_0000 % 8 == 0 && w / 0x80_0000 % 64 == 0
  {
  }

  /** A list names each RapidIO byte of its range once, in order. */
  lemma {:induction false} ListMovesOrder(destid: nat, rtype: nat, rio: nat, sg: seq<Sg>)
    ensures |ListMoves(destid, rtype, rio, sg)| == Total(sg)
    ensures forall k: nat :: k < Total(sg) ==>
              ListMoves(destid, rtype, rio, sg)[k] == Move(destid, rtype, rio + k, LocalByte(sg, k))
    decreases |sg|
  {
    if sg != [] {
      var rest := ListMoves(destid, rtype, rio + sg[0].len, sg[1..]);
      ListMovesOrder(destid, rtype, rio + sg[0].len, sg[1..]);
      forall k: nat | k < Total(sg)
        ensures ListMoves(destid, rtype, rio, sg)[k] == Move(destid, rtype, rio + k, LocalByte(sg, k))
      {
        if k >= sg[0].len { assert ListMoves(destid, rtype, rio, sg)[k] == rest[k - sg[0].len]; }
      }
    }
  }

  /** The address of byte `k` of the memory that a list describes. */
  ghost function LocalByte(sg: seq<Sg>, k: nat): nat
    requires k < Total(sg)
  {
    if k < sg[0].len then sg[0].addr + k else LocalByte(sg[1..], k - sg[0].len)
  }
}
