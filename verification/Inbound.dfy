/** Inbound (RapidIO to PCIe) windows of the Tsi721: power-of-two windows, direct ones shared
    between clients. */
module Inbound {
  import opened Arith

  const IBWIN_NUM: nat := 8
  const MIN_SIZE: nat := 0x1000
  const MAX_SIZE: nat := 0x4_0000_0000

  const EIO: int := -5
  const EFAULT: int := -14
  const EBUSY: int := -16
  const EINVAL: int := -22

  /** `mappings` lists the local addresses of the clients of a direct window. */
  datatype IbWin = IbWin(rstart: nat, size: nat, lstart: nat, active: bool, xlat: bool, mappings: seq<nat>)

  // ----- the smallest window for a direct request

  /** A naturally aligned power-of-two window that holds the range. */
  ghost predicate Holds(start: nat, w: nat, lo: nat, size: nat) {
    Pow2(w) && start % w == 0 && start <= lo && lo + size <= start + w
  }

  ghost predicate Smallest(start: nat, w: nat, lo: nat, size: nat) {
    Holds(start, w, lo, size) && forall s: nat, v: nat :: Holds(s, v, lo, size) ==> w <= v
  }

  /** `roundup_pow_of_two`. */
  function RoundUp(n: nat): (p: nat)
    requires n > 0
    ensures Pow2(p) && n <= p && forall q: nat :: Pow2(q) && n <= q ==> p <= q
  {
    if n == 1 then 1
    else
      var half := RoundUp((n + 1) / 2);
      TwiceLeast(n, half);
      2 * half
  }

  lemma {:induction false} TwiceLeast(n: nat, half: nat)
    requires n > 1 && Pow2(half) && (n + 1) / 2 <= half
    requires forall q: nat :: Pow2(q) && (n + 1) / 2 <= q ==> half <= q
    ensures Pow2(2 * half) && n <= 2 * half && forall q: nat :: Pow2(q) && n <= q ==> 2 * half <= q
  {
    forall q: nat | Pow2(q) && n <= q ensures 2 * half <= q {
      HalfOf(q);
      hide Pow2;
      assert (n + 1) / 2 <= q / 2;
    }
    Pow2Double(half);
  }

  lemma {:induction false} HalfOf(q: nat)
    requires Pow2(q) && q > 1
    ensures q % 2 == 0 && Pow2(q / 2)
  {
  }

  /** A window that holds the range starts where the address is rounded down to. */
  lemma {:induction false} StartIs(s: nat, w: nat, lo: nat, size: nat)
    requires Holds(s, w, lo, size) && size > 0
    ensures s == AlignDown(lo, w)
  {
    var t := AlignDown(lo, w);
    MultipleSum(s, t, w);
    MultipleSum(t, s, w);
  }

  /** The window size and start for a direct request; none over 16 GB. */
  method DirectWindow(lstart: nat, size: nat) returns (ok: bool, ibwStart: nat, ibwSize: nat)
    requires 0 < size <= MAX_SIZE
    ensures ok ==> Smallest(ibwStart, ibwSize, lstart, size) && ibwSize <= MAX_SIZE
    ensures !ok ==> forall s: nat, w: nat :: Holds(s, w, lstart, size) ==> w > MAX_SIZE
  {
    ibwSize := RoundUp(size);
    ibwStart := AlignDown(lstart, ibwSize);
    MaxIsPow2();
    while lstart + size > ibwStart + ibwSize
      invariant Pow2(ibwSize) && size <= ibwSize <= MAX_SIZE && ibwStart == AlignDown(lstart, ibwSize)
      invariant forall s: nat, w: nat :: Holds(s, w, lstart, size) ==> w >= ibwSize
      decreases MAX_SIZE - ibwSize
    {
      Pow2Double(ibwSize);
      forall s: nat, w: nat | Holds(s, w, lstart, size) ensures w >= 2 * ibwSize {
        StartIs(s, w, lstart, size);
        assert w != ibwSize;
      }
      ibwSize := ibwSize * 2;
      ibwStart := AlignDown(lstart, ibwSize);
      if ibwSize > MAX_SIZE {
        return false, ibwStart, ibwSize;
      }
    }
    ok := true;
  }

  lemma {:induction false} MaxIsPow2()
    ensures Pow2(MAX_SIZE) && Pow2(MIN_SIZE) && Pow2(TWO32)
  {
    assert Pow2(8);
    assert Pow2(64);
    assert Pow2(512);
    assert Pow2(MIN_SIZE);
    Pow2Times(MIN_SIZE, MIN_SIZE);
    Pow2Times(256, MIN_SIZE * MIN_SIZE);
    Pow2Times(4, TWO32);
  }

  // ----- rules

  ghost predicate Overlaps(start: nat, size: nat, w: IbWin) {
    w.active && start < w.rstart + w.size && start + size > w.rstart
  }

  ghost predicate Inside(rstart: nat, size: nat, w: IbWin) {
    rstart >= w.rstart && rstart + size <= w.rstart + w.size
  }

  /** An active window of `full` bytes: it stores 32 bits of its size. */
  ghost predicate Placed(w: IbWin, full: nat) {
    && Pow2(full) && full <= MAX_SIZE && w.size == full % TWO32 && w.rstart % full == 0 && w.lstart % full == 0
    && (if w.xlat then w.mappings == []
        else w.lstart == w.rstart && w.mappings != [] && forall m <- w.mappings :: w.lstart <= m < w.lstart + full)
  }

  /** Active windows are well formed; the others have no clients. */
  ghost predicate AllPlaced(ws: seq<IbWin>, full: seq<nat>) {
    && |ws| == |full|
    && forall i: nat :: i < |ws| ==> if ws[i].active then Placed(ws[i], full[i]) else ws[i].mappings == []
  }

  /** No two active windows overlap, by their stored sizes. */
  ghost predicate Disjoint(ws: seq<IbWin>) {
    forall i: nat, j: nat ::
          i < |ws| && j < |ws| && i != j && ws[j].active ==> !Overlaps(ws[j].rstart, ws[j].size, ws[i])
  }

  ghost predicate TwoApart(a: nat, r: nat, b: nat, q: nat) { a + r <= b || b + q <= a }

  /** No two active windows overlap, by their full sizes. */
  ghost predicate AllApart(ws: seq<IbWin>, full: seq<nat>)
    requires |ws| == |full|
  {
    forall i: nat, j: nat :: i < |ws| && j < |ws| && i != j && ws[i].active && ws[j].active ==>
      TwoApart(ws[i].rstart, full[i], ws[j].rstart, full[j])
  }

  /** An active window of 4 GB or more whose range holds an address. */
  ghost predicate Covers(ws: seq<IbWin>, full: seq<nat>, j: nat, x: nat)
    requires |ws| == |full|
  {
    j < |ws| && ws[j].active && full[j] >= TWO32 && ws[j].rstart <= x < ws[j].rstart + full[j]
  }

  ghost predicate Covered(ws: seq<IbWin>, full: seq<nat>, x: nat)
    requires |ws| == |full|
  {
    exists j: nat :: Covers(ws, full, j, x)
  }

  ghost function Inactive(ws: seq<IbWin>): nat {
    if ws == [] then 0 else Inactive(ws[1..]) + if ws[0].active then 0 else 1
  }

  lemma {:induction false} Recount(ws: seq<IbWin>, i: nat, w: IbWin)
    requires i < |ws|
    ensures Inactive(ws[i := w]) + (if w.active then 1 else 0) == Inactive(ws) + if ws[i].active then 1 else 0
  {
    if i > 0 {
      assert ws[i := w][1..] == ws[1..][i - 1 := w];
      Recount(ws[1..], i - 1, w);
    }
  }

  lemma {:induction false} SomeInactive(ws: seq<IbWin>)
    ensures Inactive(ws) > 0 <==> exists i: nat :: i < |ws| && !ws[i].active
  {
    if ws != [] {
      SomeInactive(ws[1..]);
      if i: nat :| i < |ws[1..]| && !ws[1..][i].active { assert !ws[i + 1].active; }
      assert forall i: nat :: 0 < i < |ws| ==> ws[i] == ws[1..][i - 1];
    }
  }

  ghost predicate FirstInactive(ws: seq<IbWin>, k: nat) {
    k < |ws| && !ws[k].active && forall i: nat :: i < k ==> ws[i].active
  }

  /** The stored size has 32 bits: it is the window's size exactly below 4 GB, and zero from there on. */
  lemma {:induction false} WideIsZero(w: nat)
    requires Pow2(w) && w <= MAX_SIZE
    ensures w > 0
    ensures w < TWO32 ==> w % TWO32 == w
    ensures w >= TWO32 ==> w % TWO32 == 0
  {
    if w >= TWO32 {
      MaxIsPow2();
      Pow2Divides(TWO32, w);
    }
  }

  /** A larger window is stored with size zero, and a request is then seen to overlap it exactly if it
      starts before the window and ends after the window's start. */
  lemma {:induction false} StoredSize(win: IbWin, full: nat, s: nat, v: nat)
    requires win.active && Placed(win, full)
    ensures win.size == full <==> full < TWO32
    ensures full >= TWO32 ==> (Overlaps(s, v, win) <==> s < win.rstart < s + v)
  {
    WideIsZero(full);
  }

  /** A direct window that holds a request holds the smallest window for it, so the request
      meets no other window. */
  lemma {:induction false} Within(ws: seq<IbWin>, full: seq<nat>, start: nat, w: nat, rstart: nat, size: nat, i: nat)
    requires AllPlaced(ws, full) && Disjoint(ws) && size > 0 && Smallest(start, w, rstart, size)
    requires i < |ws| && ws[i].active && Inside(rstart, size, ws[i])
    ensures Inside(start, w, ws[i]) && Overlaps(start, w, ws[i])
    ensures forall j: nat :: j < |ws| && j != i ==> !Overlaps(start, w, ws[j])
  {
    hide Pow2;
    WideIsZero(full[i]);
    assert Holds(ws[i].rstart, ws[i].size, rstart, size);
    Nested(start, w, ws[i].rstart, ws[i].size);
    forall j: nat | j < |ws| && j != i ensures !Overlaps(start, w, ws[j]) {
      assert !Overlaps(ws[i].rstart, ws[i].size, ws[j]);
    }
  }

  /** Only the window that the scan hits can hold the request. */
  lemma {:induction false} OnlyHit(ws: seq<IbWin>, full: seq<nat>, start: nat, w: nat, rstart: nat, size: nat, hit: nat)
    requires AllPlaced(ws, full) && Disjoint(ws) && size > 0 && Smallest(start, w, rstart, size)
    requires hit < |ws| && Overlaps(start, w, ws[hit])
    ensures forall j: nat :: j < |ws| && ws[j].active && Inside(rstart, size, ws[j]) ==> j == hit
    ensures Placed(ws[hit], full[hit])
  {
    forall j: nat | j < |ws| && ws[j].active && Inside(rstart, size, ws[j]) ensures j == hit {
      Within(ws, full, start, w, rstart, size, j);
    }
  }

  /** A new window of `r` bytes that is not seen to overlap another one. */
  lemma {:induction false} Entered(ws: seq<IbWin>, full: seq<nat>, i: nat, w: IbWin, r: nat)
    requires AllPlaced(ws, full) && Disjoint(ws) && i < |ws| && !ws[i].active && w.active && Placed(w, r)
    requires forall j: nat :: j < |ws| ==> !Overlaps(w.rstart, r, ws[j])
    ensures AllPlaced(ws[i := w], full[i := r]) && Disjoint(ws[i := w])
  {
    hide Pow2;
    WideIsZero(r);
  }

  /** Its full range stays apart from the others exactly if it does not start inside a window of 4 GB
      or more. */
  lemma {:induction false} EnteredApart(ws: seq<IbWin>, full: seq<nat>, i: nat, w: IbWin, r: nat)
    requires AllPlaced(ws, full) && i < |ws| && !ws[i].active && w.active && Placed(w, r)
    requires forall j: nat :: j < |ws| ==> !Overlaps(w.rstart, r, ws[j])
    ensures AllApart(ws[i := w], full[i := r]) <==> AllApart(ws, full) && !Covered(ws, full, w.rstart)
  {
    hide Pow2;
    WideIsZero(r);
    var now, sizes := ws[i := w], full[i := r];
    forall j: nat | j < |ws| && ws[j].active
      ensures TwoApart(w.rstart, r, ws[j].rstart, full[j]) <==> !Covers(ws, full, j, w.rstart)
      ensures TwoApart(ws[j].rstart, full[j], w.rstart, r) <==> !Covers(ws, full, j, w.rstart)
    {
      WideIsZero(full[j]);
    }
    if AllApart(now, sizes) {
      forall j: nat, k: nat | j < |ws| && k < |ws| && j != k && ws[j].active && ws[k].active
        ensures TwoApart(ws[j].rstart, full[j], ws[k].rstart, full[k])
      {
        assert now[j] == ws[j] && now[k] == ws[k];
      }
      forall j: nat | j < |ws| && ws[j].active ensures !Covers(ws, full, j, w.rstart) {
        assert now[j] == ws[j] && now[i] == w;
      }
    }
  }

  /** Below 4 GB the stored sizes are the full ones. */
  lemma {:induction false} NarrowApart(ws: seq<IbWin>, full: seq<nat>)
    requires AllPlaced(ws, full) && Disjoint(ws)
    requires forall i: nat :: i < |ws| && ws[i].active ==> full[i] < TWO32
    ensures AllApart(ws, full)
  {
    hide Placed;
    forall i: nat, j: nat | i < |ws| && j < |ws| && i != j && ws[i].active && ws[j].active
      ensures TwoApart(ws[i].rstart, full[i], ws[j].rstart, full[j])
    {
      NarrowSize(ws[i], full[i]);
      NarrowSize(ws[j], full[j]);
      assert !Overlaps(ws[j].rstart, ws[j].size, ws[i]);
    }
  }

  lemma {:induction false} NarrowSize(w: IbWin, full: nat)
    requires Placed(w, full) && full < TWO32
    ensures w.size == full > 0
  {
    WideIsZero(full);
  }

  /** The same range with other clients, or none. */
  lemma {:induction false} SameRange(ws: seq<IbWin>, full: seq<nat>, i: nat, w: IbWin)
    requires AllPlaced(ws, full) && Disjoint(ws) && i < |ws| && ws[i].active && w.rstart == ws[i].rstart
    requires w.size == ws[i].size
    requires if w.active then Placed(w, full[i]) else w.mappings == []
    ensures AllPlaced(ws[i := w], full) && Disjoint(ws[i := w])
    ensures AllApart(ws, full) ==> AllApart(ws[i := w], full)
    ensures w.active ==> (AllApart(ws[i := w], full) <==> AllApart(ws, full))
  {
    hide Placed;
    var now := ws[i := w];
    if w.active && AllApart(now, full) {
      forall j: nat, k: nat | j < |ws| && k < |ws| && j != k && ws[j].active && ws[k].active
        ensures TwoApart(ws[j].rstart, full[j], ws[k].rstart, full[k])
      {
        assert now[j].active && now[k].active;
      }
    }
  }

  // ----- registers

  /** IBWIN_LB, UB, SZ, TLA, TUA of a window. */
  datatype WinRegs = WinRegs(lb: nat, ub: nat, sz: nat, tla: nat, tua: nat)

  function Enabled(r: WinRegs): bool { r.lb % 2 == 1 }
  function HwBase(r: WinRegs): nat { r.ub * TWO32 + r.lb / 4096 * 4096 }
  function HwLocal(r: WinRegs): nat { r.tua * TWO32 + r.tla / 4096 * 4096 }
  /** The size register has a field of five bits. */
  ghost function HwSize(r: WinRegs): nat { Exp2(12 + r.sz / 256 % 32) }

  function RegsFor(ibwStart: nat, ibwSize: nat, locStart: nat): WinRegs
    requires ibwSize > 0
  {
    WinRegs(ibwStart % TWO32 / 4096 * 4096 + 1, ibwStart / TWO32, (Log2(ibwSize) - 12) * 256 % TWO32,
            locStart % TWO32 / 4096 * 4096, locStart / TWO32)
  }

  ghost predicate Programmed(w: IbWin, full: nat, r: WinRegs) {
    HwBase(r) == w.rstart && HwSize(r) == full && HwLocal(r) == w.lstart
  }

  /** No bits but those of the fields are set. */
  ghost predicate OnlyFields(r: WinRegs) {
    r.lb % 4096 == 1 && r.sz % 256 == 0 && r.tla % 4096 == 0
  }

  /** A window is enabled exactly while it is active; its registers then describe it exactly from 4 KB on. */
  ghost predicate RegsOk(w: IbWin, full: nat, r: WinRegs) {
    (Enabled(r) <==> w.active) && (w.active ==> OnlyFields(r) && (Programmed(w, full, r) <==> full >= MIN_SIZE))
  }

  lemma {:induction false} RegsSay(w: IbWin, full: nat)
    requires w.active && Placed(w, full)
    ensures RegsOk(w, full, RegsFor(w.rstart, full, w.lstart))
  {
    hide Pow2, HwSize, HwBase, HwLocal, RegsFor;
    WideIsZero(full);
    var r := RegsFor(w.rstart, full, w.lstart);
    assert Enabled(r) && OnlyFields(r) by { EnabledNow(w.rstart, full, w.lstart); }
    SizeWord(w.rstart, full, w.lstart);
    if full >= MIN_SIZE {
      assert Pow2(MIN_SIZE) by { MaxIsPow2(); }
      Pow2Divides(MIN_SIZE, full);
      ModTrans(w.rstart, full, MIN_SIZE);
      ModTrans(w.lstart, full, MIN_SIZE);
      Words(w.rstart, full, w.lstart);
    }
  }

  lemma {:induction false} EnabledNow(rstart: nat, size: nat, lstart: nat)
    requires size > 0
    ensures Enabled(RegsFor(rstart, size, lstart)) && OnlyFields(RegsFor(rstart, size, lstart))
  {
    FlagBit(rstart % TWO32 / 4096);
    FlagBit(lstart % TWO32 / 4096);
    SizeBits(Log2(size) - 12);
  }

  lemma {:induction false} SizeBits(k: int)
    ensures k * 256 % TWO32 % 256 == 0
  {
    var q, r := k * 256 / TWO32, k * 256 % TWO32;
    assert r == 256 * (k - 0x100_0000 * q);
    ModIs(r, k - 0x100_0000 * q, 0, 256);
  }

  lemma {:induction false} FlagBit(k: nat)
    ensures (k * 4096 + 1) % 2 == 1 && (k * 4096 + 1) % 4096 == 1 && k * 4096 % 4096 == 0
  {
    ModIs(k * 4096 + 1, k * 2048, 1, 2);
    ModIs(k * 4096 + 1, k, 1, 4096);
    ModIs(k * 4096, k, 0, 4096);
  }

  lemma {:induction false} Words(rstart: nat, size: nat, lstart: nat)
    requires rstart % 4096 == 0 && lstart % 4096 == 0 && size > 0
    ensures var r := RegsFor(rstart, size, lstart); HwBase(r) == rstart && HwLocal(r) == lstart
  {
    PageWord(rstart);
    PageWord(lstart);
  }

  lemma {:induction false} PageWord(x: nat)
    requires x % 4096 == 0
    ensures x % TWO32 / 4096 * 4096 == x % TWO32 && (x % TWO32 / 4096 * 4096 + 1) / 4096 * 4096 == x % TWO32
  {
    LowWord(x, 4096, 0x10_0000);
    var k := x / 4096 % 0x10_0000;
    DivIs(4096 * k, k, 0, 4096);
    DivIs(4096 * k + 1, k, 1, 4096);
  }

  /** The size register says the size exactly from 4 KB on. */
  lemma {:induction false} SizeWord(rstart: nat, size: nat, lstart: nat)
    requires Pow2(size) && size <= MAX_SIZE
    ensures HwSize(RegsFor(rstart, size, lstart)) == size <==> size >= MIN_SIZE
  {
    hide Pow2, Log2, Exp2;
    WideIsZero(size);
    var r := RegsFor(rstart, size, lstart);
    if size >= MIN_SIZE {
      LogRange(size);
      var k: nat := Log2(size) - 12;
      DivIs(k * 256, k, 0, 256);
      ExpLog(size);
    } else {
      ExpMin(r.sz / 256 % 32);
    }
  }

  lemma {:induction false} ExpMin(k: nat)
    ensures Exp2(12 + k) >= MIN_SIZE
  {
    if k > 0 {
      ExpMin(k - 1);
    } else {
      assert Exp2(4) == 16;
      assert Exp2(8) == 256;
      assert Exp2(12) == MIN_SIZE;
    }
  }

  lemma {:induction false} LogRange(n: nat)
    requires MIN_SIZE <= n <= MAX_SIZE
    ensures 12 <= Log2(n) <= 34
  {
    hide Log2;
    LogGrows(MIN_SIZE, n);
    LogGrows(n, MAX_SIZE);
    LogBounds();
  }

  lemma {:induction false} LogBounds()
    ensures Log2(MIN_SIZE) == 12 && Log2(MAX_SIZE) == 34
  {
    LogEight(8);
    LogEight(64);
    LogEight(512);
    LogEight(MIN_SIZE);
    LogEight(0x8000);
    LogEight(0x4_0000);
    LogEight(0x20_0000);
    LogEight(0x100_0000);
    LogEight(0x800_0000);
    LogEight(0x4000_0000);
    assert Log2(8) == 3;
  }

  lemma {:induction false} LogEight(n: nat)
    requires n > 0
    ensures Log2(8 * n) == Log2(n) + 3
  {
    assert Log2(8 * n) == Log2(4 * n) + 1;
    assert Log2(4 * n) == Log2(2 * n) + 1;
  }

  /** How the hardware translates: an enabled window that holds the address. */
  ghost predicate Translates(r: WinRegs, rio: nat, local: nat) {
    && Enabled(r) && HwBase(r) <= rio < HwBase(r) + HwSize(r) && local == HwLocal(r) + (rio - HwBase(r))
  }

  class Device {
    const ibWin: array<IbWin>
    var ibwinCnt: int
    var regs: seq<WinRegs>
    /** The sizes that windows were opened with. */
    ghost var full: seq<nat>

    ghost predicate Valid()
      reads this, ibWin
    {
      && ibWin.Length == IBWIN_NUM && |regs| == IBWIN_NUM && |full| == IBWIN_NUM
      && AllPlaced(ibWin[..], full) && Disjoint(ibWin[..]) && ibwinCnt == Inactive(ibWin[..])
      && forall i: nat :: i < IBWIN_NUM ==> RegsOk(ibWin[i], full[i], regs[i])
    }

    /** No two active windows have an address in common. */
    ghost predicate Separate()
      reads this, ibWin
      requires Valid()
    {
      AllApart(ibWin[..], full)
    }

    /** `tsi721_init_sr2pc_mapping`. */
    constructor ()
      ensures Valid() && fresh(ibWin) && ibwinCnt == IBWIN_NUM && forall i: nat :: i < IBWIN_NUM ==> !ibWin[i].active
      ensures Separate()
    {
      ibWin := new IbWin[IBWIN_NUM](_ => IbWin(0, 0, 0, false, false, []));
      regs := seq(IBWIN_NUM, _ => WinRegs(0, 0, 0, 0, 0));
      full := seq(IBWIN_NUM, _ => 0);
      ibwinCnt := IBWIN_NUM;
      new;
      AllInactive(ibWin[..]);
    }

    /** Where the scan of `tsi721_rio_map_inb_mem` ends: the first active window that overlaps, and on
        the way the first inactive one. */
    method Scan(ibwStart: nat, ibwSize: nat) returns (hit: nat, avail: int)
      requires ibWin.Length == IBWIN_NUM
      ensures hit <= IBWIN_NUM && forall j: nat :: j < hit ==> !Overlaps(ibwStart, ibwSize, ibWin[j])
      ensures hit < IBWIN_NUM ==> Overlaps(ibwStart, ibwSize, ibWin[hit])
      ensures hit == IBWIN_NUM && avail == -1 ==> forall j: nat :: j < IBWIN_NUM ==> ibWin[j].active
      ensures avail != -1 ==> 0 <= avail && FirstInactive(ibWin[..], avail)
    {
      hit, avail := 0, -1;
      while hit < IBWIN_NUM
        invariant hit <= IBWIN_NUM && forall j: nat :: j < hit ==> !Overlaps(ibwStart, ibwSize, ibWin[j])
        invariant avail == -1 ==> forall j: nat :: j < hit ==> ibWin[j].active
        invariant avail != -1 ==> 0 <= avail && FirstInactive(ibWin[..], avail)
      {
        if !ibWin[hit].active {
          if avail == -1 {
            avail := hit;
          }
        } else if ibwStart < ibWin[hit].rstart + ibWin[hit].size && ibwStart + ibwSize > ibWin[hit].rstart {
          return;
        }
        hit := hit + 1;
      }
    }

    /** What a direct request finds. */
    ghost predicate Shared(rstart: nat, size: nat, i: nat)
      reads ibWin
    {
      i < ibWin.Length && ibWin[i].active && !ibWin[i].xlat && Inside(rstart, size, ibWin[i])
    }

    ghost predicate Taken(start: nat, w: nat)
      reads ibWin
    {
      exists i: nat :: i < ibWin.Length && Overlaps(start, w, ibWin[i])
    }

    /** `tsi721_rio_map_inb_mem` for a direct request: an overlap is shared exactly when a direct
        window holds the request; without overlap, the smallest window for it becomes active.  Windows
        then stay apart exactly unless the new one starts inside a window of 4 GB or more. */
    method MapDirect(lstart: nat, size: nat) returns (ret: int, ghost i: nat, ghost start: nat, ghost w: nat)
      requires Valid() && size > 0
      modifies this, ibWin
      ensures Valid() && (ret == 0 || ret == EFAULT || ret == EBUSY || ret == EINVAL)
      ensures ret == EINVAL <==> size > MAX_SIZE
      ensures ret != EINVAL && (forall s: nat, v: nat :: Holds(s, v, lstart, size) ==> v > MAX_SIZE) ==> ret == EBUSY
      ensures ret == EFAULT || ret == 0 ==> Smallest(start, w, lstart, size) && w <= MAX_SIZE
      ensures ret == EFAULT ==> old(Taken(start, w)) && forall j: nat :: !old(Shared(lstart, size, j))
      ensures ret == 0 && old(Taken(start, w)) ==>
                && old(Shared(lstart, size, i)) && ibwinCnt == old(ibwinCnt)
                && ibWin[..] == old(ibWin[..])[i := old(ibWin[i]).(mappings := old(ibWin[i]).mappings + [lstart])]
                && regs == old(regs) && full == old(full) && Separate() == old(Separate())
      ensures ret == 0 && !old(Taken(start, w)) ==>
                && FirstInactive(old(ibWin[..]), i) && ibwinCnt == old(ibwinCnt) - 1
                && ibWin[..] == old(ibWin[..])[i := IbWin(start, w % TWO32, start, true, false, [lstart])]
                && regs == old(regs)[i := RegsFor(start, w, start)] && full == old(full)[i := w]
                && (Separate() <==> old(Separate()) && !old(Covered(ibWin[..], full, start)))
      ensures ret == EBUSY ==>
                || (forall s: nat, v: nat :: Holds(s, v, lstart, size) ==> v > MAX_SIZE)
                || (Smallest(start, w, lstart, size) && !old(Taken(start, w)) && old(ibwinCnt) == 0)
      ensures ret != 0 ==> Unchanged(old(ibWin[..]), old(ibwinCnt), old(regs), old(full))
    {
      hide Pow2, Placed, Smallest, Holds, RegsOk, RegsFor, AllApart;
      i, start, w := 0, 0, 0;
      if size > MAX_SIZE {
        return EINVAL, 0, 0, 0;
      }
      var ok, ibwStart, ibwSize := DirectWindow(lstart, size);
      if !ok {
        return EBUSY, 0, 0, 0;
      }
      start, w := ibwStart, ibwSize;
      var hit, avail := Scan(ibwStart, ibwSize);
      if hit < IBWIN_NUM {
        var win := ibWin[hit];
        OnlyHit(ibWin[..], full, ibwStart, ibwSize, lstart, size, hit);
        if win.xlat || !(lstart >= win.rstart && lstart + size <= win.rstart + win.size) {
          return EFAULT, 0, start, w;
        }
        Joined(win, full[hit], lstart, size);
        SameRange(ibWin[..], full, hit, win.(mappings := win.mappings + [lstart]));
        Recount(ibWin[..], hit, win.(mappings := win.mappings + [lstart]));
        SameRegs(win, win.(mappings := win.mappings + [lstart]), full[hit], regs[hit]);
        ibWin[hit] := win.(mappings := win.mappings + [lstart]);
        return 0, hit, start, w;
      }
      if avail == -1 {
        SomeInactive(ibWin[..]);
        return EBUSY, 0, start, w;
      }
      NewPlaced(ibwStart, ibwSize, lstart, size);
      Activate(avail, IbWin(ibwStart, ibwSize % TWO32, ibwStart, true, false, [lstart]), ibwSize);
      i, ret := avail, 0;
    }

    ghost predicate Unchanged(ws: seq<IbWin>, cnt: int, was: seq<WinRegs>, sizes: seq<nat>)
      reads this, ibWin
    {
      ibWin[..] == ws && ibwinCnt == cnt && regs == was && full == sizes
    }

    /** Configures an available window for a range of `size` bytes, of which it stores 32 bits. */
    method Activate(i: nat, win: IbWin, size: nat)
      requires Valid() && i < IBWIN_NUM && !ibWin[i].active && win.active && Placed(win, size)
      requires forall j: nat :: j < IBWIN_NUM ==> !Overlaps(win.rstart, size, ibWin[j])
      modifies this, ibWin
      ensures Valid() && ibwinCnt == old(ibwinCnt) - 1 && ibWin[..] == old(ibWin[..])[i := win]
      ensures size > 0 && regs == old(regs)[i := RegsFor(win.rstart, size, win.lstart)] && full == old(full)[i := size]
      ensures Separate() <==> old(Separate()) && !old(Covered(ibWin[..], full, win.rstart))
    {
      hide RegsOk, RegsFor, AllApart, Covered;
      RegsSay(win, size);
      Entered(ibWin[..], full, i, win, size);
      EnteredApart(ibWin[..], full, i, win, size);
      Recount(ibWin[..], i, win);
      hide Placed;
      ibWin[i] := win;
      regs := regs[i := RegsFor(win.rstart, size, win.lstart)];
      full := full[i := size];
      ibwinCnt := ibwinCnt - 1;
      assert ibWin[..][i] == win;
    }

    /** The same for a translated request, which shares nothing. */
    method MapTranslated(lstart: nat, rstart: nat, size: nat) returns (ret: int, ghost i: nat)
      requires Valid() && lstart != rstart
      modifies this, ibWin
      ensures Valid() && ret in {0, EINVAL, EBUSY, EFAULT}
      ensures ret == EINVAL <==>
                size > MAX_SIZE || !Pow2(size) || size < MIN_SIZE || lstart % size != 0 || rstart % size != 0
      ensures ret == EBUSY <==> ret != EINVAL && old(ibwinCnt) == 0
      ensures ret == EFAULT <==> ret != EINVAL && ret != EBUSY && old(Taken(rstart, size))
      ensures ret != 0 ==> Unchanged(old(ibWin[..]), old(ibwinCnt), old(regs), old(full))
      ensures ret == 0 ==>
                && FirstInactive(old(ibWin[..]), i) && ibwinCnt == old(ibwinCnt) - 1
                && ibWin[..] == old(ibWin[..])[i := IbWin(rstart, size % TWO32, lstart, true, true, [])]
                && regs == old(regs)[i := RegsFor(rstart, size, lstart)] && full == old(full)[i := size]
                && (Separate() <==> old(Separate()) && !old(Covered(ibWin[..], full, rstart)))
    {
      hide Pow2, Placed, RegsOk, RegsFor, AllApart;
      i := 0;
      if size > MAX_SIZE {
        return EINVAL, 0;
      }
      if !Pow2(size) || size < 0x1000 || lstart % size != 0 || rstart % size != 0 {
        return EINVAL, 0;
      }
      if ibwinCnt == 0 {
        return EBUSY, 0;
      }
      SomeInactive(ibWin[..]);
      var hit, avail := Scan(rstart, size);
      if hit < IBWIN_NUM {
        return EFAULT, 0;
      }
      TranslatedPlaced(lstart, rstart, size);
      Activate(avail, IbWin(rstart, size % TWO32, lstart, true, true, []), size);
      i, ret := avail, 0;
    }

    /** `tsi721_rio_unmap_inb_mem`: the first window below 4 GB that this local address maps loses the
        client, and with its last one it becomes inactive; a larger window never does. */
    method UnmapInb(lstart: nat) returns (ghost i: nat)
      requires Valid()
      modifies this, ibWin
      ensures Valid() && i <= IBWIN_NUM && full == old(full) && (old(Separate()) ==> Separate())
      ensures forall j: nat :: j < i ==> !Serves(old(ibWin[j]), full[j], lstart)
      ensures i == IBWIN_NUM ==> Unchanged(old(ibWin[..]), old(ibwinCnt), old(regs), old(full))
      ensures i < IBWIN_NUM ==>
                && Serves(old(ibWin[i]), full[i], lstart)
                && ibWin[..] == old(ibWin[..])[i := Without(old(ibWin[i]), lstart)]
                && ibwinCnt == old(ibwinCnt) + (if Without(old(ibWin[i]), lstart).active then 0 else 1)
                && regs == if Without(old(ibWin[i]), lstart).active then old(regs)
                           else old(regs)[i := old(regs)[i].(lb := 0)]
      ensures forall j: nat :: j < IBWIN_NUM && full[j] >= TWO32 ==> ibWin[j] == old(ibWin[j])
    {
      hide Placed, Pow2, AllApart;
      i := IBWIN_NUM;
      var n: nat := 0;
      while n < IBWIN_NUM
        invariant n <= IBWIN_NUM && i == IBWIN_NUM && Valid()
        invariant Unchanged(old(ibWin[..]), old(ibwinCnt), old(regs), old(full))
        invariant forall j: nat :: j < n ==> !Serves(old(ibWin[j]), full[j], lstart)
      {
        var win := ibWin[n];
        if win.active && !(win.xlat && lstart != win.lstart) && lstart >= win.lstart && lstart < win.lstart + win.size {
          if win.xlat || lstart in win.mappings {
            ghost var now := Without(win, lstart);
            ServesIs(win, full[n], lstart);
            LessPlaced(win, full[n], lstart);
            SameRange(ibWin[..], full, n, now);
            Recount(ibWin[..], n, now);
            if !win.xlat {
              win := win.(mappings := Remove(win.mappings, lstart));
            }
            if win.xlat || win.mappings == [] {
              win := win.(active := false);
              regs := regs[n := regs[n].(lb := 0)];
              ibwinCnt := ibwinCnt + 1;
            }
            ibWin[n] := win;
            i := n;
            return;
          }
        }
        ServesIs(win, full[n], lstart);
        n := n + 1;
      }
    }

    /** An address is translated by every active window of at least 4 KB that holds it, to `lstart` plus
        the offset; so by no other one, while windows are apart. */
    lemma {:induction false} Linear(i: nat, rio: nat, local: nat)
      requires Valid() && i < IBWIN_NUM && full[i] >= MIN_SIZE
      ensures Translates(regs[i], rio, local) <==>
                && ibWin[i].active && ibWin[i].rstart <= rio < ibWin[i].rstart + full[i]
                && local == ibWin[i].lstart + (rio - ibWin[i].rstart)
      ensures forall j: nat, x: nat :: j < IBWIN_NUM && j != i && full[j] >= MIN_SIZE && Separate() ==>
                !(Translates(regs[i], rio, local) && Translates(regs[j], rio, x))
    {
      hide AllPlaced, Disjoint, Enabled, HwBase, HwSize, HwLocal;
      forall j: nat, x: nat | j < IBWIN_NUM && j != i && full[j] >= MIN_SIZE && Separate()
        ensures !(Translates(regs[i], rio, local) && Translates(regs[j], rio, x))
      {
        assert RegsOk(ibWin[j], full[j], regs[j]) && RegsOk(ibWin[i], full[i], regs[i]);
        if ibWin[i].active && ibWin[j].active {
          assert ibWin[..][i] == ibWin[i] && ibWin[..][j] == ibWin[j];
          assert TwoApart(ibWin[i].rstart, full[i], ibWin[j].rstart, full[j]);
        }
      }
    }
  }

  /** Without the first occurrence. */
  function Remove(s: seq<nat>, x: nat): seq<nat> {
    if s == [] then [] else if s[0] == x then s[1..] else [s[0]] + Remove(s[1..], x)
  }

  /** An active window below 4 GB that an unmap request means. */
  ghost predicate Serves(w: IbWin, full: nat, lstart: nat) {
    w.active && full < TWO32 && if w.xlat then w.lstart == lstart else lstart in w.mappings
  }

  ghost function Without(w: IbWin, lstart: nat): IbWin {
    if w.xlat then w.(active := false)
    else w.(mappings := Remove(w.mappings, lstart), active := Remove(w.mappings, lstart) != [])
  }

  lemma {:induction false} AllInactive(ws: seq<IbWin>)
    requires forall i: nat :: i < |ws| ==> !ws[i].active
    ensures Inactive(ws) == |ws|
  {
    if ws != [] {
      assert forall i: nat :: i < |ws[1..]| ==> ws[1..][i] == ws[i + 1];
      AllInactive(ws[1..]);
    }
  }

  lemma {:induction false} Joined(win: IbWin, full: nat, lstart: nat, size: nat)
    requires Placed(win, full) && !win.xlat && Inside(lstart, size, win) && size > 0
    ensures Placed(win.(mappings := win.mappings + [lstart]), full)
  {
    WideIsZero(full);
  }

  lemma {:induction false} NewPlaced(start: nat, w: nat, lstart: nat, size: nat)
    requires Smallest(start, w, lstart, size) && w <= MAX_SIZE && size > 0
    ensures Placed(IbWin(start, w % TWO32, start, true, false, [lstart]), w)
  {
  }

  lemma {:induction false} TranslatedPlaced(lstart: nat, rstart: nat, size: nat)
    requires Pow2(size) && size <= MAX_SIZE && lstart % size == 0 && rstart % size == 0
    ensures Placed(IbWin(rstart, size % TWO32, lstart, true, true, []), size)
  {
  }

  /** The registers do not know about clients. */
  lemma {:induction false} SameRegs(a: IbWin, b: IbWin, full: nat, r: WinRegs)
    requires RegsOk(a, full, r) && b == a.(mappings := b.mappings)
    ensures RegsOk(b, full, r)
  {
  }

  lemma {:induction false} LessPlaced(w: IbWin, full: nat, lstart: nat)
    requires Placed(w, full) && w.active && Serves(w, full, lstart)
    ensures var now := Without(w, lstart); if now.active then Placed(now, full) else now.mappings == []
  {
    RemoveKeeps(w.mappings, lstart);
  }

  /** A direct window loses just one client with this address, and is inactive without any. */
  lemma {:induction false} OneClientLess(w: IbWin, full: nat, lstart: nat)
    requires Placed(w, full) && Serves(w, full, lstart)
    ensures var now := Without(w, lstart);
            && now == w.(mappings := now.mappings, active := now.active)
            && if w.xlat then !now.active && now.mappings == []
               else multiset(now.mappings) == multiset(w.mappings) - multiset{lstart}
                    && (now.active <==> |w.mappings| > 1)
  {
    hide Pow2;
    RemoveKeeps(w.mappings, lstart);
  }

  lemma {:induction false} RemoveKeeps(s: seq<nat>, x: nat)
    ensures forall y <- Remove(s, x) :: y in s
    ensures x in s ==> multiset(Remove(s, x)) == multiset(s) - multiset{x} && |Remove(s, x)| == |s| - 1
  {
    if s != [] {
      assert s == [s[0]] + s[1..];
      if s[0] != x { RemoveKeeps(s[1..], x); }
    }
  }

  lemma {:induction false} ServesIs(w: IbWin, full: nat, lstart: nat)
    requires w.active ==> Placed(w, full)
    ensures Serves(w, full, lstart) <==>
              && w.active && !(w.xlat && lstart != w.lstart) && lstart >= w.lstart && lstart < w.lstart + w.size
              && (w.xlat || lstart in w.mappings)
  {
    if w.active { WideIsZero(full); }
  }

  /** A request for a whole window gets just that window. */
  lemma {:induction false} WholeWindow(start: nat, w: nat)
    requires Pow2(w) && start % w == 0
    ensures Holds(start, w, start, w) && forall s: nat, v: nat :: Smallest(s, v, start, w) ==> s == start && v == w
  {
    hide Pow2;
    assert Holds(start, w, start, w);
    forall s: nat, v: nat | Smallest(s, v, start, w) ensures s == start && v == w {
      assert Holds(s, v, start, w) && v <= w;
    }
  }

  lemma {:induction false} SizesUsed()
    ensures Pow2(0x2_0000_0000) && Pow2(0x1000) && Pow2(16)
  {
    MaxIsPow2();
    Pow2Double(TWO32);
    assert Pow2(4);
  }

  /** A request for a whole free window opens it. */
  method MapWhole(d: Device, start: nat, w: nat) returns (ghost i: nat)
    requires d.Valid() && Pow2(w) && start % w == 0 && w <= MAX_SIZE && !d.Taken(start, w) && d.ibwinCnt > 0
    modifies d, d.ibWin
    ensures d.Valid() && FirstInactive(old(d.ibWin[..]), i) && d.ibwinCnt == old(d.ibwinCnt) - 1
    ensures d.ibWin[..] == old(d.ibWin[..])[i := IbWin(start, w % TWO32, start, true, false, [start])]
    ensures w > 0 && d.regs == old(d.regs)[i := RegsFor(start, w, start)] && d.full == old(d.full)[i := w]
    ensures d.Separate() <==> old(d.Separate()) && !old(Covered(d.ibWin[..], d.full, start))
  {
    hide RegsFor, RegsOk, Pow2, AllApart, AllPlaced, Disjoint, Holds, Smallest, Covered, Device.Separate;
    WideIsZero(w);
    WholeWindow(start, w);
    var ret: int;
    ghost var s, v;
    ret, i, s, v := d.MapDirect(start, w);
    assert ret == 0;
  }

  /** A window of 8 GB, and then a page inside it: both become active, and the page is in both. */
  method WideRun() returns (d: Device, ghost i: nat, ghost j: nat)
    ensures d.Valid() && !d.Separate() && i < IBWIN_NUM && j < IBWIN_NUM
    ensures d.ibWin[i] == IbWin(0, 0, 0, true, false, [0]) && d.full[i] == 0x2_0000_0000
    ensures d.ibWin[j] == IbWin(0x1000, 0x1000, 0x1000, true, false, [0x1000]) && d.full[j] == 0x1000
  {
    hide RegsFor, RegsOk, Pow2, AllApart, AllPlaced, Disjoint, Device.Separate;
    d := new Device();
    SizesUsed();
    i := MapWhole(d, 0, 0x2_0000_0000);
    ghost var wide := d.ibWin[..][i];
    assert wide == d.ibWin[i] && Covers(d.ibWin[..], d.full, i, 0x1000);
    j := MapWhole(d, 0x1000, 0x1000);
    assert d.ibWin[..][i] == wide && d.ibWin[..][j] == d.ibWin[j];
  }

  /** Two requests of 16 bytes in one page get two windows, and both base registers name the page. */
  method SmallRun() returns (d: Device, ghost i: nat, ghost j: nat)
    ensures d.Valid() && d.Separate() && i < IBWIN_NUM && j < IBWIN_NUM && i != j
    ensures d.ibWin[i] == IbWin(0x1010, 16, 0x1010, true, false, [0x1010])
    ensures d.ibWin[j] == IbWin(0x1020, 16, 0x1020, true, false, [0x1020])
    ensures d.regs[i] == d.regs[j] && d.regs[i].lb == 0x1001 && HwBase(d.regs[i]) == 0x1000
  {
    hide RegsFor, RegsOk, Pow2, AllApart, AllPlaced, Disjoint, Device.Separate;
    d := new Device();
    SizesUsed();
    i := MapWhole(d, 0x1010, 16);
    ghost var first := d.ibWin[..][i];
    assert first == d.ibWin[i];
    j := MapWhole(d, 0x1020, 16);
    assert d.ibWin[..][i] == first && d.ibWin[..][j] == d.ibWin[j];
    SmallRegs();
  }

  lemma {:induction false} SmallRegs()
    ensures var r := RegsFor(0x1010, 16, 0x1010); r.lb == 0x1001 && HwBase(r) == 0x1000
    ensures RegsFor(0x1010, 16, 0x1010) == RegsFor(0x1020, 16, 0x1020)
  {
  }
}
