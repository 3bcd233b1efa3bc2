/** Outbound (PCIe to RapidIO) windows of the Tsi721: first-fit allocation in two BARs, accounting,
    and the address translation zones. */
module Outbound {
  import opened Arith
  import opened Fabric

  const OBWIN_NUM: nat := 8
  /** The allocator's loops run up to the number of inbound windows, which is the same. */
  const IBWIN_NUM: nat := 8
  const ZONES: nat := 8
  const MIN_SIZE: nat := 0x8000
  const TWO64: nat := 0x1_0000_0000_0000_0000

  const EIO: int := -5
  const ENOMEM: int := -12
  const EBUSY: int := -16
  const EINVAL: int := -22

  datatype Bar = Bar(base: nat, size: nat, free: int)

  datatype ObWin = ObWin(base: nat, size: nat, destid: nat, rstart: nat, active: bool, pbar: nat)

  /** Access types in a LUT word: reads go out as NREAD, writes as NWRITE. */
  const NREAD: nat := 0x100
  const NWR: nat := 0x001

  /** The LUT words of a translation zone. */
  datatype Zone = Zone(data0: nat, data1: nat, data2: nat)

  // ----- what the allocator looks for

  ghost predicate InBar(w: ObWin, bar: Bar) {
    w.active && bar.base <= w.base < bar.base + bar.size
  }

  ghost predicate Clash(b: nat, size: nat, w: ObWin) {
    b < w.base + w.size && b + size > w.base
  }

  ghost predicate FreeAt(ws: seq<ObWin>, bar: Bar, b: nat, size: nat) {
    forall i: nat :: i < |ws| && InBar(ws[i], bar) ==> !Clash(b, size, ws[i])
  }

  /** The start of the BAR, or an aligned place in it, with room up to its end. */
  ghost predicate Candidate(bar: Bar, b: nat, size: nat)
    requires size >= ZONES
  {
    bar.base <= b && (b == bar.base || b % (size / ZONES) == 0) && b + size <= bar.base + bar.size
  }

  ghost predicate Fits(ws: seq<ObWin>, bar: Bar, b: nat, size: nat)
    requires size >= ZONES
  {
    Candidate(bar, b, size) && FreeAt(ws, bar, b, size)
  }

  ghost predicate Least(ws: seq<ObWin>, bar: Bar, b: nat, size: nat)
    requires size >= ZONES
  {
    Fits(ws, bar, b, size) && forall a: nat :: Fits(ws, bar, a, size) ==> b <= a
  }

  ghost predicate FirstInactive(ws: seq<ObWin>, k: nat) {
    k < |ws| && !ws[k].active && forall i: nat :: i < k ==> ws[i].active
  }

  ghost predicate Sizes(ws: seq<ObWin>) {
    forall i: nat :: i < |ws| && ws[i].active ==> ws[i].size > 0
  }

  /** How many windows the search has not jumped over yet. */
  ghost function Ahead(ws: seq<ObWin>, bar: Bar, b: nat): nat {
    if ws == [] then 0
    else Ahead(ws[1..], bar, b) + if InBar(ws[0], bar) && b < ws[0].base + ws[0].size then 1 else 0
  }

  lemma {:induction false} AheadLess(ws: seq<ObWin>, bar: Bar, b: nat, c: nat, i: nat)
    requires b <= c && i < |ws| && InBar(ws[i], bar) && b < ws[i].base + ws[i].size <= c
    ensures Ahead(ws, bar, c) < Ahead(ws, bar, b)
  {
    if i == 0 {
      AheadKept(ws[1..], bar, b, c);
    } else {
      AheadLess(ws[1..], bar, b, c, i - 1);
    }
  }

  lemma {:induction false} AheadKept(ws: seq<ObWin>, bar: Bar, b: nat, c: nat)
    requires b <= c
    ensures Ahead(ws, bar, c) <= Ahead(ws, bar, b)
  {
    if ws != [] { AheadKept(ws[1..], bar, b, c); }
  }

  /** Between a place and the next aligned one behind a window that clashes there, all places clash. */
  lemma {:induction false} Jump(ws: seq<ObWin>, bar: Bar, b: nat, size: nat, i: nat)
    requires size >= ZONES && i < |ws| && InBar(ws[i], bar) && Clash(b, size, ws[i]) && bar.base <= b
    requires forall a: nat :: a < b ==> !Fits(ws, bar, a, size)
    ensures forall a: nat :: a < AlignUp(ws[i].base + ws[i].size, size / ZONES) ==> !Fits(ws, bar, a, size)
  {
    var top := AlignUp(ws[i].base + ws[i].size, size / ZONES);
    forall a: nat | b <= a < top ensures !Fits(ws, bar, a, size) {
      if Candidate(bar, a, size) {
        assert Clash(a, size, ws[i]);
      }
    }
  }

  // ----- accounting

  /** What a window takes of a BAR. */
  ghost function Share(w: ObWin, bar: nat): nat { if w.active && w.pbar == bar then w.size else 0 }

  ghost function Taken(ws: seq<ObWin>, bar: nat): nat {
    if ws == [] then 0 else Taken(ws[1..], bar) + Share(ws[0], bar)
  }

  ghost function Inactive(ws: seq<ObWin>): nat {
    if ws == [] then 0 else Inactive(ws[1..]) + if ws[0].active then 0 else 1
  }

  lemma {:induction false} Changed(ws: seq<ObWin>, i: nat, w: ObWin, bar: nat)
    requires i < |ws|
    ensures Taken(ws[i := w], bar) + Share(ws[i], bar) == Taken(ws, bar) + Share(w, bar)
    ensures Inactive(ws[i := w]) + (if w.active then 1 else 0) == Inactive(ws) + if ws[i].active then 1 else 0
  {
    if i > 0 {
      assert ws[i := w][1..] == ws[1..][i - 1 := w];
      Changed(ws[1..], i - 1, w, bar);
    }
  }

  lemma {:induction false} SomeInactive(ws: seq<ObWin>)
    ensures Inactive(ws) > 0 <==> exists i: nat :: i < |ws| && !ws[i].active
  {
    if ws != [] {
      SomeInactive(ws[1..]);
      if i: nat :| i < |ws[1..]| && !ws[1..][i].active { assert !ws[i + 1].active; }
      assert forall i: nat :: 0 < i < |ws| ==> ws[i] == ws[1..][i - 1];
    }
  }

  ghost function Range(lo: nat, n: nat): (r: set<nat>)
    ensures forall x :: x in r <==> lo <= x < lo + n
  {
    if n == 0 then {} else Range(lo, n - 1) + {lo + n - 1}
  }

  lemma {:induction false} RangeSize(lo: nat, n: nat)
    ensures |Range(lo, n)| == n
  {
    if n > 0 {
      RangeSize(lo, n - 1);
      assert Range(lo, n) == Range(lo, n - 1) + {lo + n - 1};
    }
  }

  ghost function Cells(ws: seq<ObWin>, bar: nat): set<nat> {
    if ws == [] then {} else Cells(ws[1..], bar) + if ws[0].active
          && ws[0].pbar == bar then Range(ws[0].base, ws[0].size) else {}
  }

  ghost predicate Disjoint(ws: seq<ObWin>) {
    forall i: nat, j: nat :: i < j < |ws| && ws[i].active && ws[j].active ==>
      ws[i].base + ws[i].size <= ws[j].base || ws[j].base + ws[j].size <= ws[i].base
  }

  ghost predicate Holds(w: ObWin, bar: nat, x: nat) {
    w.active && w.pbar == bar && w.base <= x < w.base + w.size
  }

  lemma {:induction false} CellsIn(ws: seq<ObWin>, bar: nat, x: nat) returns (i: nat)
    requires x in Cells(ws, bar)
    ensures i < |ws| && Holds(ws[i], bar, x)
  {
    if Holds(ws[0], bar, x) {
      i := 0;
    } else {
      i := CellsIn(ws[1..], bar, x);
      i := i + 1;
    }
  }

  lemma {:induction false} CellsSize(ws: seq<ObWin>, bar: nat)
    requires Disjoint(ws)
    ensures |Cells(ws, bar)| == Taken(ws, bar)
  {
    if ws != [] {
      var rest := ws[1..];
      assert forall i: nat :: i < |rest| ==> rest[i] == ws[i + 1];
      CellsSize(rest, bar);
      RangeSize(ws[0].base, ws[0].size);
      if ws[0].active && ws[0].pbar == bar {
        forall x <- Cells(rest, bar) ensures x !in Range(ws[0].base, ws[0].size) {
          var i := CellsIn(rest, bar, x);
        }
        SumSize(Cells(rest, bar), Range(ws[0].base, ws[0].size));
      }
    }
  }

  lemma {:induction false} SumSize(a: set<nat>, b: set<nat>)
    requires a !! b
    ensures |a + b| == |a| + |b|
  {
  }

  /** A place that fits leaves no doubt: the BAR's free count is large enough. */
  lemma {:induction false} FitsFree(ws: seq<ObWin>, bar: Bar, k: nat, b: nat, size: nat)
    requires Disjoint(ws) && size >= ZONES && Fits(ws, bar, b, size)
    requires forall i: nat :: i < |ws| && ws[i].active && ws[i].pbar == k ==>
               bar.base <= ws[i].base && ws[i].base + ws[i].size <= bar.base + bar.size && ws[i].size > 0
    ensures Taken(ws, k) + size <= bar.size
  {
    CellsSize(ws, k);
    RangeSize(b, size);
    RangeSize(bar.base, bar.size);
    var all := Cells(ws, k) + Range(b, size);
    forall x <- Cells(ws, k) ensures x !in Range(b, size) && x in Range(bar.base, bar.size) {
      var i := CellsIn(ws, k, x);
      assert InBar(ws[i], bar);
    }
    SumSize(Cells(ws, k), Range(b, size));
    SubsetSize(all, Range(bar.base, bar.size));
  }

  lemma {:induction false} SubsetSize(a: set<nat>, b: set<nat>)
    requires a <= b
    ensures |a| <= |b|
  {
    assert b == a + (b - a);
    SumSize(a, b - a);
  }

  // ----- rules for active windows

  ghost predicate Placed(w: ObWin, bars: seq<Bar>) {
    && w.pbar < |bars| && bars[w.pbar].base <= w.base && w.base + w.size <= bars[w.pbar].base + bars[w.pbar].size
    && Pow2(w.size) && MIN_SIZE <= w.size < TWO32 && w.base % MIN_SIZE == 0
    && w.rstart % w.size == 0 && w.rstart + w.size <= TWO64 && w.destid < 0x1_0000
  }

  ghost predicate AllPlaced(ws: seq<ObWin>, bars: seq<Bar>) {
    forall i: nat :: i < |ws| && ws[i].active ==> Placed(ws[i], bars)
  }

  /** BARs have power-of-two sizes, natural alignment, and no addresses in common. */
  ghost predicate BarsOk(bars: seq<Bar>) {
    && |bars| == 2
    && (forall k: nat :: k < 2 ==> BarOk(bars[k]))
    && (bars[0].base + bars[0].size <= bars[1].base || bars[1].base + bars[1].size <= bars[0].base)
  }

  ghost predicate BarOk(bar: Bar) {
    bar.base + bar.size <= TWO64 && (bar.size == 0 || (Pow2(bar.size) && bar.base % bar.size == 0))
  }

  ghost predicate NoBars(bars: seq<Bar>) {
    |bars| == 2 && bars[0].size == 0 && bars[1].size == 0
  }

  ghost predicate Accounts(ws: seq<ObWin>, bars: seq<Bar>, obwinCnt: int) {
    && |bars| == 2 && (forall k: nat :: k < 2 ==> bars[k].free == bars[k].size - Taken(ws, k))
    && obwinCnt == if NoBars(bars) then 0 else Inactive(ws)
  }

  /** A new window at a place that fits. */
  lemma {:induction false} PlaceNew(ws: seq<ObWin>, bars: seq<Bar>, k: nat, i: nat, w: ObWin)
    requires AllPlaced(ws, bars) && Disjoint(ws) && BarsOk(bars) && k < 2 && i < |ws| && !ws[i].active
    requires w.active && Placed(w, bars) && w.pbar == k && FreeAt(ws, bars[k], w.base, w.size)
    ensures AllPlaced(ws[i := w], bars) && Disjoint(ws[i := w])
  {
    forall j: nat | j < |ws| && ws[j].active
      ensures w.base + w.size <= ws[j].base || ws[j].base + ws[j].size <= w.base
    {
      assert Placed(ws[j], bars);
      if ws[j].pbar == k { assert InBar(ws[j], bars[k]); }
    }
  }

  lemma {:induction false} AlignKeeps(e: nat, align: nat)
    requires Pow2(align) && e % MIN_SIZE == 0
    ensures AlignUp(e, align) % MIN_SIZE == 0
  {
    assert Pow2(MIN_SIZE) by { MinIsPow2(); }
    if align <= MIN_SIZE {
      Pow2Divides(align, MIN_SIZE);
      ModTrans(e, MIN_SIZE, align);
    } else {
      Pow2Divides(MIN_SIZE, align);
      ModTrans(AlignUp(e, align), align, MIN_SIZE);
    }
  }

  lemma {:induction false} MinIsPow2()
    ensures Pow2(MIN_SIZE) && Pow2(4096)
  {
    assert Pow2(8);
    assert Pow2(64);
    assert Pow2(512);
    assert Pow2(4096);
  }

  // ----- what the hardware is told

  /** OBWINLB, OBWINUB and OBWINSZ of a window. */
  datatype WinRegs = WinRegs(lb: nat, ub: nat, sz: nat)

  lemma {:induction false} LogMin(n: nat)
    requires n >= MIN_SIZE
    ensures Log2(n) >= 15
  {
    LogGrows(MIN_SIZE, n);
    assert Log2(8) == 3;
    assert Log2(64) == 6;
    assert Log2(512) == 9;
    assert Log2(4096) == 12;
  }

  function RegsFor(w: ObWin): WinRegs
    requires Pow2(w.size) && w.size >= MIN_SIZE
  {
    LogMin(w.size);
    WinRegs(w.base % TWO32 / 0x8000 * 0x8000 + 1, w.base / TWO32, (Log2(w.size) - 15) * 256)
  }

  function ZoneFor(rioAddr: nat, destid: nat): Zone {
    Zone(rioAddr % TWO32 / 4096 * 4096 + NREAD + NWR, rioAddr / TWO32, destid)
  }

  function Enabled(r: WinRegs): bool { r.lb % 2 == 1 }
  function HwBase(r: WinRegs): nat { r.ub * TWO32 + r.lb / 0x8000 * 0x8000 }
  ghost function HwSize(r: WinRegs): nat { Exp2(15 + r.sz / 256) }
  function ZoneAddr(z: Zone): nat { z.data1 * TWO32 + z.data0 / 4096 * 4096 }
  function ReadType(z: Zone): nat { z.data0 % 4096 / 0x100 * 0x100 }
  function WriteType(z: Zone): nat { z.data0 % 0x100 }

  /** What the registers of an active window say. */
  ghost predicate Programmed(w: ObWin, r: WinRegs, zones: seq<Zone>, i: nat) {
    && Enabled(r) && HwBase(r) == w.base && HwSize(r) == w.size && OnlyFields(r)
    && forall z: nat :: z < ZONES ==> ZoneOk(w, zones, i, z)
  }

  /** No bits but those of the fields are set. */
  ghost predicate OnlyFields(r: WinRegs) {
    r.lb % 0x8000 == 1 && r.sz % 256 == 0
  }

  ghost predicate ZoneOk(w: ObWin, zones: seq<Zone>, i: nat, z: nat) {
    && i * ZONES + z < |zones|
    && ZoneAddr(zones[i * ZONES + z]) == ZoneStart(w, z) && zones[i * ZONES + z].data2 == w.destid
    && ReadType(zones[i * ZONES + z]) == NREAD && WriteType(zones[i * ZONES + z]) == NWR
  }

  function ZoneStart(w: ObWin, z: nat): nat { w.rstart + z * (w.size / ZONES) }

  lemma {:induction false} ZoneWritten(w: ObWin, was: seq<Zone>, zones: seq<Zone>, obw: nat, i: nat)
    requires obw < OBWIN_NUM && i < ZONES && |was| == OBWIN_NUM * ZONES && ZoneStart(w, i) % 4096 == 0
    requires w.size / ZONES % 4096 == 0
    requires zones == was[obw * ZONES + i := ZoneFor(ZoneStart(w, i), w.destid)]
    ensures ZoneOk(w, zones, obw, i) && forall z: nat :: z < i && ZoneOk(w, was, obw, z) ==> ZoneOk(w, zones, obw, z)
    ensures ZoneStart(w, i + 1) == ZoneStart(w, i) + w.size / ZONES && ZoneStart(w, i + 1) % 4096 == 0
    ensures ZoneStart(w, 0) == w.rstart
  {
    ZoneSays(ZoneStart(w, i), w.destid);
    var zsize := w.size / ZONES;
    assert (i + 1) * zsize == i * zsize + zsize;
    MultipleSum(ZoneStart(w, i), zsize, 4096);
    hide ZoneStart;
  }

  lemma {:induction false} RegsSay(w: ObWin)
    requires Pow2(w.size) && w.size >= MIN_SIZE && w.base % MIN_SIZE == 0
    ensures var r := RegsFor(w); Enabled(r) && HwBase(r) == w.base && HwSize(r) == w.size && OnlyFields(r)
  {
    hide Pow2, Log2, Exp2;
    LogMin(w.size);
    ExpLog(w.size);
    BaseWord(w.base);
  }

  lemma {:induction false} BaseWord(x: nat)
    requires x % MIN_SIZE == 0
    ensures var lb := x % TWO32 / 0x8000 * 0x8000 + 1;
            lb % 2 == 1 && x / TWO32 * TWO32 + lb / 0x8000 * 0x8000 == x && lb % 0x8000 == 1
  {
    LowWord(x, 0x8000, 0x2_0000);
  }

  lemma {:induction false} ZoneSays(rioAddr: nat, destid: nat)
    requires rioAddr % 4096 == 0
    ensures ZoneAddr(ZoneFor(rioAddr, destid)) == rioAddr
    ensures ReadType(ZoneFor(rioAddr, destid)) == NREAD && WriteType(ZoneFor(rioAddr, destid)) == NWR
  {
    LowWord(rioAddr, 4096, 0x10_0000);
    FlagBits(rioAddr / 4096 % 0x10_0000);
  }

  lemma {:induction false} FlagBits(k: nat)
    ensures (4096 * k / 4096 * 4096 + 0x101) / 4096 * 4096 == 4096 * k
    ensures (4096 * k / 4096 * 4096 + 0x101) % 4096 == 0x101 && (4096 * k / 4096 * 4096 + 0x101) % 0x100 == 1
  {
    DivIs(4096 * k + 0x101, k, 0x101, 4096);
    ModIs(4096 * k + 0x101, k, 0x101, 4096);
    ModIs(4096 * k + 0x101, 16 * k + 1, 1, 0x100);
  }

  /** A zone is an eighth of a power of two, at least 4 KB. */
  lemma {:induction false} ZoneSize(size: nat)
    requires Pow2(size) && size >= MIN_SIZE
    ensures size == ZONES * (size / ZONES) && size / ZONES % 4096 == 0 && size % 4096 == 0 && Pow2(size / ZONES)
  {
    var zone := Eighth(size);
    MinIsPow2();
    Pow2Divides(4096, zone);
    Pow2Divides(4096, size);
  }

  lemma {:induction false} Eighth(size: nat) returns (zone: nat)
    requires Pow2(size) && size >= MIN_SIZE
    ensures zone == size / ZONES && size == ZONES * zone && Pow2(zone) && zone >= 4096
  {
    var half := size / 2;
    var quarter := half / 2;
    zone := quarter / 2;
    assert Pow2(half) && Pow2(quarter) && Pow2(zone);
  }

  /** The hardware knows exactly the active windows. */
  ghost predicate AllProgrammed(ws: seq<ObWin>, regs: seq<WinRegs>, zones: seq<Zone>) {
    && |ws| == |regs|
    && forall i: nat :: i < |ws| ==> if ws[i].active then Programmed(ws[i], regs[i], zones, i) else !Enabled(regs[i])
  }

  lemma {:induction false} OneProgrammed(ws: seq<ObWin>, regs: seq<WinRegs>, zones: seq<Zone>, i: nat, w: ObWin,
        regs': seq<WinRegs>, zones': seq<Zone>)
    requires AllProgrammed(ws, regs, zones) && |zones'| == |zones| == |ws| * ZONES && |regs'| == |regs| && i < |ws|
    requires if w.active then Programmed(w, regs'[i], zones', i) else !Enabled(regs'[i])
    requires forall j: nat :: j < |ws| && j != i ==> regs'[j] == regs[j]
    requires forall c: nat :: c < |zones| && !(i * ZONES <= c < (i + 1) * ZONES) ==> zones'[c] == zones[c]
    ensures AllProgrammed(ws[i := w], regs', zones')
  {
    hide HwBase, HwSize;
    forall j: nat | j < |ws| && j != i && ws[j].active ensures Programmed(ws[j], regs'[j], zones', j) {
      forall z: nat | z < ZONES ensures ZoneOk(ws[j], zones', j, z) {
        assert ZoneOk(ws[j], zones, j, z);
      }
    }
  }

  /** A new window enters the books. */
  lemma {:induction false} Entered(ws: seq<ObWin>, bars: seq<Bar>, cnt: int, k: nat, i: nat, w: ObWin)
    requires AllPlaced(ws, bars) && Disjoint(ws) && BarsOk(bars) && Accounts(ws, bars, cnt) && cnt > 0
    requires k < 2 && i < |ws| && !ws[i].active && w.active && w.pbar == k
    requires Pow2(w.size) && MIN_SIZE <= w.size < TWO32 && w.base % MIN_SIZE == 0 && Fits(ws, bars[k], w.base, w.size)
    requires w.rstart % w.size == 0 && w.rstart + w.size <= TWO64 && w.destid < 0x1_0000
    ensures var bars' := bars[k := bars[k].(free := bars[k].free - w.size)];
            && AllPlaced(ws[i := w], bars') && Disjoint(ws[i := w]) && BarsOk(bars')
            && Accounts(ws[i := w], bars', cnt - 1) && Placed(w, bars')
  {
    hide Pow2;
    PlaceNew(ws, bars, k, i, w);
    Recounted(ws, bars, bars[k := bars[k].(free := bars[k].free - w.size)], cnt, cnt - 1, i, w);
  }

  /** A window leaves them. */
  lemma {:induction false} Left(ws: seq<ObWin>, bars: seq<Bar>, cnt: int, i: nat)
    requires AllPlaced(ws, bars) && Disjoint(ws) && BarsOk(bars) && Accounts(ws, bars, cnt) && i < |ws| && ws[i].active
    ensures ws[i].pbar < 2
    ensures var w, k := ws[i].(active := false), ws[i].pbar;
            var bars' := bars[k := bars[k].(free := bars[k].free + ws[i].size)];
            && AllPlaced(ws[i := w], bars') && Disjoint(ws[i := w]) && BarsOk(bars')
            && Accounts(ws[i := w], bars', cnt + 1)
  {
    hide Pow2;
    var w, k := ws[i].(active := false), ws[i].pbar;
    assert Placed(ws[i], bars);
    Recounted(ws, bars, bars[k := bars[k].(free := bars[k].free + ws[i].size)], cnt, cnt + 1, i, w);
  }

  lemma {:induction false} Recounted(ws: seq<ObWin>, bars: seq<Bar>, bars': seq<Bar>, cnt: int, cnt': int, i: nat,
        w: ObWin)
    requires |bars| == |bars'| == 2 && i < |ws| && Accounts(ws, bars, cnt) && AllPlaced(ws[i := w], bars)
    requires forall k: nat :: k < 2 ==> bars'[k].base == bars[k].base && bars'[k].size == bars[k].size
    requires forall k: nat :: k < 2 ==> bars'[k].free + Share(w, k) == bars[k].free + Share(ws[i], k)
    requires !NoBars(bars) && cnt' + (if w.active then 1 else 0) == cnt + if ws[i].active then 1 else 0
    ensures AllPlaced(ws[i := w], bars') && Accounts(ws[i := w], bars', cnt')
  {
    hide AllPlaced;
    Changed(ws, i, w, 0);
    Changed(ws, i, w, 1);
    SamePlaces(ws[i := w], bars, bars');
  }

  /** The free counts do not matter for where windows may be. */
  lemma {:induction false} SamePlaces(ws: seq<ObWin>, bars: seq<Bar>, bars': seq<Bar>)
    requires |bars| == |bars'| == 2 && AllPlaced(ws, bars)
    requires forall k: nat :: k < 2 ==> bars'[k].base == bars[k].base && bars'[k].size == bars[k].size
    ensures AllPlaced(ws, bars')
  {
    hide Pow2;
    forall j: nat | j < |ws| && ws[j].active ensures Placed(ws[j], bars') {
      assert Placed(ws[j], bars);
    }
  }

  /** With a multiple of the least size at every window's end, the search stays on such multiples. */
  lemma {:induction false} PlacedGranular(ws: seq<ObWin>, bars: seq<Bar>, k: nat, size: nat)
    requires AllPlaced(ws, bars) && BarsOk(bars) && k < 2 && bars[k].size >= MIN_SIZE
    ensures Granular(ws, bars[k])
  {
    MinIsPow2();
    assert BarOk(bars[k]);
    Pow2Divides(MIN_SIZE, bars[k].size);
    ModTrans(bars[k].base, bars[k].size, MIN_SIZE);
    forall i: nat | i < |ws| && InBar(ws[i], bars[k]) ensures (ws[i].base + ws[i].size) % MIN_SIZE == 0 {
      assert Placed(ws[i], bars);
      Pow2Divides(MIN_SIZE, ws[i].size);
      MultipleSum(ws[i].base, ws[i].size, MIN_SIZE);
    }
  }

  class Device {
    const obWin: array<ObWin>
    const p2rBar: array<Bar>
    var obwinCnt: int
    var regs: seq<WinRegs>
    var zones: seq<Zone>

    ghost predicate Shape()
      reads this, obWin, p2rBar
    {
      obWin.Length == OBWIN_NUM && p2rBar.Length == 2 && |regs| == OBWIN_NUM && |zones| == OBWIN_NUM * ZONES
    }

    /** Windows are disjoint, counted right, and what the registers say. */
    ghost predicate Valid()
      reads this, obWin, p2rBar
    {
      && Shape() && BarsOk(p2rBar[..]) && AllPlaced(obWin[..], p2rBar[..]) && Disjoint(obWin[..])
      && Accounts(obWin[..], p2rBar[..], obwinCnt)
      && AllProgrammed(obWin[..], regs, zones)
    }

    /** `tsi721_init_pc2sr_mapping`. */
    constructor (bar0: Bar, bar1: Bar)
      requires BarsOk([bar0, bar1])
      ensures Valid() && fresh(obWin) && fresh(p2rBar)
      ensures forall i: nat :: i < OBWIN_NUM ==> !obWin[i].active
      ensures p2rBar[..] == [bar0.(free := bar0.size), bar1.(free := bar1.size)]
    {
      obWin := new ObWin[OBWIN_NUM](_ => ObWin(0, 0, 0, 0, false, 0));
      p2rBar := new Bar[2](k => if k == 0 then bar0.(free := bar0.size) else bar1.(free := bar1.size));
      regs := seq(OBWIN_NUM, _ => WinRegs(0, 0, 0));
      zones := seq(OBWIN_NUM * ZONES, _ => Zone(0, 0, 0));
      obwinCnt := if bar0.size == 0 && bar1.size == 0 then 0 else OBWIN_NUM;
      new;
      AllInactive(obWin[..]);
    }

    /** `tsi721_obw_alloc`: takes the first inactive window and the least place in the BAR that fits. */
    method Alloc(k: nat, size: nat) returns (ret: int, winId: nat)
      requires Shape() && Sizes(obWin[..]) && k < 2 && size >= ZONES
      modifies obWin, p2rBar, this`obwinCnt
      ensures ret == 0 || ret == ENOMEM || ret == EIO
      ensures ret == ENOMEM <==> forall a: nat :: !Fits(old(obWin[..]), old(p2rBar[k]), a, size)
      ensures ret == EIO ==> forall i: nat :: i < OBWIN_NUM ==> old(obWin[i].active)
      ensures ret != 0 ==> obWin[..] == old(obWin[..]) && p2rBar[..] == old(p2rBar[..]) && obwinCnt == old(obwinCnt)
      ensures ret == 0 ==>
                && FirstInactive(old(obWin[..]), winId)
                && Least(old(obWin[..]), old(p2rBar[k]), obWin[winId].base, size)
                && obWin[..] == old(obWin[..])[winId := old(obWin[winId]).(active := true, base := obWin[winId].base,
                      size := size, pbar := k)]
                && p2rBar[..] == old(p2rBar[..])[k := old(p2rBar[k]).(free := old(p2rBar[k]).free - size)]
                && obwinCnt == old(obwinCnt) - 1
      ensures ret == 0 && Pow2(size) && size >= MIN_SIZE && Granular(old(obWin[..]), old(p2rBar[k])) ==>
                obWin[winId].base % MIN_SIZE == 0
    {
      hide Fits, Granular, Least, FirstInactive, Pow2;
      var bar := p2rBar[k];
      var winBase, newWin := Search(bar, size);
      LeastHere(obWin[..], bar, winBase, size);
      if winBase + size > bar.base + bar.size {
        return ENOMEM, 0;
      }
      if newWin.None? {
        return EIO, 0;
      }
      winId := newWin.value;
      InactiveThere(obWin[..], winId);
      obWin[winId] := obWin[winId].(active := true, base := winBase, size := size, pbar := k);
      obwinCnt := obwinCnt - 1;
      p2rBar[k] := p2rBar[k].(free := p2rBar[k].free - size);
      ret := 0;
    }

    /** The search: scans the windows until nothing clashes, jumping behind a window that does. */
    method Search(bar: Bar, size: nat) returns (winBase: nat, newWin: Option<nat>)
      requires Shape() && Sizes(obWin[..]) && size >= ZONES
      ensures bar.base <= winBase && (winBase == bar.base || winBase % (size / ZONES) == 0)
      ensures FreeAt(obWin[..], bar, winBase, size) && forall a: nat :: a < winBase ==> !Fits(obWin[..], bar, a, size)
      ensures newWin.Some? ==> FirstInactive(obWin[..], newWin.value)
      ensures newWin.None? ==> forall j: nat :: j < OBWIN_NUM ==> obWin[j].active
      ensures Pow2(size) && size >= MIN_SIZE && Granular(obWin[..], bar) ==> winBase % MIN_SIZE == 0
    {
      hide Fits, Granular, FreeAt, Ahead, Pow2, FirstInactive, Candidate, Clash, InBar;
      winBase, newWin := bar.base, None;
      var align := size / ZONES;
      var i: nat := 0;
      ghost var ws := obWin[..];
      NothingBefore(ws, bar, size);
      GranularStart(ws, bar);
      while i < IBWIN_NUM
        invariant i <= IBWIN_NUM && bar.base <= winBase && (winBase == bar.base || winBase % align == 0)
        invariant newWin.Some? ==> FirstInactive(ws, newWin.value)
        invariant i == IBWIN_NUM ==>
                    FreeAt(ws, bar, winBase, size) && (newWin.None? ==> forall j: nat :: j < i ==> obWin[j].active)
        invariant forall a: nat :: a < winBase ==> !Fits(ws, bar, a, size)
        invariant Pow2(size) && size >= MIN_SIZE && Granular(ws, bar) ==> winBase % MIN_SIZE == 0
        decreases Ahead(ws, bar, winBase), OBWIN_NUM - i
      {
        i, newWin := FirstClash(bar, winBase, size, newWin);
        if i < IBWIN_NUM {
          Jump(ws, bar, winBase, size, i);
          JumpLess(ws, bar, winBase, size, i);
          GranularJump(ws, bar, i, size);
          winBase := obWin[i].base + obWin[i].size;
          winBase := AlignUp(winBase, align);
        }
      }
    }

    /** One scan over the windows: the first active one of the BAR that clashes, and on the way the
        first inactive one. */
    method FirstClash(bar: Bar, winBase: nat, size: nat, was: Option<nat>) returns (i: nat, newWin: Option<nat>)
      requires Shape() && (was.Some? ==> FirstInactive(obWin[..], was.value))
      ensures i <= IBWIN_NUM && (newWin.Some? ==> FirstInactive(obWin[..], newWin.value))
      ensures i < IBWIN_NUM ==> InBar(obWin[i], bar) && Clash(winBase, size, obWin[i])
      ensures i == IBWIN_NUM ==>
                FreeAt(obWin[..], bar, winBase, size) && (newWin.None? ==> forall j: nat :: j < i ==> obWin[j].active)
    {
      newWin := was;
      i := 0;
      while i < IBWIN_NUM
        invariant i <= IBWIN_NUM && (newWin.Some? ==> FirstInactive(obWin[..], newWin.value))
        invariant forall j: nat :: j < i && InBar(obWin[j], bar) ==> !Clash(winBase, size, obWin[j])
        invariant newWin.None? ==> forall j: nat :: j < i ==> obWin[j].active
      {
        var win := obWin[i];
        if !win.active {
          if newWin.None? {
            newWin := Some(i);
          }
        } else if win.base >= bar.base && win.base < bar.base + bar.size
                  && winBase < win.base + win.size && winBase + size > win.base {
          break;
        }
        i := i + 1;
      }
    }

    /** `tsi721_map_outb_win`: the least place that fits, in the first BAR that has one. */
    method MapOutb(destid: nat, rstart: nat, size: nat) returns (ret: int, laddr: nat, ghost k: nat, ghost obw: nat)
      requires Valid() && size < TWO32 && rstart < TWO64 && destid < 0x1_0000
      modifies this, obWin, p2rBar
      ensures Valid() && ret in {0, EINVAL, EBUSY, ENOMEM}
      ensures ret == EINVAL <==> !Pow2(size) || size < MIN_SIZE || rstart % size != 0
      ensures ret == EBUSY <==> ret != EINVAL && old(obwinCnt) == 0
      ensures ret == ENOMEM ==> forall j: nat, a: nat :: j < 2 ==> !Fits(old(obWin[..]), old(p2rBar[j]), a, size)
      ensures ret != 0 ==> obWin[..] == old(obWin[..]) && p2rBar[..] == old(p2rBar[..]) && obwinCnt == old(obwinCnt)
      ensures ret == 0 ==>
                && k < 2 && Least(old(obWin[..]), old(p2rBar[k]), laddr, size)
                && (k == 1 ==> forall a: nat :: !Fits(old(obWin[..]), old(p2rBar[0]), a, size))
                && FirstInactive(old(obWin[..]), obw)
                && obWin[..] == old(obWin[..])[obw := ObWin(laddr, size, destid, rstart, true, k)]
                && obwinCnt == old(obwinCnt) - 1
                && p2rBar[..] == old(p2rBar[..])[k := old(p2rBar[k]).(free := old(p2rBar[k]).free - size)]
    {
      hide Pow2, Fits, Least, FirstInactive, AllPlaced, Disjoint, Accounts, BarsOk, AllProgrammed, Granular, Placed,
           Programmed;
      k, obw, laddr := 0, 0, 0;
      if !Pow2(size) || size < 0x8000 || rstart % size != 0 {
        return EINVAL, 0, 0, 0;
      }
      if obwinCnt == 0 {
        return EBUSY, 0, 0, 0;
      }
      ghost var ws, bars := obWin[..], p2rBar[..];
      Before(size);
      ret := ENOMEM;
      var w: nat := 0;
      var i := 0;
      while i < 2
        invariant i <= 2 && ret == ENOMEM && obWin[..] == ws && p2rBar[..] == bars && obwinCnt == old(obwinCnt)
        invariant Shape()
        invariant forall j: nat, a: nat :: j < i ==> !Fits(ws, bars[j], a, size)
        invariant regs == old(regs) && zones == old(zones)
      {
        if p2rBar[i].free >= size {
          ret, w := Alloc(i, size);
          if ret == 0 {
            break;
          }
        }
        i := i + 1;
      }
      if ret != 0 {
        return ret, 0, 0, 0;
      }
      k, obw := i, w;
      InactiveThere(ws, w);
      laddr := obWin[w].base;
      LeastFits(ws, bars[k], laddr, size);
      obWin[w] := obWin[w].(destid := destid, rstart := rstart);
      ghost var win := ObWin(laddr, size, destid, rstart, true, k);
      NoWrap(rstart, size);
      Entered(ws, bars, old(obwinCnt), k, w, win);
      assert obWin[..] == ws[w := win];
      Program(w);
      OneProgrammed(ws, old(regs), old(zones), w, win, regs, zones);
    }

    /** What a request finds before it searches. */
    lemma {:induction false} Before(size: nat)
      requires Valid() && Pow2(size) && size >= MIN_SIZE && obwinCnt != 0
      ensures Sizes(obWin[..]) && obwinCnt > 0 && exists i: nat :: i < OBWIN_NUM && !obWin[i].active
      ensures forall k: nat :: k < 2 ==>
                if p2rBar[k].free < size then forall a: nat :: !Fits(obWin[..], p2rBar[k], a, size)
                                         else Granular(obWin[..], p2rBar[k])
    {
      hide Pow2, Fits, Granular, Placed, Programmed, AllProgrammed, Disjoint;
      SizesOk(obWin[..], p2rBar[..]);
      SomeInactive(obWin[..]);
      forall k: nat | k < 2
        ensures if p2rBar[k].free < size then forall a: nat :: !Fits(obWin[..], p2rBar[k], a, size)
              else Granular(obWin[..], p2rBar[k])
      {
        if p2rBar[k].free < size {
          NoRoom(k, size);
        } else {
          PlacedGranular(obWin[..], p2rBar[..], k, size);
        }
      }
    }

    /** Where the free count is too small, nothing fits. */
    lemma {:induction false} NoRoom(k: nat, size: nat)
      requires Valid() && k < 2 && size >= ZONES
      ensures p2rBar[k].free < size ==> forall a: nat :: !Fits(obWin[..], p2rBar[k], a, size)
    {
      forall a: nat | Fits(obWin[..], p2rBar[k], a, size) ensures p2rBar[k].free >= size {
        FitsFree(obWin[..], p2rBar[k], k, a, size);
      }
    }

    /** The translation zones and the window registers for window `obw`. */
    method Program(obw: nat)
      requires Shape() && obw < OBWIN_NUM && obWin[obw].active && Placed(obWin[obw], p2rBar[..])
      modifies this`regs, this`zones
      ensures Shape() && Programmed(obWin[obw], regs[obw], zones, obw)
      ensures forall i: nat :: i < OBWIN_NUM && i != obw ==> regs[i] == old(regs)[i]
      ensures forall c: nat :: c < |zones| && !(obw * ZONES <= c < (obw + 1) * ZONES) ==> zones[c] == old(zones)[c]
    {
      hide Pow2, Exp2, Log2, Placed, HwBase, HwSize, Enabled, RegsFor, ZoneOk, ZoneAddr, ZoneFor, OnlyFields;
      var w := obWin[obw];
      PlacedFacts(w, p2rBar[..]);
      var zsize := w.size / ZONES;
      var rioAddr := w.rstart;
      var i := 0;
      while i < ZONES
        invariant i <= ZONES && |zones| == OBWIN_NUM * ZONES && regs == old(regs)
        invariant rioAddr == ZoneStart(w, i) && rioAddr % 4096 == 0
        invariant forall z: nat :: z < i ==> ZoneOk(w, zones, obw, z)
        invariant forall c: nat :: c < |zones| && !(obw * ZONES <= c < obw * ZONES + i) ==> zones[c] == old(zones)[c]
      {
        ghost var was := zones;
        zones := zones[obw * ZONES + i := ZoneFor(rioAddr, w.destid)];
        ZoneWritten(w, was, zones, obw, i);
        rioAddr := rioAddr + zsize;
        i := i + 1;
      }
      regs := regs[obw := RegsFor(w)];
    }

    /** The space of a window is free in its BAR again. */
    ghost predicate Returned(before: seq<Bar>, after: seq<Bar>, w: ObWin) {
      && w.pbar < |before| && after == before[w.pbar := before[w.pbar].(free := before[w.pbar].free + w.size)]
    }

    /** `tsi721_unmap_outb_win`: gives back the first window with this target and address. */
    method UnmapOutb(destid: nat, rstart: nat) returns (ghost i: nat)
      requires Valid()
      modifies this, obWin, p2rBar
      ensures Valid() && i <= OBWIN_NUM
      ensures forall j: nat :: j < i ==> !Maps(old(obWin[j]), destid, rstart)
      ensures i < OBWIN_NUM ==> Maps(old(obWin[i]), destid, rstart)
                                && obWin[..] == old(obWin[..])[i := old(obWin[i]).(active := false)]
                                && obwinCnt == old(obwinCnt) + 1
                                && Returned(old(p2rBar[..]), p2rBar[..], old(obWin[i]))
                                && regs == old(regs)[i := old(regs)[i].(lb := 0)]
      ensures i == OBWIN_NUM ==>
                && obWin[..] == old(obWin[..]) && obwinCnt == old(obwinCnt) && p2rBar[..] == old(p2rBar[..])
                && regs == old(regs)
    {
      hide AllPlaced, Disjoint, Accounts, BarsOk, AllProgrammed;
      ghost var ws, bars := obWin[..], p2rBar[..];
      i := 0;
      var n: nat := 0;
      while n < OBWIN_NUM
        invariant n <= OBWIN_NUM && obWin[..] == ws && p2rBar[..] == bars && obwinCnt == old(obwinCnt)
        invariant regs == old(regs) && zones == old(zones)
        invariant forall j: nat :: j < n ==> !Maps(ws[j], destid, rstart)
      {
        var w := obWin[n];
        if w.active && w.destid == destid && w.rstart == rstart {
          Left(ws, bars, obwinCnt, n);
          obWin[n] := w.(active := false);
          regs := regs[n := regs[n].(lb := 0)];
          p2rBar[w.pbar] := p2rBar[w.pbar].(free := p2rBar[w.pbar].free + w.size);
          obwinCnt := obwinCnt + 1;
          OneProgrammed(ws, old(regs), zones, n, w.(active := false), regs, zones);
          return n;
        }
        n := n + 1;
      }
      i := n;
    }

    /** An address is translated exactly if it lies in an active window, by that window alone, to
        `rstart` plus the offset in the window, whatever zones this crosses. */
    lemma {:induction false} Linear(i: nat, addr: nat, destid: nat, rio: nat)
      requires Valid() && i < OBWIN_NUM
      ensures Translates(regs, zones, i, addr, destid, rio) <==>
                obWin[i].active && obWin[i].base <= addr < obWin[i].base + obWin[i].size
                && destid == obWin[i].destid && rio == obWin[i].rstart + (addr - obWin[i].base)
      ensures forall j: nat, d: nat, r: nat ::
            j < OBWIN_NUM && j != i && Translates(regs, zones, i, addr, destid, rio) ==>
                !Translates(regs, zones, j, addr, d, r)
    {
      hide Accounts, BarsOk, Pow2, Programmed, Translates;
      WindowLinear(obWin[..], p2rBar[..], regs, zones, i, addr, destid, rio);
      forall j: nat, d: nat, r: nat | j < OBWIN_NUM && j != i && Translates(regs, zones, i, addr, destid, rio)
        ensures !Translates(regs, zones, j, addr, d, r)
      {
        WindowLinear(obWin[..], p2rBar[..], regs, zones, j, addr, d, r);
      }
    }
  }

  /** How the hardware translates: an enabled window that holds the address, and the zone in it. */
  ghost predicate Translates(regs: seq<WinRegs>, zones: seq<Zone>, i: nat, addr: nat, destid: nat, rio: nat) {
    && i < |regs| && Enabled(regs[i]) && HwSize(regs[i]) >= ZONES
    && HwBase(regs[i]) <= addr < HwBase(regs[i]) + HwSize(regs[i])
    && InZone(zones, i, addr - HwBase(regs[i]), HwSize(regs[i]) / ZONES, destid, rio)
  }

  ghost predicate InZone(zones: seq<Zone>, i: nat, off: nat, zsize: nat, destid: nat, rio: nat)
    requires zsize > 0
  {
    && i * ZONES + off / zsize < |zones|
    && var z := zones[i * ZONES + off / zsize];
    ReadType(z) == NREAD && WriteType(z) == NWR && destid == z.data2 && rio == ZoneAddr(z) + off % zsize
  }

  lemma {:induction false} WindowLinear(ws: seq<ObWin>, bars: seq<Bar>, regs: seq<WinRegs>, zones: seq<Zone>, i: nat,
        addr: nat, destid: nat, rio: nat)
    requires AllProgrammed(ws, regs, zones) && AllPlaced(ws, bars) && i < |ws|
    ensures Translates(regs, zones, i, addr, destid, rio) <==>
              ws[i].active && ws[i].base <= addr < ws[i].base + ws[i].size
              && destid == ws[i].destid && rio == ws[i].rstart + (addr - ws[i].base)
  {
    hide Pow2, HwBase, HwSize, Enabled, InZone, ZoneOk;
    var w := ws[i];
    if w.active && w.base <= addr < w.base + w.size {
      PlacedFacts(w, bars);
      ZoneSize(w.size);
      ZoneLinear(w, zones, i, addr - w.base, destid, rio);
    }
  }

  lemma {:induction false} ZoneLinear(w: ObWin, zones: seq<Zone>, i: nat, off: nat, destid: nat, rio: nat)
    requires off < w.size && w.size == ZONES * (w.size / ZONES) && w.size >= ZONES
    requires forall z: nat :: z < ZONES ==> ZoneOk(w, zones, i, z)
    ensures InZone(zones, i, off, w.size / ZONES, destid, rio) <==> destid == w.destid && rio == w.rstart + off
  {
    var zsize := w.size / ZONES;
    DivMod(off, zsize);
    Times(zsize, off / zsize, ZONES);
    assert zsize * (off / zsize) == off / zsize * zsize;
    assert ZoneOk(w, zones, i, off / zsize);
  }

  ghost predicate Maps(w: ObWin, destid: nat, rstart: nat) {
    w.active && w.destid == destid && w.rstart == rstart
  }

  lemma {:induction false} LeastFits(ws: seq<ObWin>, bar: Bar, b: nat, size: nat)
    requires size >= ZONES && Least(ws, bar, b, size)
    ensures Fits(ws, bar, b, size)
  {
  }

  lemma {:induction false} NoWrap(rstart: nat, size: nat)
    requires Pow2(size) && size < TWO32 && rstart < TWO64 && rstart % size == 0
    ensures rstart + size <= TWO64
  {
    BigPowers();
    Pow2Divides(size, TWO64);
    MultipleSum(rstart, TWO64, size);
  }

  lemma {:induction false} BigPowers()
    ensures Pow2(TWO32) && Pow2(TWO64)
  {
    MinIsPow2();
    Pow2Times(MIN_SIZE, MIN_SIZE);
    Pow2Times(4, MIN_SIZE * MIN_SIZE);
    Pow2Times(TWO32, TWO32);
  }

  lemma {:induction false} PlacedFacts(w: ObWin, bars: seq<Bar>)
    requires Placed(w, bars)
    ensures Pow2(w.size) && w.size >= MIN_SIZE && w.size / ZONES % 4096 == 0 && w.rstart % 4096 == 0
    ensures var r := RegsFor(w); Enabled(r) && HwBase(r) == w.base && HwSize(r) == w.size && OnlyFields(r)
  {
    ZoneSize(w.size);
    ModTrans(w.rstart, w.size, 4096);
    RegsSay(w);
  }

  lemma {:induction false} SizesOk(ws: seq<ObWin>, bars: seq<Bar>)
    requires AllPlaced(ws, bars)
    ensures Sizes(ws)
  {
  }

  // ----- steps of the search

  /** All places of the BAR and its windows so far are multiples of the least window size. */
  ghost predicate Granular(ws: seq<ObWin>, bar: Bar) {
    bar.base % MIN_SIZE == 0 && forall i: nat ::
          i < |ws| && InBar(ws[i], bar) ==> (ws[i].base + ws[i].size) % MIN_SIZE == 0
  }

  lemma {:induction false} NothingBefore(ws: seq<ObWin>, bar: Bar, size: nat)
    requires size >= ZONES
    ensures forall a: nat :: a < bar.base ==> !Fits(ws, bar, a, size)
  {
  }

  lemma {:induction false} GranularStart(ws: seq<ObWin>, bar: Bar)
    ensures Granular(ws, bar) ==> bar.base % MIN_SIZE == 0
  {
  }

  lemma {:induction false} GranularJump(ws: seq<ObWin>, bar: Bar, i: nat, size: nat)
    requires i < |ws| && InBar(ws[i], bar) && size >= ZONES
    ensures Pow2(size) && size >= MIN_SIZE && Granular(ws, bar) ==>
              AlignUp(ws[i].base + ws[i].size, size / ZONES) % MIN_SIZE == 0
  {
    if Pow2(size) && size >= MIN_SIZE && Granular(ws, bar) {
      ZoneSize(size);
      AlignKeeps(ws[i].base + ws[i].size, size / ZONES);
    }
  }

  lemma {:induction false} JumpLess(ws: seq<ObWin>, bar: Bar, b: nat, size: nat, i: nat)
    requires size >= ZONES && i < |ws| && InBar(ws[i], bar) && Clash(b, size, ws[i]) && bar.base <= b
    ensures Ahead(ws, bar, AlignUp(ws[i].base + ws[i].size, size / ZONES)) < Ahead(ws, bar, b)
    ensures bar.base <= AlignUp(ws[i].base + ws[i].size, size / ZONES)
  {
    AheadLess(ws, bar, b, AlignUp(ws[i].base + ws[i].size, size / ZONES), i);
  }

  /** Where the search ends is the least place that fits, if it is in the BAR at all. */
  lemma {:induction false} LeastHere(ws: seq<ObWin>, bar: Bar, b: nat, size: nat)
    requires size >= ZONES && bar.base <= b && (b == bar.base || b % (size / ZONES) == 0)
    requires FreeAt(ws, bar, b, size) && forall a: nat :: a < b ==> !Fits(ws, bar, a, size)
    ensures b + size <= bar.base + bar.size ==> Least(ws, bar, b, size) && Fits(ws, bar, b, size)
    ensures b + size > bar.base + bar.size ==> forall a: nat :: !Fits(ws, bar, a, size)
  {
  }

  lemma {:induction false} InactiveThere(ws: seq<ObWin>, k: nat)
    requires FirstInactive(ws, k)
    ensures k < |ws| && !ws[k].active
  {
  }

  lemma {:induction false} AllInactive(ws: seq<ObWin>)
    requires forall i: nat :: i < |ws| ==> !ws[i].active
    ensures Inactive(ws) == |ws| && forall k: nat :: Taken(ws, k) == 0
  {
    if ws != [] {
      assert forall i: nat :: i < |ws[1..]| ==> ws[1..][i] == ws[i + 1];
      AllInactive(ws[1..]);
    }
  }
}
