/** The configuration-space file of a device: byte ranges split into aligned register accesses. */
module Config {
  import opened Arith

  const MAINT_SPACE_SZ: nat := 0x100_0000
  const USER_SPACE_SZ: nat := 0x100
  const BAD_SIZE: int := 0x81

  /** A register access of `len` bytes. */
  datatype Access = Access(off: nat, len: nat)

  ghost predicate Aligned(a: Access) {
    (a.len == 1 || a.len == 2 || a.len == 4) && a.off % a.len == 0
  }

  /** The offset of a byte within a word. */
  function InWord(off: nat): nat { off % 4 }

  /** Where words can start, or a last half-word. */
  predicate Boundary(off: nat, size: nat) {
    (size > 2 ==> InWord(off) == 0) && (size > 1 ==> InWord(off) == 0 || InWord(off) == 2)
  }

  /** The widest aligned access that fits into the next `size` bytes. */
  ghost function Widest(off: nat, size: nat): nat {
    if size >= 4 && off % 4 == 0 then 4 else if size >= 2 && off % 2 == 0 then 2 else 1
  }

  /** A range by the widest accesses, from its start on. */
  ghost function Plan(off: nat, size: nat): seq<Access>
    decreases size
  {
    if size == 0 then []
    else [Access(off, Widest(off, size))] + Plan(off + Widest(off, size), size - Widest(off, size))
  }

  lemma {:induction false} Alignments(off: nat)
    ensures InWord(off) < 4 && (off % 2 == 1 <==> InWord(off) == 1 || InWord(off) == 3)
    ensures InWord(off + 1) == (if InWord(off) == 3 then 0 else InWord(off) + 1)
    ensures InWord(off + 2) == (if InWord(off) >= 2 then InWord(off) - 2 else InWord(off) + 2)
    ensures InWord(off + 4) == InWord(off)
    ensures Aligned(Access(off, 1)) && (InWord(off) == 0 || InWord(off) == 2 ==> Aligned(Access(off, 2)))
    ensures (InWord(off) == 0 ==> Aligned(Access(off, 4)))
    ensures forall size: nat ::
          Widest(off, size) == if size >= 4 && InWord(off) == 0 then 4
                               else if size >= 2 && (InWord(off) == 0 || InWord(off) == 2) then 2 else 1
  {
    var q, r := off / 4, off % 4;
    Divided(off, 4, q, r);
    Divided(off, 2, 2 * q + r / 2, r % 2);
    Divided(off, 1, off, 0);
    Divided(off + 1, 4, if r == 3 then q + 1 else q, if r == 3 then 0 else r + 1);
    Divided(off + 2, 4, if r >= 2 then q + 1 else q, if r >= 2 then r - 2 else r + 2);
    Divided(off + 4, 4, q + 1, r);
  }

  lemma {:induction false} Divided(x: nat, n: nat, q: nat, r: nat)
    requires (n == 1 || n == 2 || n == 4) && r < n && x == n * q + r
    ensures x % n == r
  {
  }

  /** Aligned accesses, one behind the other, that cover exactly the bytes from `lo` to `hi`. */
  ghost predicate Tiles(log: seq<Access>, lo: nat, hi: nat) {
    if log == [] then lo == hi
    else
      var a := log[|log| - 1];
      Aligned(a) && hi == a.off + a.len && lo <= a.off && Tiles(log[..|log| - 1], lo, a.off)
  }

  lemma {:induction false} TilesFirst(a: Access, log: seq<Access>, hi: nat)
    requires Aligned(a) && Tiles(log, a.off + a.len, hi)
    ensures Tiles([a] + log, a.off, hi)
  {
    if log != [] {
      var last := log[|log| - 1];
      TilesOnce(log, a.off + a.len, hi, 0);
      TilesFirst(a, log[..|log| - 1], last.off);
      assert ([a] + log)[..|log|] == [a] + log[..|log| - 1];
    } else {
      assert ([a] + log)[..0] == [];
    }
  }

  lemma {:induction false} PlanTiles(off: nat, size: nat)
    ensures Tiles(Plan(off, size), off, off + size)
    decreases size
  {
    hide Tiles;
    if size > 0 {
      var len := Widest(off, size);
      PlanTiles(off + len, size - len);
      OneByte(off);
      TilesFirst(Access(off, len), Plan(off + len, size - len), off + size);
    } else {
      NoAccess(off);
    }
  }

  lemma {:induction false} OneByte(off: nat)
    ensures off % 1 == 0
  {
  }

  lemma {:induction false} NoAccess(off: nat)
    ensures Tiles([], off, off)
  {
  }

  /** Every byte of the range belongs to exactly one access. */
  lemma {:induction false} TilesOnce(log: seq<Access>, lo: nat, hi: nat, b: nat)
    requires Tiles(log, lo, hi)
    ensures lo <= hi
    ensures lo <= b < hi <==> exists i: nat :: i < |log| && log[i].off <= b < log[i].off + log[i].len
    ensures forall i: nat, j: nat :: i < j < |log| ==> log[i].off + log[i].len <= log[j].off
    ensures forall i: nat :: i < |log| ==> lo <= log[i].off && log[i].off + log[i].len <= hi && Aligned(log[i])
  {
    hide Aligned;
    if log != [] {
      var front, last := log[..|log| - 1], log[|log| - 1];
      TilesOnce(front, lo, last.off, b);
      assert forall i: nat :: i < |front| ==> front[i] == log[i];
      if lo <= b < last.off {
        var i: nat :| i < |front| && front[i].off <= b < front[i].off + front[i].len;
        assert log[i].off <= b < log[i].off + log[i].len;
      }
      if last.off <= b < hi {
        assert log[|log| - 1].off <= b < log[|log| - 1].off + log[|log| - 1].len;
      }
    }
  }

  function Big(b: seq<nat>): nat {
    if b == [] then 0 else Big(b[..|b| - 1]) * 256 + b[|b| - 1]
  }

  lemma {:induction false} Big1(b: seq<nat>)
    requires |b| == 1
    ensures Big(b) == b[0]
  {
    assert b[..0] == [];
  }

  lemma {:induction false} Big2(b: seq<nat>)
    requires |b| == 2 && b[0] < 256 && b[1] < 256
    ensures Big(b) / 256 % 256 == b[0] && Big(b) % 256 == b[1] && Big(b) == b[0] * 256 + b[1]
  {
    assert b[..1] == [b[0]] && Big([b[0]]) == b[0];
  }

  lemma {:induction false} Big4(b: seq<nat>)
    requires |b| == 4 && forall i :: 0 <= i < 4 ==> b[i] < 256
    ensures Big(b) == b[0] * 0x100_0000 + b[1] * 0x1_0000 + b[2] * 256 + b[3]
    ensures Big(b) / 0x100_0000 % 256 == b[0] && Big(b) / 0x1_0000 % 256 == b[1]
    ensures Big(b) / 256 % 256 == b[2] && Big(b) % 256 == b[3]
  {
    Big2(b[..2]);
    assert b[..4] == b && b[..3][..2] == b[..2];
    assert Big(b[..3]) == Big(b[..2]) * 256 + b[2];
    FourBytes(b[0], b[1], b[2], b[3]);
  }

  lemma {:induction false} FourBytes(a: nat, b: nat, c: nat, d: nat)
    requires a < 256 && b < 256 && c < 256 && d < 256
    ensures var w := a * 0x100_0000 + b * 0x1_0000 + c * 256 + d;
            w / 0x100_0000 % 256 == a && w / 0x1_0000 % 256 == b && w / 256 % 256 == c && w % 256 == d
  {
    var w := a * 0x100_0000 + b * 0x1_0000 + c * 256 + d;
    DivIs(w, a, b * 0x1_0000 + c * 256 + d, 0x100_0000);
    DivIs(w, a * 256 + b, c * 256 + d, 0x1_0000);
    DivIs(w, a * 0x1_0000 + b * 256 + c, d, 256);
    ModIs(a, 0, a, 256);
    ModIs(a * 256 + b, a, b, 256);
    ModIs(a * 0x1_0000 + b * 256 + c, a * 256 + b, c, 256);
    ModIs(w, a * 0x1_0000 + b * 256 + c, d, 256);
  }

  /** A device whose registers are big-endian. */
  class Device {
    const space: array<nat>
    ghost var log: seq<Access>

    ghost predicate Valid()
      reads this, space
    {
      space.Length == MAINT_SPACE_SZ && forall i :: 0 <= i < space.Length ==> space[i] < 256
    }

    /** `rio_read_config_8`, `_16` and `_32`: refuse unaligned offsets. */
    method Read(off: nat, len: nat) returns (rc: int, val: nat)
      requires Valid() && (len == 1 || len == 2 || len == 4) && off + len <= space.Length
      modifies this`log
      ensures if off % len == 0 then rc == 0 && val == Big(space[off..off + len])
            && log == old(log) + [Access(off, len)]
              else rc == BAD_SIZE && log == old(log)
    {
      if off % len != 0 {
        return BAD_SIZE, 0;
      }
      val := 0;
      var i := 0;
      while i < len
        invariant i <= len && val == Big(space[off..off + i]) && log == old(log)
      {
        assert space[off..off + i + 1][..i] == space[off..off + i];
        val := val * 256 + space[off + i];
        i := i + 1;
      }
      log := log + [Access(off, len)];
      rc := 0;
    }

    method Write(off: nat, len: nat, val: nat) returns (rc: int)
      requires Valid() && (len == 1 || len == 2 || len == 4) && off + len <= space.Length
      modifies this`log, space
      ensures Valid() && (rc == 0 <==> off % len == 0)
      ensures if rc == 0 then log == old(log) + [Access(off, len)] else log == old(log) && space[..] == old(space[..])
      ensures rc == 0 ==> forall i :: 0 <= i < space.Length && !(off <= i < off + len) ==> space[i] == old(space[i])
      ensures rc == 0 && len == 1 ==> space[off] == val % 256
      ensures rc == 0 && len == 2 ==> space[off] == val / 256 % 256 && space[off + 1] == val % 256
      ensures rc == 0 && len == 4 ==> space[off] == val / 0x100_0000 % 256 && space[off + 1] == val / 0x1_0000 % 256
                                      && space[off + 2] == val / 256 % 256 && space[off + 3] == val % 256
    {
      if off % len != 0 {
        return BAD_SIZE;
      }
      if len == 4 {
        space[off], space[off + 1] := val / 0x100_0000 % 256, val / 0x1_0000 % 256;
        space[off + 2], space[off + 3] := val / 256 % 256, val % 256;
      } else if len == 2 {
        space[off], space[off + 1] := val / 256 % 256, val % 256;
      } else {
        space[off] := val % 256;
      }
      log := log + [Access(off, len)];
      rc := 0;
    }

    /** Of `count` bytes from `off` on, `n` go up to the limit and not beyond, and fewer only there. */
    ghost predicate Most(off: nat, count: nat, limit: nat, n: nat) {
      n <= count && (n == 0 || off + n <= limit) && (n < count ==> off + n >= limit)
    }

    /** Where a transfer stands: what is still to be accessed from `off` on completes the plan. */
    ghost predicate Progress(log0: seq<Access>, initOff: nat, off: nat, size: nat, n: nat)
      reads this
    {
      initOff <= off && off + size == initOff + n && log + Plan(off, size) == log0 + Plan(initOff, n)
    }

    lemma {:induction false} Further(log0: seq<Access>, logs: seq<Access>, initOff: nat, off: nat, size: nat, n: nat)
      requires initOff <= off && size > 0 && logs + Plan(off, size) == log0 + Plan(initOff, n)
      ensures var len := Widest(off, size);
              logs + [Access(off, len)] + Plan(off + len, size - len) == log0 + Plan(initOff, n)
    {
    }

    /** The file's bytes before `off` agree with the space; those from `n` on are as they were. */
    ghost predicate Copied(data: seq<nat>, space: seq<nat>, initOff: nat, off: nat, n: nat, was: seq<nat>) {
      && |data| == |was| && initOff <= off <= |space| && off - initOff <= n <= |data|
      && data[..off - initOff] == space[initOff..off] && data[n..] == was[n..]
    }

    lemma {:induction false} CopiedFits(data: seq<nat>, space: seq<nat>, initOff: nat, off: nat, n: nat, was: seq<nat>)
      requires Copied(data, space, initOff, off, n, was)
      ensures initOff <= off <= |space| && off - initOff <= n <= |data|
    {
    }

    /** One register read, with its bytes stored most significant first. */
    method ReadPart(data: array<nat>, initOff: nat, off: nat, len: nat, ghost log0: seq<Access>, ghost size: nat,
          ghost n: nat, ghost was: seq<nat>)
      requires Valid() && data != space && off + size <= space.Length && 0 < size && len == Widest(off, size)
      requires Progress(log0, initOff, off, size, n) && Copied(data[..], space[..], initOff, off, n, was)
      modifies this`log, data
      ensures Progress(log0, initOff, off + len, size - len, n)
      ensures Copied(data[..], space[..], initOff, off + len, n, was)
    {
      hide Plan, Big, Copied;
      OneByte(off);
      var rc, val := Read(off, len);
      Further(log0, old(log), initOff, off, size, n);
      CopiedFits(data[..], space[..], initOff, off, n, was);
      var at := off - initOff;
      if len == 4 {
        Big4(space[off..off + 4]);
        data[at], data[at + 1] := val / 0x100_0000 % 256, val / 0x1_0000 % 256;
        data[at + 2], data[at + 3] := val / 256 % 256, val % 256;
      } else if len == 2 {
        Big2(space[off..off + 2]);
        data[at], data[at + 1] := val / 256 % 256, val % 256;
      } else {
        Big1(space[off..off + 1]);
        data[at] := val;
      }
      CopiedMore(old(data[..]), data[..], space[..], initOff, off, len, n, was);
    }

    lemma {:induction false} CopiedMore(data: seq<nat>, now: seq<nat>, space: seq<nat>, initOff: nat, off: nat,
          len: nat, n: nat, was: seq<nat>)
      requires Copied(data, space, initOff, off, n, was) && |now| == |data| && off - initOff + len <= n
      requires off + len <= |space|
      requires forall k :: 0 <= k < |data| && !(off - initOff <= k < off - initOff + len) ==> now[k] == data[k]
      requires forall k :: off - initOff <= k < off - initOff + len ==> now[k] == space[initOff + k]
      ensures Copied(now, space, initOff, off + len, n, was)
    {
      var at := off - initOff;
      assert now[..at] == data[..at] && now[n..] == data[n..];
      assert now[..at + len] == now[..at] + space[off..off + len];
    }

    /** Up to the first word boundary, as far as the count goes. */
    method ReadHead(data: array<nat>, off0: nat, n: nat, ghost log0: seq<Access>, ghost was: seq<nat>)
      returns (off: nat, size: nat)
      requires Valid() && data != space && off0 + n <= space.Length && Progress(log0, off0, off0, n, n)
      requires Copied(data[..], space[..], off0, off0, n, was)
      modifies this`log, data
      ensures Progress(log0, off0, off, size, n) && off + size == off0 + n && Boundary(off, size)
      ensures Copied(data[..], space[..], off0, off, n, was)
    {
      hide Plan, Widest, Big, InWord, Aligned, Progress, Copied;
      off, size := off0, n;
      Alignments(off);
      if off % 2 == 1 && size > 0 {
        ReadPart(data, off0, off, 1, log0, size, n, was);
        off, size := off + 1, size - 1;
      }
      Alignments(off);
      if InWord(off) != 0 && size > 2 {
        Alignments(off);
        ReadPart(data, off0, off, 2, log0, size, n, was);
        off, size := off + 2, size - 2;
      }
    }

    /** Words, and what is left. */
    method ReadRest(data: array<nat>, off0: nat, off1: nat, size1: nat, n: nat, ghost log0: seq<Access>,
          ghost was: seq<nat>) returns (off: nat)
      requires Valid() && data != space && off1 + size1 <= space.Length && Progress(log0, off0, off1, size1, n)
      requires Boundary(off1, size1)
      requires Copied(data[..], space[..], off0, off1, n, was)
      modifies this`log, data
      ensures Progress(log0, off0, off, 0, n)
      ensures Copied(data[..], space[..], off0, off, n, was)
    {
      hide Plan, Widest, Big, InWord, Aligned, Progress, Copied;
      var size := size1;
      off := off1;
      while size > 3
        invariant Progress(log0, off0, off, size, n) && off + size <= space.Length && Boundary(off, size)
        invariant Copied(data[..], space[..], off0, off, n, was)
      {
        Alignments(off);
        ReadPart(data, off0, off, 4, log0, size, n, was);
        off, size := off + 4, size - 4;
      }
      if size >= 2 {
        Alignments(off);
        ReadPart(data, off0, off, 2, log0, size, n, was);
        off, size := off + 2, size - 2;
      }
      if size > 0 {
        Alignments(off);
        ReadPart(data, off0, off, 1, log0, size, n, was);
        off, size := off + 1, size - 1;
      }
    }

    /** `rio_read_config`: the clipped range, byte by byte as in the space; all accesses aligned. */
    method ReadConfig(data: array<nat>, off0: nat, count: nat, admin: bool) returns (n: nat)
      requires Valid() && data != space && count <= data.Length
      modifies this`log, data
      ensures Most(off0, count, if admin then MAINT_SPACE_SZ else USER_SPACE_SZ, n)
      ensures n > 0 ==> off0 + n <= space.Length && data[..n] == space[off0..off0 + n]
      ensures data[n..] == old(data[n..])
      ensures log == old(log) + Plan(off0, n)
    {
      hide Plan, Widest, Big, InWord, Aligned, Progress, Copied;
      var limit := if admin then MAINT_SPACE_SZ else USER_SPACE_SZ;
      NothingPlanned(off0);
      if off0 >= limit {
        return 0;
      }
      var off: nat, size: nat := off0, if off0 + count > limit then limit - off0 else count;
      n := size;
      ghost var log0, was := log, data[..];
      Start(off0, n, was);
      off, size := ReadHead(data, off0, n, log0, was);
      off := ReadRest(data, off0, off, size, n, log0, was);
      Finish(log0, off0, off, n, data[..], space[..], was);
    }

    lemma {:induction false} Begin(off: nat, n: nat)
      ensures Progress(log, off, off, n, n)
    {
    }

    lemma {:induction false} Start(off: nat, n: nat, was: seq<nat>)
      requires Valid() && off + n <= space.Length && n <= |was|
      ensures Progress(log, off, off, n, n) && Copied(was, space[..], off, off, n, was)
    {
      Begin(off, n);
    }

    lemma {:induction false} Finish(log0: seq<Access>, initOff: nat, off: nat, n: nat, data: seq<nat>, space: seq<nat>,
          was: seq<nat>)
      requires Progress(log0, initOff, off, 0, n)
      ensures off == initOff + n && log == log0 + Plan(initOff, n)
      ensures Copied(data, space, initOff, off, n, was) ==>
                && initOff + n <= |space| && n <= |data| == |was| && data[..n] == space[initOff..initOff + n]
                && data[n..] == was[n..]
    {
    }

    lemma {:induction false} NothingPlanned(off: nat)
      ensures Plan(off, 0) == []
    {
    }

    /** The space from `initOff` to `off` has the file's bytes; the rest is as it was. */
    ghost predicate Written(space: seq<nat>, data: seq<nat>, initOff: nat, off: nat, was: seq<nat>) {
      && |space| == |was| && initOff <= off <= |space| && off - initOff <= |data|
      && space[initOff..off] == data[..off - initOff]
      && forall i :: 0 <= i < |space| && !(initOff <= i < off) ==> space[i] == was[i]
    }

    /** One register write of bytes taken most significant first. */
    method WritePart(data: array<nat>, initOff: nat, off: nat, len: nat, ghost log0: seq<Access>, ghost size: nat,
          ghost n: nat, ghost was: seq<nat>)
      requires Valid() && data != space && off + size <= space.Length && 0 < size && len == Widest(off, size)
      requires Progress(log0, initOff, off, size, n) && n <= data.Length
      requires (forall i :: 0 <= i < data.Length ==> data[i] < 256)
      requires Written(space[..], data[..], initOff, off, was)
      modifies this`log, space
      ensures Valid() && Progress(log0, initOff, off + len, size - len, n)
      ensures Written(space[..], data[..], initOff, off + len, was)
    {
      hide Plan, Big, Written;
      OneByte(off);
      Further(log0, log, initOff, off, size, n);
      var at := off - initOff;
      var val := data[at];
      if len == 4 {
        Big4(data[at..at + 4]);
        val := data[at + 3] + data[at + 2] * 256 + data[at + 1] * 0x1_0000 + data[at] * 0x100_0000;
      } else if len == 2 {
        Big2(data[at..at + 2]);
        val := data[at + 1] + data[at] * 256;
      }
      var rc := Write(off, len, val);
      WrittenMore(old(space[..]), space[..], data[..], initOff, off, len, was);
    }

    lemma {:induction false} WrittenMore(space: seq<nat>, now: seq<nat>, data: seq<nat>, initOff: nat, off: nat,
          len: nat, was: seq<nat>)
      requires Written(space, data, initOff, off, was) && |now| == |space| && off - initOff + len <= |data|
      requires off + len <= |space|
      requires forall k :: 0 <= k < |space| && !(off <= k < off + len) ==> now[k] == space[k]
      requires forall k :: off <= k < off + len ==> now[k] == data[k - initOff]
      ensures Written(now, data, initOff, off + len, was)
    {
      var at := off - initOff;
      assert now[initOff..off] == space[initOff..off];
      assert now[initOff..off + len] == now[initOff..off] + data[at..at + len];
      assert data[..at + len] == data[..at] + data[at..at + len];
    }

    /** Up to the first word boundary, as far as the count goes. */
    method WriteHead(data: array<nat>, off0: nat, n: nat, ghost log0: seq<Access>, ghost was: seq<nat>)
      returns (off: nat, size: nat)
      requires Valid() && data != space && off0 + n <= space.Length && Progress(log0, off0, off0, n, n)
      requires n <= data.Length && (forall i :: 0 <= i < data.Length ==> data[i] < 256)
      requires Written(space[..], data[..], off0, off0, was)
      modifies this`log, space
      ensures Valid() && Progress(log0, off0, off, size, n) && off + size == off0 + n && Boundary(off, size)
      ensures Written(space[..], data[..], off0, off, was)
    {
      hide Plan, Widest, Big, InWord, Aligned, Progress, Written;
      off, size := off0, n;
      Alignments(off);
      if off % 2 == 1 && size > 0 {
        WritePart(data, off0, off, 1, log0, size, n, was);
        off, size := off + 1, size - 1;
      }
      Alignments(off);
      if InWord(off) != 0 && size > 2 {
        Alignments(off);
        WritePart(data, off0, off, 2, log0, size, n, was);
        off, size := off + 2, size - 2;
      }
    }

    /** Words, and what is left. */
    method WriteRest(data: array<nat>, off0: nat, off1: nat, size1: nat, n: nat, ghost log0: seq<Access>,
          ghost was: seq<nat>) returns (off: nat)
      requires Valid() && data != space && off1 + size1 <= space.Length && Progress(log0, off0, off1, size1, n)
      requires Boundary(off1, size1) && n <= data.Length && (forall i :: 0 <= i < data.Length ==> data[i] < 256)
      requires Written(space[..], data[..], off0, off1, was)
      modifies this`log, space
      ensures Valid() && Progress(log0, off0, off, 0, n)
      ensures Written(space[..], data[..], off0, off, was)
    {
      hide Plan, Widest, Big, InWord, Aligned, Progress, Written;
      var size := size1;
      off := off1;
      while size > 3
        invariant Valid() && Progress(log0, off0, off, size, n) && off + size <= space.Length && Boundary(off, size)
        invariant Written(space[..], data[..], off0, off, was)
      {
        Alignments(off);
        WritePart(data, off0, off, 4, log0, size, n, was);
        off, size := off + 4, size - 4;
      }
      if size >= 2 {
        Alignments(off);
        WritePart(data, off0, off, 2, log0, size, n, was);
        off, size := off + 2, size - 2;
      }
      if size > 0 {
        Alignments(off);
        WritePart(data, off0, off, 1, log0, size, n, was);
        off, size := off + 1, size - 1;
      }
    }

    /** `rio_write_config`: the clipped range becomes the data, and nothing else changes. */
    method WriteConfig(data: array<nat>, off0: nat, count: nat) returns (n: nat)
      requires Valid() && data != space && count <= data.Length && forall i :: 0 <= i < data.Length ==> data[i] < 256
      modifies this`log, space
      ensures Valid() && Most(off0, count, MAINT_SPACE_SZ, n)
      ensures n > 0 ==> off0 + n <= space.Length && space[..] == old(space[..off0]) + data[..n] + old(space[off0 + n..])
      ensures n == 0 ==> space[..] == old(space[..])
      ensures log == old(log) + Plan(off0, n)
    {
      hide Plan, Widest, Big, InWord, Aligned, Progress, Written;
      NothingPlanned(off0);
      if off0 >= MAINT_SPACE_SZ {
        return 0;
      }
      var off: nat, size: nat := off0, if off0 + count > MAINT_SPACE_SZ then MAINT_SPACE_SZ - off0 else count;
      n := size;
      ghost var log0, was := log, space[..];
      Begin(off0, n);
      NothingWritten(was, data[..], off0);
      off, size := WriteHead(data, off0, n, log0, was);
      off := WriteRest(data, off0, off, size, n, log0, was);
      Finish(log0, off0, off, n, data[..], space[..], was);
      Whole(was, space[..], data[..], off0, n);
    }

    lemma {:induction false} NothingWritten(space: seq<nat>, data: seq<nat>, off: nat)
      requires off <= |space|
      ensures Written(space, data, off, off, space)
    {
    }

    lemma {:induction false} Whole(was: seq<nat>, now: seq<nat>, data: seq<nat>, off: nat, n: nat)
      requires Written(now, data, off, off + n, was)
      ensures off + n <= |was| == |now| && n <= |data| && now == was[..off] + data[..n] + was[off + n..]
    {
    }

    /** A write followed by a read of the same range gives the data back. */
    method WriteThenRead(data: array<nat>, back: array<nat>, off: nat, count: nat) returns (n: nat)
      requires Valid() && data != space && back != space && data != back && count <= data.Length && count <= back.Length
      requires forall i :: 0 <= i < data.Length ==> data[i] < 256
      modifies this`log, space, back
      ensures Most(off, count, MAINT_SPACE_SZ, n) && n <= data.Length && n <= back.Length && back[..n] == data[..n]
    {
      n := WriteConfig(data, off, count);
      ghost var now := space[..];
      var m := ReadConfig(back, off, count, true);
      if n > 0 {
        assert back[..n] == now[off..off + n];
      }
    }
  }
}
