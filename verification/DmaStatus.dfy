/** The descriptor status FIFO of a block-DMA channel: rows of eight words, written by the hardware. */
module DmaStatus {

  class StatusFifo {
    const size: nat
    const sts: array<nat>
    var rdptr: nat
    /** The read pointer as the hardware knows it. */
    var dsrp: nat

    ghost predicate Valid()
      reads this
    {
      0 < size && sts.Length == size * 8 && rdptr < size
    }

    /** The row without the non-zero words at its start. */
    ghost function Tail(row: seq<nat>): (r: seq<nat>) {
      if row == [] || row[0] == 0 then row else [0] + Tail(row[1..])
    }

    ghost function Row(words: seq<nat>, r: nat): seq<nat>
      requires |words| == size * 8 && r < size
    {
      words[r * 8..r * 8 + 8]
    }

    /** The row that is `k` rows after `start`, at most one round away. */
    ghost function After(start: nat, k: nat): (r: nat)
      requires start < size && k <= size
      ensures r < size
    {
      if start + k < size then start + k else start + k - size
    }

    /** The `k` rows from `from` on started with a word and lost their leading words; no other row changed. */
    ghost predicate Cleared(was: seq<nat>, now: seq<nat>, from: nat, k: nat) {
      && 0 < size && |was| == |now| == size * 8 && from < size && k <= size
      && (forall m: nat :: m < k ==>
            Row(was, After(from, m))[0] != 0 && Row(now, After(from, m)) == Tail(Row(was, After(from, m))))
      && (forall r: nat :: r < size && (forall m: nat :: m < k ==> After(from, m) != r) ==> Row(now, r) == Row(was, r))
    }

    /** `tsi721_clr_stat`: clears the rows from the read pointer on up to the first that starts with
        zero, at most all of them, and leaves the pointer there. */
    method ClrStat() returns (ghost k: nat)
      requires Valid()
      modifies this`rdptr, this`dsrp, sts
      ensures Valid() && k <= size && dsrp == rdptr == After(old(rdptr), k) && sts[rdptr * 8] == 0
      ensures Cleared(old(sts[..]), sts[..], old(rdptr), k)
    {
      hide Cleared, Row, Tail;
      var srdPtr := rdptr;
      var j := srdPtr * 8;
      k := 0;
      NothingCleared(sts[..]);
      ghost var was := sts[..];
      while sts[j] != 0
        invariant rdptr == old(rdptr) && k <= size && srdPtr == After(rdptr, k) && j == srdPtr * 8
        invariant Cleared(was, sts[..], rdptr, k)
        decreases size - k
      {
        FreshRow(was, sts[..], rdptr, k);
        ghost var before := sts[..];
        ClearRow(srdPtr, j);
        OneMore(was, before, sts[..], rdptr, k);
        NextRow(srdPtr);
        srdPtr := (srdPtr + 1) % size;
        j := srdPtr * 8;
        k := k + 1;
      }
      dsrp := srdPtr;
      rdptr := srdPtr;
    }

    method ClearRow(r: nat, j0: nat)
      requires Valid() && r < size && j0 == r * 8
      modifies sts
      ensures Row(sts[..], r) == Tail(Row(old(sts[..]), r))
      ensures forall q: nat :: q < size && q != r ==> Row(sts[..], q) == Row(old(sts[..]), q)
    {
      var i, j := 0, j0;
      while i < 8 && sts[j] != 0
        invariant 0 <= i <= 8 && j == r * 8 + i
        invariant forall x: nat :: x < sts.Length && !(r * 8 <= x < j) ==> sts[x] == old(sts[x])
        invariant forall x: nat :: r * 8 <= x < j ==> sts[x] == 0 && old(sts[x]) != 0
      {
        sts[j] := 0;
        i := i + 1;
        j := j + 1;
      }
      TailIs(Row(old(sts[..]), r), i);
    }

    lemma {:induction false} OneMore(was: seq<nat>, before: seq<nat>, now: seq<nat>, from: nat, k: nat)
      requires Cleared(was, before, from, k) && k < size && |now| == |was| && before[After(from, k) * 8] != 0
      requires forall m: nat :: m < k ==> After(from, m) != After(from, k)
      requires Row(now, After(from, k)) == Tail(Row(before, After(from, k)))
      requires forall q: nat :: q < size && q != After(from, k) ==> Row(now, q) == Row(before, q)
      ensures Cleared(was, now, from, k + 1)
    {
    }

    lemma {:induction false} NothingCleared(words: seq<nat>)
      requires Valid() && |words| == size * 8
      ensures Cleared(words, words, rdptr, 0)
    {
    }

    lemma {:induction false} NextRow(r: nat)
      requires r < size
      ensures (r + 1) % size == if r + 1 == size then 0 else r + 1
    {
    }

    /** The row at hand is not one of those cleared before. */
    lemma {:induction false} FreshRow(was: seq<nat>, now: seq<nat>, from: nat, k: nat)
      requires Cleared(was, now, from, k) && now[After(from, k) * 8] != 0
      ensures k < size && forall m: nat :: m < k ==> After(from, m) != After(from, k)
    {
      assert k == size ==> After(from, 0) == After(from, k);
      forall m: nat | m < k ensures After(from, m) != After(from, k) {
        assert Row(now, After(from, m))[0] == 0;
        assert now[After(from, m) * 8] == Row(now, After(from, m))[0];
      }
    }

    lemma {:induction false} TailIs(row: seq<nat>, i: nat)
      requires i <= |row| && (forall x: nat :: x < i ==> row[x] != 0) && (i < |row| ==> row[i] == 0)
      ensures |Tail(row)| == |row| && forall x: nat :: x < |row| ==> Tail(row)[x] == if x < i then 0 else row[x]
    {
      if i > 0 {
        TailIs(row[1..], i - 1);
        forall x: nat | x < |row| ensures Tail(row)[x] == if x < i then 0 else row[x] {
          if x > 0 { assert Tail(row)[x] == Tail(row[1..])[x - 1]; }
        }
      }
    }
  }
}
