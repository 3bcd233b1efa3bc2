/** The destination ID bitmap of a network (`struct rio_id_table`). */
module DestIds {
  /** What the allocator and the searches return when there is no such ID. */
  const INVALID_DESTID: nat := 0xffff

  class IdTable {
    var table: seq<bool>

    constructor (max: nat)
      ensures table == seq(max, _ => false)
    {
      table := seq(max, _ => false);
    }

    /** Index of the first bit at or after `from` with the given value, or the table size. */
    method FindNext(from: nat, bit: bool) returns (i: nat)
      ensures i <= |table|
      ensures forall k :: from <= k < i ==> table[k] != bit
      ensures i < |table| ==> from <= i && table[i] == bit
    {
      i := from;
      while i < |table| && table[i] != bit
        invariant from <= i
        invariant forall k :: from <= k < i && k < |table| ==> table[k] != bit
      {
        i := i + 1;
      }
      if i > |table| {
        i := |table|;
      }
    }

    /** Takes the least unused ID. */
    method Alloc() returns (destid: nat)
      modifies this
      ensures (forall k :: 0 <= k < |old(table)| ==> old(table)[k]) ==> destid == INVALID_DESTID && table == old(table)
      ensures !(forall k :: 0 <= k < |old(table)| ==> old(table)[k]) ==>
                && destid < |old(table)| && !old(table)[destid] && table == old(table)[destid := true]
                && (forall k :: 0 <= k < destid ==> old(table)[k])
    {
      destid := FindNext(0, false);
      if destid < |table| {
        table := table[destid := true];
      } else {
        destid := INVALID_DESTID;
      }
    }

    /** Marks an ID as used and tells whether it already was. */
    method Reserve(destid: nat) returns (old_: bool)
      requires destid < |table|
      modifies this
      ensures old_ == old(table)[destid] && table == old(table)[destid := true]
    {
      old_ := table[destid];
      table := table[destid := true];
    }

    method Free(destid: nat)
      requires destid < |table|
      modifies this
      ensures table == old(table)[destid := false]
    {
      table := table[destid := false];
    }

    /** The first used ID at or after `from`. */
    method Next(from: nat) returns (destid: nat)
      ensures (forall k :: from <= k < |table| ==> !table[k]) ==> destid == INVALID_DESTID
      ensures !(forall k :: from <= k < |table| ==> !table[k]) ==>
                from <= destid < |table| && table[destid] && (forall k :: from <= k < destid ==> !table[k])
    {
      destid := FindNext(from, true);
      if destid >= |table| {
        destid := INVALID_DESTID;
      }
    }

    method First() returns (destid: nat)
      ensures (forall k :: 0 <= k < |table| ==> !table[k]) ==> destid == INVALID_DESTID
      ensures !(forall k :: 0 <= k < |table| ==> !table[k]) ==>
                destid < |table| && table[destid] && (forall k :: 0 <= k < destid ==> !table[k])
    {
      destid := Next(0);
    }
  }
}
