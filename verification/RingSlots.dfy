/** Rings of 128 slots: entry number `c` has slot `c` modulo 128, and the entries in use are those
    from some number on. */
module RingSlots {
  import opened Fabric

  const RING_SIZE: nat := 128

  function Slot(counter: nat): (k: nat)
    ensures k < RING_SIZE
  {
    counter % RING_SIZE
  }

  /** The entries from number `first` on are in their slots; the other slots are empty. */
  ghost predicate Held<T>(slots: seq<Option<T>>, entries: seq<T>, first: nat) {
    && |slots| == RING_SIZE && first <= |entries| <= first + RING_SIZE
    && (forall c: nat :: first <= c < |entries| ==> slots[Slot(c)] == Some(entries[c]))
    && (forall k: nat :: k < RING_SIZE && (forall c: nat :: first <= c < |entries| ==> Slot(c) != k) ==>
          slots[k] == None)
  }

  lemma {:induction false} NextSlot(a: nat)
    ensures (Slot(a) + 1) % RING_SIZE == Slot(a + 1)
    ensures Slot(a + 1) == (if Slot(a) + 1 == RING_SIZE then 0 else Slot(a) + 1) && Slot(a + RING_SIZE) == Slot(a)
  {
  }

  lemma {:induction false} Differ(c: nat, d: nat)
    requires c < d < c + RING_SIZE
    ensures Slot(c) != Slot(d)
  {
  }

  lemma {:induction false} HeldMore<T>(slots: seq<Option<T>>, entries: seq<T>, a: nat, b: T)
    requires Held(slots, entries, a) && |entries| < a + RING_SIZE
    ensures Held(slots[Slot(|entries|) := Some(b)], entries + [b], a) && slots[Slot(|entries|)] == None
  {
    hide Slot;
    var n, all := slots[Slot(|entries|) := Some(b)], entries + [b];
    forall c: nat | a <= c < |all| ensures n[Slot(c)] == Some(all[c]) {
      if c < |entries| { Differ(c, |entries|); }
    }
    forall c: nat | a <= c < |entries| ensures Slot(c) != Slot(|entries|) { Differ(c, |entries|); }
    forall k: nat | k < RING_SIZE && forall c: nat :: a <= c < |all| ==> Slot(c) != k ensures n[k] == None {
      assert Slot(|entries|) != k;
      assert forall c: nat :: a <= c < |entries| ==> Slot(c) != k;
    }
  }

  lemma {:induction false} HeldLess<T>(slots: seq<Option<T>>, entries: seq<T>, a: nat)
    requires Held(slots, entries, a) && a < |entries|
    ensures Held(slots[Slot(a) := None], entries, a + 1)
  {
    hide Slot;
    var n := slots[Slot(a) := None];
    forall c: nat | a + 1 <= c < |entries| ensures n[Slot(c)] == Some(entries[c]) {
      Differ(a, c);
    }
    forall k: nat | k < RING_SIZE && forall c: nat :: a + 1 <= c < |entries| ==> Slot(c) != k ensures n[k] == None {
      if k != Slot(a) {
        assert forall c: nat :: a <= c < |entries| ==> Slot(c) != k;
      }
    }
  }

  /** From the slot after the last entry, the first full one is that of the oldest entry. */
  lemma {:induction false} Gap<T>(slots: seq<Option<T>>, entries: seq<T>, a: nat, d: nat)
    requires Held(slots, entries, a) && |entries| <= d < a + RING_SIZE
    ensures slots[Slot(d)] == None
  {
    hide Slot;
    forall c: nat | a <= c < |entries| ensures Slot(c) != Slot(d) { Differ(c, d); }
  }
}
