/** Tables that record a number of buffers, each in some slot. */
module Records {
  import opened Fabric

  ghost function Empties(bufs: seq<Option<nat>>): nat {
    if bufs == [] then 0 else Empties(bufs[1..]) + if bufs[0].None? then 1 else 0
  }

  /** Each buffer of `held` is recorded once, and nothing else is. */
  ghost predicate Recorded(bufs: seq<Option<nat>>, held: seq<nat>) {
    && (forall i: nat, j: nat :: i < j < |bufs| && bufs[i].Some? ==> bufs[i] != bufs[j])
    && (forall i: nat, j: nat :: i < j < |held| ==> held[i] != held[j])
    && (forall b: nat :: b in held <==> Some(b) in bufs)
    && |held| + Empties(bufs) == |bufs|
  }

  lemma {:induction false} AllEmpty(bufs: seq<Option<nat>>)
    requires forall i: nat :: i < |bufs| ==> bufs[i] == None
    ensures Empties(bufs) == |bufs|
  {
    if bufs != [] {
      assert forall i: nat :: i < |bufs[1..]| ==> bufs[1..][i] == bufs[i + 1];
      AllEmpty(bufs[1..]);
    }
  }

  lemma {:induction false} EmptiesChange(bufs: seq<Option<nat>>, i: nat, b: Option<nat>)
    requires i < |bufs|
    ensures Empties(bufs[i := b]) + (if bufs[i].None? then 1 else 0) == Empties(bufs) + if b.None? then 1 else 0
  {
    if i > 0 {
      assert bufs[i := b][1..] == bufs[1..][i - 1 := b];
      EmptiesChange(bufs[1..], i - 1, b);
    }
  }

  lemma {:induction false} OneFewer(bufs: seq<Option<nat>>, i: nat)
    requires i < |bufs|
    ensures Empties(bufs[i..]) == Empties(bufs[i + 1..]) + if bufs[i].None? then 1 else 0
  {
    assert bufs[i..][1..] == bufs[i + 1..];
  }

  /** Without the `k`-th of the buffers. */
  function Drop(held: seq<nat>, k: nat): seq<nat>
    requires k < |held|
  {
    held[..k] + held[k + 1..]
  }

  lemma {:induction false} RecordLess(bufs: seq<Option<nat>>, held: seq<nat>, i: nat, k: nat)
    requires Recorded(bufs, held) && k < |held| && i < |bufs| && bufs[i] == Some(held[k])
    ensures Recorded(bufs[i := None], Drop(held, k))
  {
    EmptiesChange(bufs, i, None);
    var now := bufs[i := None];
    forall b: nat ensures b in Drop(held, k) <==> Some(b) in now {
      if b in Drop(held, k) {
        assert b in held;
        var j: nat :| j < |bufs| && bufs[j] == Some(b);
        assert now[j] == Some(b);
      }
      if Some(b) in now {
        var j: nat :| j < |now| && now[j] == Some(b);
        assert bufs[j] == Some(b) && b in held;
      }
    }
  }

  lemma {:induction false} RecordMore(bufs: seq<Option<nat>>, held: seq<nat>, i: nat, b: nat)
    requires Recorded(bufs, held) && i < |bufs| && bufs[i] == None && b !in held
    ensures Recorded(bufs[i := Some(b)], held + [b])
  {
    EmptiesChange(bufs, i, Some(b));
    var now := bufs[i := Some(b)];
    forall x: nat ensures x in held + [b] <==> Some(x) in now {
      if x in held {
        var j: nat :| j < |bufs| && bufs[j] == Some(x);
        assert now[j] == Some(x);
      }
      assert now[i] == Some(b);
    }
  }

  lemma {:induction false} SomeEmpty(bufs: seq<Option<nat>>)
    ensures Empties(bufs) > 0 <==> exists i: nat :: i < |bufs| && bufs[i] == None
  {
    if bufs != [] {
      SomeEmpty(bufs[1..]);
      if i: nat :| i < |bufs[1..]| && bufs[1..][i] == None { assert bufs[i + 1] == None; }
      assert forall i: nat :: 0 < i < |bufs| ==> bufs[i] == bufs[1..][i - 1];
    }
  }

  lemma {:induction false} NotRecorded(bufs: seq<Option<nat>>, held: seq<nat>, b: nat)
    requires Recorded(bufs, held) && forall i: nat :: i < |bufs| ==> bufs[i] != Some(b)
    ensures b !in held
  {
  }

  lemma {:induction false} RecordAt(bufs: seq<Option<nat>>, held: seq<nat>, i: nat) returns (k: nat)
    requires Recorded(bufs, held) && i < |bufs| && bufs[i].Some?
    ensures k < |held| && held[k] == bufs[i].value && forall j: nat :: j < |held| && j != k ==> held[j] != held[k]
  {
    assert bufs[i].value in held;
    k :| k < |held| && held[k] == bufs[i].value;
  }

  /** The recorded buffers, slot by slot. */
  ghost function Somes(bufs: seq<Option<nat>>): (r: seq<nat>)
    ensures |r| + Empties(bufs) == |bufs|
    ensures forall b: nat :: b in r <==> Some(b) in bufs
  {
    if bufs == [] then []
    else if bufs[0].Some? then
      assert forall b: nat :: Some(b) in bufs <==> bufs[0] == Some(b) || Some(b) in bufs[1..];
      [bufs[0].value] + Somes(bufs[1..])
    else
      assert forall b: nat :: Some(b) in bufs <==> Some(b) in bufs[1..];
      Somes(bufs[1..])
  }

  lemma {:induction false} SomesAt(bufs: seq<Option<nat>>, i: nat)
    requires i < |bufs|
    ensures Somes(bufs[i..]) == (if bufs[i].Some? then [bufs[i].value] else []) + Somes(bufs[i + 1..])
  {
    assert bufs[i..][1..] == bufs[i + 1..];
  }

  lemma {:induction false} SomesOnce(bufs: seq<Option<nat>>)
    requires forall i: nat, j: nat :: i < j < |bufs| && bufs[i].Some? ==> bufs[i] != bufs[j]
    ensures forall i: nat, j: nat :: i < j < |Somes(bufs)| ==> Somes(bufs)[i] != Somes(bufs)[j]
  {
    if bufs != [] {
      var rest := bufs[1..];
      assert forall i: nat :: i < |rest| ==> rest[i] == bufs[i + 1];
      SomesOnce(rest);
      if bufs[0].Some? {
        assert bufs[0].value !in Somes(rest);
      }
    }
  }
}
