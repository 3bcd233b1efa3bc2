/** The order in which an enumeration finds devices: a plain depth-first walk over ports, which knows
    nothing of locks, tables and packets, and what it says about IDs. */
module ScanOrder {
  import opened Fabric
  import opened ScanState

  /** A device that was found: the port it was entered by, `next_destid` then and when it was left. */
  datatype Entry = Entry(dev: nat, inport: nat, lo: nat, hi: nat)

  /** The devices in the order in which they were found, and the next ID to give out. */
  datatype Walk = Walk(found: seq<Entry>, next: nat)

  ghost predicate Has(w: Walk, d: nat) {
    exists i: nat :: i < |w.found| && w.found[i].dev == d
  }

  ghost function Unseen(c: Mport, w: Walk): set<nat> {
    set d | 0 <= d < |c.topo.kinds| && !Has(w, d)
  }

  /** The devices found before are still there, in the same places. */
  ghost predicate Later(w: Walk, v: Walk) {
    |w.found| <= |v.found| && forall i: nat :: i < |w.found| ==> v.found[i].dev == w.found[i].dev
  }

  ghost function Enter(w: Walk, at: End): Walk {
    Walk(w.found + [Entry(at.dev, at.port, w.next, w.next)], w.next)
  }

  /** A switch below which no ID was given out takes one when it is left. */
  ghost function Leave(c: Mport, v: Walk, i: nat): Walk
    requires i < |v.found|
  {
    var next := if v.next == v.found[i].lo then Succ(c, v.next) else v.next;
    Walk(v.found[i := v.found[i].(hi := next)], next)
  }

  /** The walk from the link end `at` on. */
  ghost function Visit(c: Mport, at: End, w: Walk): (r: Walk)
    ensures Later(w, r)
    decreases |Unseen(c, w)|, 0
  {
    if at.dev == c.topo.host || Has(w, at.dev) then w
    else if !c.topo.IsSwitch(at.dev) then
      Walk(w.found + [Entry(at.dev, at.port, w.next, Succ(c, w.next))], Succ(c, w.next))
    else
      Fewer(c, w, at);
      Leave(c, VisitPorts(c, at, c.topo.kinds[at.dev].ports, Enter(w, at)), |w.found|)
  }

  /** The walk through the first `n` ports of a switch, from the lowest on. */
  ghost function VisitPorts(c: Mport, at: End, n: nat, w: Walk): (r: Walk)
    ensures Later(w, r)
    decreases |Unseen(c, w)|, n + 1
  {
    if n == 0 then w
    else
      var v := VisitPorts(c, at, n - 1, w);
      NoMore(c, w, v);
      VisitPort(c, at, n - 1, v)
  }

  /** One port: what is behind it, unless it is the arrival port or has no link. */
  ghost function VisitPort(c: Mport, at: End, port: nat, w: Walk): (r: Walk)
    ensures Later(w, r)
    decreases |Unseen(c, w)|, 1
  {
    if port == at.port || End(at.dev, port) !in c.topo.links then w
    else Visit(c, c.topo.links[End(at.dev, port)], w)
  }

  lemma {:induction false} NoMore(c: Mport, w: Walk, v: Walk)
    requires Later(w, v)
    ensures |Unseen(c, v)| <= |Unseen(c, w)|
  {
    forall d: nat | Has(w, d) ensures Has(v, d) {
      var i: nat :| i < |w.found| && w.found[i].dev == d;
      assert v.found[i].dev == d;
    }
    Subset(Unseen(c, v), Unseen(c, w));
  }

  lemma {:induction false} Fewer(c: Mport, w: Walk, at: End)
    requires at.dev < |c.topo.kinds| && !Has(w, at.dev)
    ensures |Unseen(c, Enter(w, at))| < |Unseen(c, w)|
  {
    var v := Enter(w, at);
    assert v.found[|w.found|].dev == at.dev;
    forall d: nat | Has(w, d) ensures Has(v, d) {
      var i: nat :| i < |w.found| && w.found[i].dev == d;
      assert v.found[i].dev == d;
    }
    assert at.dev in Unseen(c, w) && at.dev !in Unseen(c, v);
    Subset(Unseen(c, v), Unseen(c, w) - {at.dev});
  }

  lemma {:induction false} Subset(a: set<nat>, b: set<nat>)
    requires a <= b
    ensures |a| <= |b|
  {
    if a != {} {
      var x :| x in a;
      Subset(a - {x}, b - {x});
    }
  }

  // ----- what the walk says about IDs

  /** No device is found twice, and the host not at all. */
  ghost predicate Distinct(c: Mport, w: Walk) {
    && (forall i: nat, j: nat :: i < j < |w.found| ==> w.found[i].dev != w.found[j].dev)
    && (forall i: nat :: i < |w.found| ==> w.found[i].dev != c.topo.host)
  }

  /** The far end of the link by which a device was found. */
  ghost function From(c: Mport, x: Entry): End {
    if End(x.dev, x.inport) in c.topo.links then c.topo.links[End(x.dev, x.inport)] else End(c.topo.host, 0)
  }

  /** Of two devices found from ports of one device, the one from the lower port was left before the
      other was found. */
  ghost predicate InOrder(c: Mport, found: seq<Entry>, from: nat) {
    forall i: nat, j: nat :: from <= i < |found| && from <= j < |found| ==> Ordered(c, found, i, j)
  }

  ghost predicate Ordered(c: Mport, found: seq<Entry>, i: nat, j: nat)
    requires i < |found| && j < |found|
  {
    var e, f := From(c, found[i]), From(c, found[j]);
    e.dev == f.dev && e.port < f.port ==> i < j && found[i].hi <= found[j].lo
  }

  /** What a part of the walk adds behind entry `k`: devices behind the first `n` ports of entry `k`, or behind
      other new ones, with IDs from those not given out before. */
  ghost predicate AddsBehind(c: Mport, w: Walk, r: Walk, k: nat, n: nat) {
    && k < |w.found| <= |r.found| && r.found[..|w.found|] == w.found && w.next <= r.next
    && Distinct(c, r) && InOrder(c, r.found, |w.found|)
    && (forall i: nat :: |w.found| <= i < |r.found| ==>
          w.next <= r.found[i].lo && r.found[i].hi <= r.next && NewUp(c, w, r, k, n, i))
  }

  ghost predicate NewUp(c: Mport, w: Walk, r: Walk, k: nat, n: nat, i: nat)
    requires k < |r.found| && i < |r.found|
  {
    var e := From(c, r.found[i]);
    (e.dev == r.found[k].dev && e.port < n) || Among(r, |w.found|, i, e.dev)
  }

  ghost predicate Among(r: Walk, from: nat, end: nat, d: nat) {
    exists m: nat :: from <= m < end && m < |r.found| && r.found[m].dev == d
  }

  /** What the walk from a link end adds: its device first, then devices behind it. */
  ghost predicate AddsFrom(c: Mport, w: Walk, r: Walk, at: End) {
    && |w.found| <= |r.found| && r.found[..|w.found|] == w.found && w.next <= r.next
    && Distinct(c, r) && InOrder(c, r.found, |w.found|)
    && (at.dev == c.topo.host || Has(w, at.dev) ==> r == w)
    && (at.dev != c.topo.host && !Has(w, at.dev) ==>
          |w.found| < |r.found| && r.found[|w.found|] == Entry(at.dev, at.port, w.next, r.next))
    && (forall i: nat :: |w.found| < i < |r.found| ==>
          && w.next <= r.found[i].lo && r.found[i].hi <= r.next
          && Among(r, |w.found|, i, From(c, r.found[i]).dev))
  }

  lemma {:induction false} VisitAdds(c: Mport, at: End, w: Walk)
    requires c.topo.Valid() && Distinct(c, w) && at in c.topo.links
    requires c.topo.links[at].dev == c.topo.host || Has(w, c.topo.links[at].dev)
    ensures AddsFrom(c, w, Visit(c, at, w), at)
    decreases |Unseen(c, w)|, 0
  {
    if at.dev == c.topo.host || Has(w, at.dev) {
    } else if !c.topo.IsSwitch(at.dev) {
      OneAdded(c, at, w, Succ(c, w.next));
    } else {
      Fewer(c, w, at);
      OneAdded(c, at, w, w.next);
      PortsAdd(c, at, c.topo.kinds[at.dev].ports, Enter(w, at), |w.found|);
      Closed(c, at, w, VisitPorts(c, at, c.topo.kinds[at.dev].ports, Enter(w, at)));
    }
  }

  lemma {:induction false} PortsAdd(c: Mport, at: End, n: nat, w: Walk, k: nat)
    requires c.topo.Valid() && Distinct(c, w) && k < |w.found| && w.found[k].dev == at.dev
    ensures AddsBehind(c, w, VisitPorts(c, at, n, w), k, n)
    decreases |Unseen(c, w)|, n + 1
  {
    if n == 0 {
    } else {
      var v := VisitPorts(c, at, n - 1, w);
      PortsAdd(c, at, n - 1, w, k);
      NoMore(c, w, v);
      if n - 1 != at.port && End(at.dev, n - 1) in c.topo.links {
        var b := c.topo.links[End(at.dev, n - 1)];
        assert v.found[k].dev == at.dev;
        VisitAdds(c, b, v);
        OneMorePort(c, at, n, w, k, v, b, Visit(c, b, v));
      } else {
        SamePorts(c, n, w, k, v);
      }
    }
  }

  lemma {:induction false} OneAdded(c: Mport, at: End, w: Walk, hi: nat)
    requires Distinct(c, w) && at.dev != c.topo.host && !Has(w, at.dev) && hi >= w.next
    ensures var r := Walk(w.found + [Entry(at.dev, at.port, w.next, hi)], hi); Distinct(c, r) && AddsFrom(c, w, r, at)
  {
    var r := Walk(w.found + [Entry(at.dev, at.port, w.next, hi)], hi);
    assert r.found[..|w.found|] == w.found;
  }

  lemma {:induction false} SamePorts(c: Mport, n: nat, w: Walk, k: nat, v: Walk)
    requires n > 0 && AddsBehind(c, w, v, k, n - 1)
    ensures AddsBehind(c, w, v, k, n)
  {
    hide InOrder, Distinct;
    forall i: nat | |w.found| <= i < |v.found| ensures NewUp(c, w, v, k, n, i) {
      assert NewUp(c, w, v, k, n - 1, i);
    }
  }

  /** The entry behind which a new one was found. */
  lemma {:induction false} Parent(c: Mport, w: Walk, v: Walk, k: nat, n: nat, i: nat) returns (m: nat)
    requires AddsBehind(c, w, v, k, n) && |w.found| <= i < |v.found|
    ensures m < i && v.found[m].dev == From(c, v.found[i]).dev
    ensures (m == k && From(c, v.found[i]).port < n) || |w.found| <= m
  {
    hide InOrder, Distinct, From;
    assert NewUp(c, w, v, k, n, i);
    if From(c, v.found[i]).dev == v.found[k].dev && From(c, v.found[i]).port < n {
      m := k;
    } else {
      m :| |w.found| <= m < i && m < |v.found| && v.found[m].dev == From(c, v.found[i]).dev;
    }
  }

  /** A switch is left. */
  lemma {:induction false} Closed(c: Mport, at: End, w: Walk, v: Walk)
    requires c.topo.Valid() && at in c.topo.links && Distinct(c, w) && at.dev != c.topo.host && !Has(w, at.dev)
    requires c.topo.links[at].dev == c.topo.host || Has(w, c.topo.links[at].dev)
    requires at.dev < |c.topo.kinds| && c.topo.kinds[at.dev].Switch?
    requires AddsBehind(c, Enter(w, at), v, |w.found|, c.topo.kinds[at.dev].ports)
    ensures AddsFrom(c, w, Leave(c, v, |w.found|), at)
  {
    hide InOrder, NewUp;
    var n, ports := |w.found|, c.topo.kinds[at.dev].ports;
    var e, r := Enter(w, at), Leave(c, v, n);
    assert e.found[..n] == w.found && v.found[n] == e.found[n];
    assert r.found[..n] == v.found[..n + 1][..n];
    forall i: nat | n < i < |r.found| ensures Among(r, n, i, From(c, r.found[i]).dev) {
      var m := Parent(c, e, v, n, ports, i);
      assert r.found[m].dev == v.found[m].dev;
    }
    forall i: nat, j: nat | n <= i < |r.found| && n <= j < |r.found| ensures Ordered(c, r.found, i, j) {
      if i == n && j > n {
        var m := Parent(c, e, v, n, ports, j);
        Elsewhere(c, w, at, v, m);
      } else if j == n && i > n {
        var m := Parent(c, e, v, n, ports, i);
        Elsewhere(c, w, at, v, m);
      } else if i > n && j > n {
        OrderedAt(c, v.found, n + 1, i, j);
      }
    }
    assert InOrder(c, r.found, n) by { AllOrdered(c, r.found, n); }
  }

  /** The device from which a switch was found is not one found from it. */
  lemma {:induction false} Elsewhere(c: Mport, w: Walk, at: End, v: Walk, m: nat)
    requires Distinct(c, v) && |w.found| <= m < |v.found| && v.found[..|w.found|] == w.found
    requires v.found[|w.found|].dev == at.dev && v.found[|w.found|].inport == at.port && at in c.topo.links
    requires c.topo.links[at].dev == c.topo.host || Has(w, c.topo.links[at].dev)
    ensures v.found[m].dev != From(c, v.found[|w.found|]).dev
  {
    if Has(w, c.topo.links[at].dev) {
      var i: nat :| i < |w.found| && w.found[i].dev == c.topo.links[at].dev;
      assert v.found[i].dev == w.found[i].dev;
    }
  }

  lemma {:induction false} OrderedAt(c: Mport, found: seq<Entry>, from: nat, i: nat, j: nat)
    requires InOrder(c, found, from) && from <= i < |found| && from <= j < |found|
    ensures Ordered(c, found, i, j)
  {
  }

  lemma {:induction false} AllOrdered(c: Mport, found: seq<Entry>, from: nat)
    requires forall i: nat, j: nat :: from <= i < |found| && from <= j < |found| ==> Ordered(c, found, i, j)
    ensures InOrder(c, found, from)
  {
  }

  /** One more port of a switch is followed, to an end `b`. */
  lemma {:induction false} OneMorePort(c: Mport, at: End, n: nat, w: Walk, k: nat, v: Walk, b: End, r: Walk)
    requires c.topo.Valid() && n > 0 && AddsBehind(c, w, v, k, n - 1) && AddsFrom(c, v, r, b)
    requires w.found[k].dev == at.dev && End(at.dev, n - 1) in c.topo.links && b == c.topo.links[End(at.dev, n - 1)]
    ensures AddsBehind(c, w, r, k, n)
  {
    hide InOrder, NewUp, Among;
    var from, mid := |w.found|, |v.found|;
    assert r.found[..from] == r.found[..mid][..from];
    assert r.found[k].dev == at.dev && b in c.topo.links;
    forall i: nat | from <= i < |r.found|
      ensures w.next <= r.found[i].lo && r.found[i].hi <= r.next && NewUp(c, w, r, k, n, i)
    {
      var m := NewParent(c, at, n, w, k, v, b, r, i);
      NewUpFrom(c, w, r, k, n, i, m);
      if i < mid { assert r.found[i] == v.found[i]; }
    }
    forall i: nat, j: nat | from <= i < |r.found| && from <= j < |r.found| ensures Ordered(c, r.found, i, j) {
      if i < mid && j < mid {
        OrderedAt(c, v.found, from, i, j);
        assert r.found[i] == v.found[i] && r.found[j] == v.found[j];
      } else if i >= mid && j >= mid {
        OrderedAt(c, r.found, mid, i, j);
      } else {
        assert i < mid ==> r.found[i] == v.found[i];
        var m := NewParent(c, at, n, w, k, v, b, r, i);
        var l := NewParent(c, at, n, w, k, v, b, r, j);
      }
    }
    AllOrdered(c, r.found, from);
  }

  /** The entry behind which a new one was found: it is as old as that itself, or the switch whose port is
      followed. */
  lemma {:induction false} NewParent(c: Mport, at: End, n: nat, w: Walk, k: nat, v: Walk, b: End, r: Walk, i: nat)
    returns (m: nat)
    requires c.topo.Valid() && n > 0 && AddsBehind(c, w, v, k, n - 1) && AddsFrom(c, v, r, b)
    requires w.found[k].dev == at.dev && End(at.dev, n - 1) in c.topo.links && b == c.topo.links[End(at.dev, n - 1)]
    requires |w.found| <= i < |r.found|
    ensures m < i && r.found[m].dev == From(c, r.found[i]).dev && r.found[k].dev == at.dev
    ensures if i < |v.found| then (m == k && From(c, r.found[i]).port < n - 1) || |w.found| <= m
            else if i == |v.found| then m == k && From(c, r.found[i]) == End(at.dev, n - 1) && r.found[i].lo == v.next
            else |v.found| <= m
    ensures i < |v.found| ==> r.found[i] == v.found[i] && v.found[i].hi <= v.next
  {
    hide InOrder;
    assert w.found[k] == v.found[..|w.found|][k] && v.found[k] == r.found[..|v.found|][k];
    if i < |v.found| {
      assert r.found[i] == r.found[..|v.found|][i];
      m := Parent(c, w, v, k, n - 1, i);
      assert r.found[m] == r.found[..|v.found|][m];
    } else if i == |v.found| {
      m := k;
      assert b in c.topo.links && c.topo.links[b] == End(at.dev, n - 1);
    } else {
      assert Among(r, |v.found|, i, From(c, r.found[i]).dev);
      m :| |v.found| <= m < i && m < |r.found| && r.found[m].dev == From(c, r.found[i]).dev;
    }
  }

  lemma {:induction false} NewUpFrom(c: Mport, w: Walk, r: Walk, k: nat, n: nat, i: nat, m: nat)
    requires k < |r.found| && m < i < |r.found| && r.found[m].dev == From(c, r.found[i]).dev
    requires (m == k && From(c, r.found[i]).port < n) || |w.found| <= m
    ensures NewUp(c, w, r, k, n, i)
  {
  }

  /** A whole walk from the host: every device is found once, and of two devices found from ports of one
      device, the one from the lower port comes first with all that is behind it. */
  lemma {:induction false} WalkInOrder(c: Mport)
    requires c.topo.Valid() && End(c.topo.host, 0) in c.topo.links
    ensures var w := Visit(c, c.topo.FirstHop(c.topo.host), Walk([], FirstId(c)));
            Distinct(c, w) && InOrder(c, w.found, 0)
  {
    var first := c.topo.FirstHop(c.topo.host);
    assert first in c.topo.links;
    VisitAdds(c, first, Walk([], FirstId(c)));
  }

  // ----- the order in a state of the enumeration

  ghost function EntryOf(s: State, d: nat): Entry {
    if d in s.rdev && d in s.mark then Entry(d, s.rdev[d].inport, s.mark[d].lo, s.mark[d].hi) else Entry(d, 0, 0, 0)
  }

  ghost function Order(s: State): Walk {
    Walk(seq(|s.devices|, i requires 0 <= i < |s.devices| => EntryOf(s, s.devices[i])), s.nextDestid)
  }

  lemma {:induction false} SameOrder(s: State, t: State)
    requires t.devices == s.devices && t.nextDestid == s.nextDestid
    requires forall d <- s.devices :: EntryOf(t, d) == EntryOf(s, d)
    ensures Order(t) == Order(s)
  {
  }

  lemma {:induction false} HasIs(c: Mport, s: State, d: nat)
    requires Shape(c, s) && Listed(c, s)
    ensures Has(Order(s), d) <==> d in s.rdev
  {
    var w := Order(s);
    if d in s.rdev {
      var i: nat := s.rdev[d].compTag - 2;
      assert w.found[i].dev == s.devices[i];
    }
  }

  /** One more device at the end of the list. */
  lemma {:induction false} Appended(c: Mport, s: State, t: State, d: nat)
    requires t.devices == s.devices + [d] && forall x <- s.devices :: EntryOf(t, x) == EntryOf(s, x)
    ensures Order(t) == Walk(Order(s).found + [EntryOf(t, d)], t.nextDestid)
  {
    var a, b := Order(t).found, Order(s).found + [EntryOf(t, d)];
    forall i: nat | i < |a| ensures a[i] == b[i] {
      if i < |s.devices| { assert t.devices[i] == s.devices[i]; }
    }
  }

  /** A switch is left. */
  lemma {:induction false} Left(c: Mport, s: State, d: nat, i: nat)
    requires d in s.rdev && d in s.mark && CanAlloc(c, s) && i < |s.devices| && s.devices[i] == d
    requires forall k: nat :: k < |s.devices| && k != i ==> s.devices[k] != d
    ensures Order(WithDone(c, s, d)) == Leave(c, Order(s), i)
  {
    var a, b := Order(WithDone(c, s, d)).found, Leave(c, Order(s), i).found;
    assert forall k: nat :: k < |a| ==> a[k] == b[k];
  }

  /** The records after a whole walk: device, tag, arrival port and ID by position. */
  ghost predicate NumberedBy(s: State, w: Walk) {
    && |s.devices| == |w.found| && s.nextDestid == w.next
    && forall i: nat :: i < |w.found| ==>
         && w.found[i].dev == s.devices[i] && s.devices[i] in s.rdev
         && s.rdev[s.devices[i]].compTag == i + 2 && s.rdev[s.devices[i]].inport == w.found[i].inport
         && s.rdev[s.devices[i]].destid == w.found[i].lo
  }
}
