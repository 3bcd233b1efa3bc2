/** Main results on enumerated fabrics: addressing, all-pairs delivery and redundant links. */
module Delivery {
  import opened Fabric
  import opened ScanState
  import opened Trees
  import opened TreeRoutes
  import opened Routing
  import opened ScanLemmas
  import opened ScanOrder

  // ----- the second pass over the route tables

  /** Tables of the walk plus routes towards the parent for IDs of devices found later. */
  ghost predicate Extends(c: Mport, s: State, t: State)
    requires Shape(c, s)
  {
    && |t.table| == |s.table| && (forall d: nat :: d in t.rdev <==> d in s.rdev)
    && (forall d <- s.rdev :: t.rdev[d] == s.rdev[d].(route := t.rdev[d].route))
    && (forall d <- s.rdev :: c.topo.IsSwitch(d) ==> Patched(c, s, t, d))
  }

  ghost predicate Patched(c: Mport, s: State, t: State, d: nat)
    requires Shape(c, s) && |t.table| == |s.table| && d in s.rdev && d in t.rdev
  {
    var r, u := s.rdev[d].route, t.rdev[d].route;
    && u == t.table[d] - {c.anyId}
    && (forall id <- r :: id in u && u[id] == r[id])
    && (forall id <- u :: id !in r ==> u[id] == s.rdev[d].inport && id != s.rdev[d].destid && IsDestId(s, id))
  }

  ghost predicate IsDestId(s: State, id: nat) {
    exists x :: x in s.rdev && s.rdev[x].destid == id
  }

  /** The second pass has seen this device and this switch. */
  ghost predicate Covered(t: State, d: nat, x: nat) {
    && d in t.rdev && x in t.rdev
    && (t.rdev[x].destid in t.rdev[d].route || t.rdev[x].destid == t.rdev[d].destid)
  }

  lemma {:induction false} DestIdRange(c: Mport, s: State, x: nat)
    requires Walked(c, s) && x in s.rdev
    ensures s.rdev[x].destid in Homes(c, s) && s.rdev[x].destid != c.hostId && s.rdev[x].destid < s.nextDestid < c.anyId
    ensures x in s.mark && s.rdev[x].destid == s.mark[x].lo
  {
    hide Walked;
    DeviceFacts(c, s, x);
    HostFacts(c, s);
    IdsFit(c, s);
  }

  lemma {:induction false} IdsFit(c: Mport, s: State)
    requires Walked(c, s)
    ensures s.nextDestid <= |c.topo.kinds| < c.anyId && c.hostId < c.anyId
  {
    Room(c, s, []);
  }

  lemma {:induction false} PatchLeads(c: Mport, s: State, t: State, d: nat, id: nat)
    requires Walked(c, s) && Spans(c.topo, TreeOf(c, s)) && Shape(c, s) && Extends(c, s, t)
    requires d in s.rdev && c.topo.IsSwitch(d) && id in t.rdev[d].route
    ensures id in Homes(c, s) && GoesTo(c, s, d, t.rdev[d].route[id], Homes(c, s)[id])
  {
    hide Walked, Spans, NextAt;
    assert Patched(c, s, t, d);
    if id in s.rdev[d].route {
      RouteLeads(c, s, d, id);
    } else {
      var x :| x in s.rdev && s.rdev[x].destid == id;
      DestIdRange(c, s, x);
      DeviceFacts(c, s, d);
      Outside(c, s, d, id);
    }
  }

  lemma {:induction false} ExtendedSound(c: Mport, s: State, t: State)
    requires Walked(c, s) && Spans(c.topo, TreeOf(c, s)) && Shape(c, s) && Extends(c, s, t)
    ensures Sound(c.topo, TreeOf(c, s), t.table, Homes(c, s))
  {
    hide Walked, Spans, Extends, Leads, TreeOf, Homes, Ids, Unique;
    IdsFit(c, s);
    TreeValid(c, s);
    HostFacts(c, s);
    ExtendsParts(c, s, t);
    forall d, id
      | d in TreeOf(c, s).rank && c.topo.IsSwitch(d) && id in Homes(c, s) && id in t.table[d]
      ensures Leads(c.topo, TreeOf(c, s), t.table, Homes(c, s), d, id)
    {
      ExtendedLeads(c, s, t, d, id);
    }
  }

  lemma {:induction false} ExtendedLeads(c: Mport, s: State, t: State, d: nat, id: nat)
    requires Walked(c, s) && Spans(c.topo, TreeOf(c, s)) && Shape(c, s) && Extends(c, s, t)
    requires d in TreeOf(c, s).rank && c.topo.IsSwitch(d) && d < |t.table| && id in Homes(c, s) && id in t.table[d]
    ensures Leads(c.topo, TreeOf(c, s), t.table, Homes(c, s), d, id)
  {
    hide Walked, Spans, Extends, Shape, TreeOf, Homes, Topology.Valid;
    HomesFit(c, s, id);
    TreeNodes(c, s);
    PatchTable(c, s, t, d);
    PatchLeads(c, s, t, d, id);
  }

  lemma {:induction false} HomesFit(c: Mport, s: State, id: nat)
    requires Walked(c, s) && id in Homes(c, s)
    ensures id < c.anyId
  {
    hide Walked, HomeOf;
    IdsFit(c, s);
  }

  lemma {:induction false} PatchTable(c: Mport, s: State, t: State, d: nat)
    requires Shape(c, s) && Extends(c, s, t) && d in s.rdev && c.topo.IsSwitch(d)
    ensures d in t.rdev && d < |t.table| && t.rdev[d].route == t.table[d] - {c.anyId}
  {
    PatchOf(c, s, t, d);
  }

  // ----- addressing

  /** The way the walk's own packets to a device take. */
  ghost function Way(c: Mport, s: State, x: nat): (tr: seq<End>)
    requires Walked(c, s) && x in s.rdev
    ensures tr != []
  {
    TreeValid(c, s);
    NodeFacts(c, s, x);
    Arrivals(c.topo, TreeOf(c, s), c.topo.host, x)
  }

  /** Its length is the hop count on record, and it ends at the device. */
  lemma {:induction false} WayLength(c: Mport, s: State, x: nat)
    requires Walked(c, s) && x in s.rdev
    ensures Way(c, s, x)[|Way(c, s, x)| - 1] == End(x, s.rdev[x].inport)
    ensures c.topo.IsSwitch(x) ==> |Way(c, s, x)| == s.rdev[x].hopcount + 1
    ensures !c.topo.IsSwitch(x) ==> |Way(c, s, x)| <= s.rdev[x].hopcount + 1
    decreases s.rdev[x].compTag
  {
    hide Walked, Spans, Arrivals;
    TreeValid(c, s);
    NodeFacts(c, s, x);
    DeviceFacts(c, s, x);
    var tree := TreeOf(c, s);
    SpansTree(c.topo, tree);
    var u := tree.up[x].dev;
    LastStep(c.topo, tree, x);
    if u != c.topo.host {
      WayLength(c, s, u);
      tree.RootAboveAll(u);
      ArrivalsVia(c.topo, tree, c.topo.host, u, x);
    }
  }

  /** A device's destination ID lives at the device or below it. */
  lemma {:induction false} HomeBelow(c: Mport, s: State, x: nat)
    requires Walked(c, s) && Spans(c.topo, TreeOf(c, s)) && x in s.rdev
    ensures s.rdev[x].destid in Homes(c, s) && Homes(c, s)[s.rdev[x].destid] in TreeOf(c, s).rank
    ensures TreeOf(c, s).Anc(x, Homes(c, s)[s.rdev[x].destid])
  {
    hide Walked, Spans, Terminal;
    DestIdRange(c, s, x);
    DeviceFacts(c, s, x);
    var id := s.rdev[x].destid;
    DescendBelow(c, s, x, id);
    HomeIs(c, s, Descend(c, s, x, id));
  }

  /** Switches above a device lead its destination ID down to it, in the extended tables too. */
  lemma {:induction false} AboveLeadsDown(c: Mport, s: State, t: State, y: nat, x: nat)
    requires Walked(c, s) && Spans(c.topo, TreeOf(c, s)) && Shape(c, s) && Extends(c, s, t)
    requires x in s.rdev && y in s.rdev && y != x && y in TreeOf(c, s).rank && x in TreeOf(c, s).rank
    requires TreeOf(c, s).Valid()
    requires TreeOf(c, s).Anc(y, x)
    ensures Down(TreeOf(c, s), t.table, s.rdev[x].destid, y, x)
  {
    hide Walked, Spans, SpanAt, NextAt, Extends;
    var tree, id := TreeOf(c, s), s.rdev[x].destid;
    HomeBelow(c, s, x);
    DestIdRange(c, s, x);
    IntervalsNest(c, s, y, x);
    AboveIsSwitch(c, s, y, x);
    DeviceFacts(c, s, y);
    RouteLeads(c, s, y, id);
    SameStep(tree, y, x, Homes(c, s)[id]);
    assert Patched(c, s, t, y) by { PatchOf(c, s, t, y); }
  }

  lemma {:induction false} PatchOf(c: Mport, s: State, t: State, d: nat)
    requires Shape(c, s) && Extends(c, s, t) && d in s.rdev && c.topo.IsSwitch(d)
    ensures d in t.rdev && |t.table| == |s.table| && Patched(c, s, t, d)
  {
  }

  lemma {:induction false} AboveIsSwitch(c: Mport, s: State, y: nat, x: nat)
    requires Walked(c, s) && Spans(c.topo, TreeOf(c, s)) && x in s.rdev && y in s.rdev && y != x
    requires x in TreeOf(c, s).rank && TreeOf(c, s).Anc(y, x)
    ensures c.topo.IsSwitch(y)
  {
    hide Walked;
    var tree := TreeOf(c, s);
    NodeFacts(c, s, y);
    assert Attached(c.topo, tree, tree.Toward(y, x));
  }

  /** Addressing: with the tables of the walk, extended or not, the stored destination ID takes
      a packet from the host along `Way` to the device itself. */
  lemma {:induction false} Addressed(c: Mport, s: State, t: State, x: nat)
    requires Walked(c, s) && Shape(c, s) && Extends(c, s, t) && x in s.rdev
    ensures c.topo.Trail(t.table, s.rdev[x].destid, Way(c, s, x))
    ensures End(c.topo.host, 0) in c.topo.links && Way(c, s, x)[0] == c.topo.FirstHop(c.topo.host)
    ensures c.topo.Target(t.table, c.topo.FirstHop(c.topo.host), s.rdev[x].destid, s.rdev[x].hopcount)
            == Some(End(x, s.rdev[x].inport))
  {
    hide Walked, Spans, Extends, Topology.Trail, Topology.Target, Down;
    assert |t.table| == |s.table| by { hide *; ExtendsLen(c, s, t); }
    TreeValid(c, s);
    HostFacts(c, s);
    NodeFacts(c, s, x);
    var tree := TreeOf(c, s);
    SpansTree(c.topo, tree);
    tree.RootAboveAll(x);
    forall y <- tree.rank | y != c.topo.host && y != x && tree.Anc(c.topo.host, y) && tree.Anc(y, x)
      ensures Down(tree, t.table, s.rdev[x].destid, y, x)
    {
      AboveLeadsDown(c, s, t, y, x);
    }
    DownTrail(c.topo, tree, t.table, s.rdev[x].destid, c.topo.host, x);
    WayLength(c, s, x);
    EndpointArrival(c.topo, tree, c.topo.host, x);
    c.topo.TrailTarget(t.table, s.rdev[x].destid, Way(c, s, x), s.rdev[x].hopcount);
  }

  lemma {:induction false} ExtendsLen(c: Mport, s: State, t: State)
    requires Shape(c, s) && Extends(c, s, t)
    ensures |t.table| == |s.table|
  {
  }

  // ----- steps of the second pass

  lemma {:induction false} SwitchWay(c: Mport, s: State, t: State, d: nat)
    requires Walked(c, s) && Shape(c, s) && Extends(c, s, t) && d in s.rdev && c.topo.IsSwitch(d)
    ensures d in t.rdev && t.rdev[d].destid == s.rdev[d].destid && t.rdev[d].hopcount == s.rdev[d].hopcount
    ensures t.rdev[d].inport == s.rdev[d].inport && |Way(c, s, d)| == t.rdev[d].hopcount + 1
    ensures Way(c, s, d)[|Way(c, s, d)| - 1] == End(d, t.rdev[d].inport)
  {
    hide Walked;
    WayLength(c, s, d);
  }

  /** `u` is `t` with one more route towards the parent. */
  ghost predicate AddsRoute(c: Mport, t: State, u: State, d: nat, id: nat) {
    && d in t.rdev && d < |t.table|
    && u == t.(table := t.table[d := Put(t.table[d], id, t.rdev[d].inport)],
               rdev := t.rdev[d := t.rdev[d].(route := Put(t.rdev[d].route, id, t.rdev[d].inport))])
  }

  lemma {:induction false} AddedPatch(c: Mport, s: State, t: State, u: State, d: nat, id: nat)
    requires Shape(c, s) && d in s.rdev && |t.table| == |s.table| && AddsRoute(c, t, u, d, id)
    requires Patched(c, s, t, d) && id !in t.rdev[d].route && id != s.rdev[d].destid && id != c.anyId && IsDestId(s, id)
    requires t.rdev[d].inport == s.rdev[d].inport
    ensures d in u.rdev && |u.table| == |s.table| && Patched(c, s, u, d)
  {
    hide IsDestId;
    PutOutside(t.table[d], id, t.rdev[d].inport, c.anyId);
  }

  lemma {:induction false} AddedExtends(c: Mport, s: State, t: State, u: State, d: nat, id: nat, x: nat)
    requires Walked(c, s) && Shape(c, s) && Extends(c, s, t) && d in s.rdev && c.topo.IsSwitch(d) && x in s.rdev
    requires AddsRoute(c, t, u, d, id) && id == s.rdev[x].destid && id !in t.rdev[d].route && id != s.rdev[d].destid
    ensures Extends(c, s, u)
  {
    hide Walked, Patched;
    DestIdRange(c, s, x);
    IdsFit(c, s);
    PatchOf(c, s, t, d);
    AddedPatch(c, s, t, u, d, id);
    forall e <- s.rdev | e != d && c.topo.IsSwitch(e) ensures Patched(c, s, u, e) {
      PatchOf(c, s, t, e);
      OtherPatch(c, s, t, u, e);
    }
  }

  lemma {:induction false} OtherPatch(c: Mport, s: State, t: State, u: State, e: nat)
    requires Shape(c, s) && e in s.rdev && e in t.rdev && e in u.rdev && |t.table| == |u.table| == |s.table|
    requires Patched(c, s, t, e) && u.rdev[e] == t.rdev[e] && u.table[e] == t.table[e]
    ensures Patched(c, s, u, e)
  {
  }

  lemma {:induction false} AddedCovered(c: Mport, t: State, u: State, d: nat, id: nat)
    requires AddsRoute(c, t, u, d, id)
    ensures forall e: nat, y: nat :: Covered(t, e, y) ==> Covered(u, e, y)
    ensures forall y: nat :: y in t.rdev && t.rdev[y].destid == id ==> Covered(u, d, y)
  {
  }

  lemma {:induction false} CoveredIf(t: State, d: nat, x: nat)
    requires d in t.rdev && x in t.rdev
    ensures Covered(t, d, x) <==> t.rdev[x].destid in t.rdev[d].route || t.rdev[x].destid == t.rdev[d].destid
  {
  }

  /** The records and tables that both states have. */
  lemma {:induction false} ExtendsParts(c: Mport, s: State, t: State)
    requires Shape(c, s) && Extends(c, s, t)
    ensures |t.table| == |s.table| && forall d: nat :: d in t.rdev <==> d in s.rdev
    ensures forall d <- s.rdev :: t.rdev[d] == s.rdev[d].(route := t.rdev[d].route)
  {
  }

  lemma {:induction false} PutOutside(table: Table, id: nat, port: nat, other: nat)
    requires id != other
    ensures Put(table, id, port) - {other} == Put(table - {other}, id, port)
  {
  }

  /** The lists hold exactly the devices and the switches. */
  lemma {:induction false} ListFacts(c: Mport, s: State)
    requires Walked(c, s)
    ensures forall x: nat :: x in s.devices <==> x in s.rdev
    ensures forall d: nat :: d in s.switches <==> d in s.rdev && c.topo.IsSwitch(d)
    ensures NoRepeat(s.devices)
  {
    hide Owned, Ids, TreeOk, TablesOk, SpansOk, Unique, NextsOk;
    forall x: nat | x in s.rdev ensures x in s.devices {
      assert s.devices[s.rdev[x].compTag - 2] == x;
    }
  }

  lemma {:induction false} AllCovered(c: Mport, s: State, t: State)
    requires Walked(c, s) && Shape(c, s) && Extends(c, s, t)
    requires forall d: nat :: d in t.rdev <==> d in s.rdev
    requires forall k: nat, d: nat :: k < |s.devices| && d in s.switches ==> Covered(t, d, s.devices[k])
    ensures Enumerated(c, s, t)
  {
    hide Walked, Extends, Covered;
    ListFacts(c, s);
    forall d, x | d in t.rdev && x in t.rdev && c.topo.IsSwitch(d) ensures Covered(t, d, x) {
      assert x in s.devices && d in s.switches;
    }
  }

  // ----- the enumerated fabric

  /** `t` is what an enumeration whose walk ended in `s` leaves behind. */
  ghost predicate Enumerated(c: Mport, s: State, t: State) {
    && Walked(c, s) && Shape(c, s) && Extends(c, s, t)
    && (forall d, x :: d in t.rdev && x in t.rdev && c.topo.IsSwitch(d) ==> Covered(t, d, x))
  }

  /** Every switch routes every ID that does not end at the switch itself. */
  lemma {:induction false} EnumeratedFull(c: Mport, s: State, t: State)
    requires Enumerated(c, s, t) && Spans(c.topo, TreeOf(c, s)) && |t.table| == |c.topo.kinds|
    ensures Full(c.topo, TreeOf(c, s), t.table, Homes(c, s))
  {
    hide Walked, Spans;
    TreeValid(c, s);
    HostFacts(c, s);
    var tree, home := TreeOf(c, s), Homes(c, s);
    forall d, id | d in tree.rank && c.topo.IsSwitch(d) && id in home && home[id] != d ensures id in t.table[d] {
      RoutesId(c, s, t, d, id);
    }
  }

  lemma {:induction false} RoutesId(c: Mport, s: State, t: State, d: nat, id: nat)
    requires Enumerated(c, s, t) && d in s.rdev && c.topo.IsSwitch(d) && id in Homes(c, s) && Homes(c, s)[id] != d
    ensures d < |t.table| && id in t.table[d]
  {
    hide Walked, Extends;
    PatchOf(c, s, t, d);
    DeviceFacts(c, s, d);
    if id !in s.rdev[d].route {
      var x := Homes(c, s)[id];
      assert HomeOf(c, s, id, x);
      TerminalId(c, s, x);
      SameDestids(c, s, t, x);
      SameDestids(c, s, t, d);
      assert Covered(t, d, x);
      HostFacts(c, s);
      assert Terminal(c, s, d) ==> s.mark[d].lo != id;
    }
  }

  lemma {:induction false} SameDestids(c: Mport, s: State, t: State, x: nat)
    requires Shape(c, s) && Extends(c, s, t) && x in s.rdev
    ensures x in t.rdev && t.rdev[x].destid == s.rdev[x].destid
  {
  }

  /** The ID by which an endpoint is addressed. */
  ghost function IdOf(c: Mport, s: State, x: nat): nat
    requires x == c.topo.host || x in s.rdev
  {
    if x == c.topo.host then c.hostId else s.rdev[x].destid
  }

  lemma {:induction false} EndpointHome(c: Mport, s: State, x: nat)
    requires Walked(c, s) && !c.topo.IsSwitch(x) && (x == c.topo.host || x in s.rdev)
    ensures IdOf(c, s, x) in Homes(c, s) && Homes(c, s)[IdOf(c, s, x)] == x
  {
    hide Walked;
    if x != c.topo.host {
      DeviceFacts(c, s, x);
      TerminalId(c, s, x);
      HomeIs(c, s, x);
    }
  }

  lemma {:induction false} DeliveryFacts(c: Mport, s: State, t: State, x: nat)
    requires Enumerated(c, s, t) && !c.topo.IsSwitch(x) && (x == c.topo.host || x in s.rdev)
    ensures Walked(c, s) && Spans(c.topo, TreeOf(c, s)) && TreeOf(c, s).Valid() && |t.table| == |c.topo.kinds|
    ensures forall d: nat :: d in TreeOf(c, s).rank <==> d in s.rdev || d == c.topo.host
    ensures IdOf(c, s, x) in Homes(c, s) && Homes(c, s)[IdOf(c, s, x)] == x
    ensures Sound(c.topo, TreeOf(c, s), t.table, Homes(c, s)) && Full(c.topo, TreeOf(c, s), t.table, Homes(c, s))
  {
    hide Walked, Spans, Extends, Sound, Full, TreeOf, Homes, IdOf, Covered, Ids, Unique;
    TreeValid(c, s);
    SpansTree(c.topo, TreeOf(c, s));
    HostFacts(c, s);
    ExtendsLen(c, s, t);
    EndpointHome(c, s, x);
    ExtendedSound(c, s, t);
    EnumeratedFull(c, s, t);
  }

  /** All-pairs delivery: after an enumeration, packets from any endpoint or the host to the ID of
      any other one pass the devices of the tree path, none of them twice, and end there. */
  lemma {:induction false} AllPairsDelivery(c: Mport, s: State, t: State, e: nat, x: nat, hops: nat)
    requires Enumerated(c, s, t) && e != x && !c.topo.IsSwitch(e) && !c.topo.IsSwitch(x)
    requires (e == c.topo.host || e in s.rdev) && (x == c.topo.host || x in s.rdev)
    ensures Spans(c.topo, TreeOf(c, s)) && e in TreeOf(c, s).rank && x in TreeOf(c, s).rank
    ensures |t.table| == |c.topo.kinds|
    ensures End(e, 0) in c.topo.links && NoRepeat(TreeOf(c, s).Path(e, x))
    ensures var tr := Arrivals(c.topo, TreeOf(c, s), e, x);
            && c.topo.Trail(t.table, IdOf(c, s, x), tr) && tr[0] == c.topo.FirstHop(e) && tr[|tr| - 1].dev == x
            && |tr| == |TreeOf(c, s).Path(e, x)| - 1
            && (forall k: nat :: k < |tr| ==> tr[k].dev == TreeOf(c, s).Path(e, x)[k + 1])
            && (|tr| - 1 <= hops ==>
                  c.topo.Target(t.table, c.topo.FirstHop(e), IdOf(c, s, x), hops) == Some(tr[|tr| - 1]))
  {
    hide Walked, Spans, Extends, Arrivals, Tree.Path, Topology.Trail, Topology.Target, Sound, Full, TreeOf, Homes,
         IdOf, Covered, NoRepeat, Tree.Valid;
    DeliveryFacts(c, s, t, x);
    TreeDelivery(c.topo, TreeOf(c, s), t.table, Homes(c, s), e, IdOf(c, s, x), x, hops);
  }

  // ----- completeness of the walk

  /** Linked devices, one after the other. */
  ghost predicate Chain(topo: Topology, devs: seq<nat>) {
    forall k: nat :: k < |devs| - 1 ==> Neighbours(topo, devs[k], devs[k + 1])
  }

  ghost predicate Neighbours(topo: Topology, d: nat, e: nat) {
    exists q: nat :: End(d, q) in topo.links && topo.links[End(d, q)].dev == e
  }

  /** The scan misses nothing: every device linked to the host, over any links, is set up. */
  lemma {:induction false} AllReachableSetUp(c: Mport, s: State, devs: seq<nat>)
    requires Walked(c, s) && devs != [] && devs[0] == c.topo.host && Chain(c.topo, devs)
    ensures devs[|devs| - 1] == c.topo.host || devs[|devs| - 1] in s.rdev
    decreases |devs|
  {
    hide Walked;
    if |devs| > 1 {
      var front := devs[..|devs| - 1];
      forall k: nat | k < |front| - 1 ensures Neighbours(c.topo, front[k], front[k + 1]) {
        assert Neighbours(c.topo, devs[k], devs[k + 1]);
      }
      AllReachableSetUp(c, s, front);
      assert Neighbours(c.topo, devs[|devs| - 2], devs[|devs| - 1]);
      NeighbourSetUp(c, s, devs[|devs| - 2], devs[|devs| - 1]);
    }
  }

  lemma {:induction false} NeighbourSetUp(c: Mport, s: State, d: nat, e: nat)
    requires Walked(c, s) && Neighbours(c.topo, d, e) && (d == c.topo.host || d in s.rdev)
    ensures e == c.topo.host || e in s.rdev
  {
    hide Walked, SpanAt, TableAt;
    var q: nat :| End(d, q) in c.topo.links && c.topo.links[End(d, q)].dev == e;
    HostFacts(c, s);
    RootFacts(c, s);
    assert c.topo.OnDevice(End(d, q));
    if d != c.topo.host {
      DeviceFacts(c, s, d);
      assert c.topo.OnDevice(End(d, s.rdev[d].inport));
    }
  }

  /** Links outside the tree: `nextdev` of a switch names the device really at the other end of
      every link but the one to its parent, which `prev` names. */
  lemma {:induction false} LinksRecorded(c: Mport, s: State, t: State, d: nat, q: nat)
    requires Enumerated(c, s, t) && d in s.rdev && c.topo.IsSwitch(d) && End(d, q) in c.topo.links
    ensures d in t.rdev
    ensures q != t.rdev[d].inport ==>
              q in t.rdev[d].nextdev && t.rdev[d].nextdev[q] == c.topo.links[End(d, q)].dev
                    && t.rdev[d].nextdev[q] in t.rdev
    ensures q == t.rdev[d].inport ==>
              t.rdev[d].prev == if c.topo.links[End(d, q)].dev == c.topo.host then None
                    else Some(c.topo.links[End(d, q)].dev)
  {
    hide Walked;
    DeviceFacts(c, s, d);
  }

  /** Who holds which lock before they are cleared. */
  lemma {:induction false} LockFacts(c: Mport, s: State, t: State)
    requires Enumerated(c, s, t) && t.lock == s.lock
    ensures c.topo.host < |s.lock| == |c.topo.kinds| && c.topo.host !in s.rdev && c.hostId != FREE
    ensures forall d: nat :: d < |s.lock| ==> s.lock[d] == if d == c.topo.host || d in s.devices then c.hostId else FREE
    ensures forall x: nat :: x in s.devices <==> x in s.rdev
    ensures NoRepeat(s.devices)
  {
    hide Ids, TreeOk, TablesOk, SpansOk, Unique, NextsOk, Extends, Covered;
    ListFacts(c, s);
  }

  lemma {:induction false} SelfExtends(c: Mport, s: State, t: State)
    requires Walked(c, s) && Shape(c, s) && t.table == s.table && t.rdev == s.rdev
    ensures Extends(c, s, t)
  {
    hide Walked, SpanAt, NextAt;
    forall d <- s.rdev | c.topo.IsSwitch(d) ensures Patched(c, s, t, d) {
      DeviceFacts(c, s, d);
    }
  }

  /** Only tables and records matter. */
  lemma {:induction false} SameTables(c: Mport, s: State, t: State, u: State)
    requires Enumerated(c, s, t) && u.table == t.table && u.rdev == t.rdev
    ensures Enumerated(c, s, u)
  {
    hide Walked;
    forall d <- s.rdev | c.topo.IsSwitch(d) ensures Patched(c, s, u, d) {
      assert Patched(c, s, t, d);
    }
    forall d, x | d in u.rdev && x in u.rdev && c.topo.IsSwitch(d) ensures Covered(u, d, x) {
      assert Covered(t, d, x);
    }
  }

  /** The stored address of a device reaches the device. */
  lemma {:induction false} OwnWay(c: Mport, s: State, t: State, d: nat)
    requires Enumerated(c, s, t) && d in s.rdev
    ensures Walked(c, s) && d in t.rdev && d < |t.table| == |c.topo.kinds| && End(c.topo.host, 0) in c.topo.links
    ensures var way := Way(c, s, d);
            && c.topo.Trail(t.table, t.rdev[d].destid, way) && way[0] == c.topo.FirstHop(c.topo.host)
            && way[|way| - 1].dev == d && |way| - 1 <= t.rdev[d].hopcount
            && (|way| - 1 == t.rdev[d].hopcount || !c.topo.IsSwitch(d))
  {
    hide Walked, Extends, Topology.Trail;
    ExtendsParts(c, s, t);
    Addressed(c, s, t, d);
    WayLength(c, s, d);
    NodeFacts(c, s, d);
    HostFacts(c, s);
  }

  /** Each device has a tag of its own, in its register and on record, and the bitmap holds exactly the
      host's ID and all IDs up to the next one to give out. */
  lemma {:induction false} TagsAndIds(c: Mport, s: State, x: nat, y: nat, id: nat)
    requires Walked(c, s) && x in s.rdev && y in s.rdev
    ensures x < |s.tag| && s.tag[x] == s.rdev[x].compTag && 2 <= s.rdev[x].compTag < s.nextTag
    ensures s.rdev[x].compTag == s.rdev[y].compTag ==> x == y
    ensures id < |s.used| ==> (s.used[id] <==> id == c.hostId || id <= s.nextDestid)
  {
    hide TreeOk, TablesOk, SpansOk, Unique, NextsOk, Owned;
  }

  // ----- the order of the walk

  /** The depth-first walk from the host over the ports of each switch from the lowest on. */
  ghost function WholeWalk(c: Mport): Walk
    requires End(c.topo.host, 0) in c.topo.links
  {
    Visit(c, c.topo.FirstHop(c.topo.host), Walk([], FirstId(c)))
  }

  /** Devices were found in the order of that walk, with its IDs. */
  ghost predicate InWalkOrder(c: Mport, s: State) {
    End(c.topo.host, 0) in c.topo.links && Order(s) == WholeWalk(c)
  }

  /** Devices, tags, arrival ports and IDs on record are those of the depth-first walk in port order. */
  lemma {:induction false} NumberedInOrder(c: Mport, s: State)
    requires Walked(c, s) && InWalkOrder(c, s)
    ensures c.topo.Valid() && NumberedBy(s, WholeWalk(c))
    ensures Distinct(c, WholeWalk(c)) && InOrder(c, WholeWalk(c).found, 0)
  {
    hide Visit, Inv, Distinct, InOrder, Order;
    assert c.topo.Valid() by { ListOf(c, s); }
    WalkInOrder(c);
    SameLength(s);
    forall i: nat | i < |s.devices|
      ensures s.devices[i] in s.rdev && s.rdev[s.devices[i]].compTag == i + 2 && i < |Order(s).found|
      ensures var e := Order(s).found[i];
              e.dev == s.devices[i] && e.inport == s.rdev[e.dev].inport && e.lo == s.rdev[e.dev].destid
    {
      ListOf(c, s);
      DestIdRange(c, s, s.devices[i]);
      EntryAt(s, i);
    }
  }

  lemma {:induction false} SameLength(s: State)
    ensures |Order(s).found| == |s.devices| && Order(s).next == s.nextDestid
  {
  }

  lemma {:induction false} EntryAt(s: State, i: nat)
    requires i < |s.devices|
    ensures i < |Order(s).found| && Order(s).found[i] == EntryOf(s, s.devices[i])
  {
  }

  /** Tags number the list of devices. */
  lemma {:induction false} ListOf(c: Mport, s: State)
    requires Walked(c, s)
    ensures c.topo.Valid()
    ensures forall i: nat :: i < |s.devices| ==> s.devices[i] in s.rdev && s.rdev[s.devices[i]].compTag == i + 2
  {
    hide Visit, TreeOk, TablesOk, SpansOk, Unique, NextsOk, Owned, Ids, PathOk;
  }

  /** Of two devices that hang from ports of one switch, the one at the lower port has the lower ID and tag, and so
      has all that is below it. */
  lemma {:induction false} SiblingsInOrder(c: Mport, s: State, x: nat, y: nat)
    requires Walked(c, s) && InWalkOrder(c, s) && x in s.rdev && y in s.rdev
    ensures x in s.mark && y in s.mark && End(x, s.rdev[x].inport) in c.topo.links
    ensures End(y, s.rdev[y].inport) in c.topo.links
    ensures var u, v := UpEnd(c, s, x), UpEnd(c, s, y);
            u.dev == v.dev && u.port < v.port ==>
              && s.rdev[x].compTag < s.rdev[y].compTag && s.mark[x].hi <= s.mark[y].lo
              && s.rdev[x].destid < s.mark[x].hi && s.rdev[y].destid == s.mark[y].lo
  {
    hide Visit, Inv, TreeAt, SpanAt, TableAt, NextAt, InOrder, Distinct;
    NumberedInOrder(c, s);
    DestIdRange(c, s, x);
    DestIdRange(c, s, y);
    var i := Position(c, s, x);
    var j := Position(c, s, y);
    SpanOf(c, s, x);
    SpanOf(c, s, y);
    assert Order(s).found[i] == EntryOf(s, x) && Order(s).found[j] == EntryOf(s, y);
    AtPositions(c, WholeWalk(c).found, i, j);
  }

  lemma {:induction false} AtPositions(c: Mport, found: seq<Entry>, i: nat, j: nat)
    requires InOrder(c, found, 0) && i < |found| && j < |found|
    ensures Ordered(c, found, i, j)
  {
  }

  lemma {:induction false} SpanOf(c: Mport, s: State, x: nat)
    requires Walked(c, s) && x in s.rdev
    ensures x in s.mark && s.mark[x].lo < s.mark[x].hi && End(x, s.rdev[x].inport) in c.topo.links
  {
    hide Inv, TableAt, NextAt;
    DeviceFacts(c, s, x);
  }

  lemma {:induction false} Position(c: Mport, s: State, x: nat) returns (i: nat)
    requires Walked(c, s) && x in s.rdev
    ensures i < |s.devices| && s.devices[i] == x && i + 2 == s.rdev[x].compTag
  {
    hide TreeOk, TablesOk, SpansOk, Unique, NextsOk, Owned, Visit;
    i := s.rdev[x].compTag - 2;
  }
}
