/** Passive discovery of an enumerated fabric by one of its endpoints (`rio_disc_peer`). */
module Discovery {
  import opened Fabric
  import opened ScanState
  import opened Trees
  import opened TreeRoutes

  const INVALID_ROUTE: nat := 0xff
  const EINVAL: int := -22

  /** A fabric whose tables follow a tree: every ID has a home, every branch is the home of some
      ID, and IDs without a home have no routes. */
  ghost predicate Routed(t: Topology, tree: Tree, tables: Tables, home: map<nat, nat>, anyId: nat) {
    && Spans(t, tree) && Sound(t, tree, tables, home) && Full(t, tree, tables, home)
    && (forall id <- home :: id < anyId && home[id] in tree.rank)
    && (forall d, id :: d in tree.rank && t.IsSwitch(d) && id in tables[d] && id != anyId ==> id in home)
    && (forall x <- tree.up :: Inhabited(tree, home, x))
    && (exists id :: id in home && home[id] == tree.root)
    && (forall d <- tree.rank :: t.IsSwitch(d) ==> t.kinds[d].ports <= 0xff)
  }

  ghost predicate Inhabited(tree: Tree, home: map<nat, nat>, x: nat)
    requires tree.Valid()
  {
    exists id :: id in home && home[id] in tree.rank && tree.Anc(x, home[id])
  }

  /** The devices that a packet arriving at `at` can still be meant for. */
  ghost function Side(tree: Tree, at: End): set<nat>
    requires tree.Valid() && at.dev in tree.rank
  {
    set x | x in tree.rank && InSide(tree, at, x)
  }

  ghost predicate InSide(tree: Tree, at: End, x: nat)
    requires tree.Valid() && at.dev in tree.rank && x in tree.rank
  {
    x == at.dev || tree.Dir(at.dev, x) != at.port
  }

  /** Crossing a tree link from `d` through port `q`: the side beyond is what lies in that direction. */
  lemma {:induction false} SideBeyond(t: Topology, tree: Tree, d: nat, q: nat, y: nat, x: nat)
    requires Spans(t, tree) && d in tree.rank && y in tree.rank && y != d && tree.Dir(d, y) == q && x in tree.rank
    ensures End(d, q) in t.links && t.links[End(d, q)].dev in tree.rank
    ensures InSide(tree, t.links[End(d, q)], x) <==> x != d && tree.Dir(d, x) == q
  {
    LinkThere(t, tree, d, y);
    if tree.Anc(d, y) {
      var c := tree.Toward(d, y);
      assert Attached(t, tree, c);
      assert t.links[End(d, q)] == End(c, tree.inport[c]);
      tree.DirFromParent(c, x);
      tree.DirFromChild(c, x);
    } else {
      tree.RootAboveAll(y);
      assert Attached(t, tree, d);
      assert t.links[End(d, q)] == tree.up[d];
      tree.DirFromParent(d, x);
      tree.DirFromChild(d, x);
    }
  }

  lemma {:induction false} EndpointUp(t: Topology, tree: Tree, e: nat)
    requires Spans(t, tree) && tree.Valid() && e in tree.rank && e != tree.root && !t.IsSwitch(e)
    ensures End(e, 0) in t.links && e in tree.up && t.FirstHop(e) == tree.up[e] && t.FirstHop(e) in t.links
    ensures tree.up[e].dev in tree.rank
  {
    hide Topology.Valid;
    assert Attached(t, tree, e);
    OnlyPort(t, End(e, tree.inport[e]));
  }

  lemma {:induction false} OnlyPort(t: Topology, e: End)
    requires t.Valid() && e in t.links && !t.IsSwitch(e.dev)
    ensures e.port == 0 && t.links[e] in t.links
  {
    assert t.OnDevice(e);
  }

  lemma {:induction false} AboveAreSwitches(t: Topology, tree: Tree, a: nat, x: nat)
    requires Spans(t, tree) && tree.Valid() && x in tree.rank && tree.Anc(a, x) && a != x && a != tree.root
    ensures t.IsSwitch(a)
  {
    assert Attached(t, tree, tree.Toward(a, x));
  }

  /** A branch with devices in it has an ID routed into it. */
  lemma {:induction false} BranchHasId(t: Topology, tree: Tree, tables: Tables, home: map<nat, nat>, anyId: nat,
        d: nat, x: nat)
    requires Routed(t, tree, tables, home, anyId) && d in tree.rank && t.IsSwitch(d) && x in tree.rank && x != d
    ensures exists id :: id < anyId && id in tables[d] && tables[d][id] == tree.Dir(d, x)
  {
    if tree.Anc(d, x) {
      var c := tree.Toward(d, x);
      assert Inhabited(tree, home, c);
      var id :| id in home && home[id] in tree.rank && tree.Anc(c, home[id]);
      tree.DirFromParent(c, home[id]);
      assert Leads(t, tree, tables, home, d, id);
    } else {
      var id :| id in home && home[id] == tree.root;
      tree.RootAboveAll(x);
      tree.AncRank(d, tree.root);
      tree.RootAboveAll(d);
      assert home[id] != d && !tree.Anc(d, home[id]) by { NotAboveRoot(tree, d); }
      assert Leads(t, tree, tables, home, d, id);
    }
  }

  /** A route of a switch in the tree has a home and leads there. */
  lemma {:induction false} RouteFacts(t: Topology, tree: Tree, tables: Tables, home: map<nat, nat>, anyId: nat, d: nat,
        id: nat)
    requires Routed(t, tree, tables, home, anyId) && d in tree.rank && t.IsSwitch(d)
    requires id < anyId && d < |tables| && id in tables[d]
    ensures id in home && Leads(t, tree, tables, home, d, id)
  {
  }

  lemma {:induction false} NotAboveRoot(tree: Tree, d: nat)
    requires tree.Valid() && d in tree.rank && d != tree.root
    ensures !tree.Anc(d, tree.root)
  {
  }

  class Agent {
    const topo: Topology
    const tables: Tables
    const tag: seq<nat>
    const did: seq<nat>
    const anyId: nat
    const self: nat
    const ownId: nat
    ghost const tree: Tree
    ghost const home: map<nat, nat>

    var lock: seq<nat>
    var rdev: map<nat, RioDev>
    var devices: seq<nat>
    var switches: seq<nat>
    ghost var way: map<nat, seq<End>>

    /** The fabric is routed, and this endpoint is linked to it. */
    ghost predicate World() {
      && Routed(topo, tree, tables, home, anyId)
      && |tag| == |did| == |topo.kinds|
      && self in tree.rank && End(self, 0) in topo.links && ownId != FREE
    }

    ghost predicate Listed()
      reads this`devices, this`switches, this`rdev, this`way
    {
      Lists(devices, switches, rdev, way)
    }

    /** Each device is listed once, each switch can be addressed by its record, and the recorded
        neighbours are the devices really at the other ends of the links. */
    ghost predicate Lists(devices: seq<nat>, switches: seq<nat>, rdev: map<nat, RioDev>, way: map<nat, seq<End>>) {
      && NoRepeat(devices) && (forall x: nat :: x in devices <==> x in rdev)
      && (forall x: nat :: x in switches <==> x in rdev && topo.IsSwitch(x))
      && (forall x <- switches :: x in way && Addressable(rdev[x], way[x], x))
      && (forall x <- rdev :: Named(rdev[x], x))
    }

    ghost predicate Named(rec: RioDev, x: nat) {
      && (forall q <- rec.nextdev :: End(x, q) in topo.links && topo.links[End(x, q)].dev == rec.nextdev[q])
      && (rec.prev.Some? ==> End(x, rec.inport) in topo.links && topo.links[End(x, rec.inport)].dev == rec.prev.value)
    }

    ghost predicate Addressable(rec: RioDev, trail: seq<End>, x: nat) {
      |trail| == rec.hopcount + 1 && trail[rec.hopcount].dev == x && Comes(rec.destid, trail)
    }

    /** A packet with this ID takes `trail` from here. */
    ghost predicate Comes(id: nat, trail: seq<End>) {
      && |tables| == |topo.kinds| && End(self, 0) in topo.links && trail != []
      && trail[0] == topo.FirstHop(self) && topo.Trail(tables, id, trail)
    }

    method Reach(id: nat, hops: nat, ghost trail: seq<End>) returns (at: End)
      requires Comes(id, trail) && |trail| == hops + 1
      ensures at == trail[hops]
    {
      topo.TrailTarget(tables, id, trail, hops);
      at := topo.Target(tables, topo.FirstHop(self), id, hops).value;
    }

    method WriteLock(id: nat, hops: nat, value: nat, ghost trail: seq<End>)
      requires Comes(id, trail) && |trail| == hops + 1 && trail[hops].dev < |lock|
      modifies this`lock
      ensures lock == old(lock)[trail[hops].dev := LockWrite(old(lock)[trail[hops].dev], value)]
    {
      var at := Reach(id, hops, trail);
      lock := lock[at.dev := LockWrite(lock[at.dev], value)];
    }

    method ReadLock(id: nat, hops: nat, ghost trail: seq<End>) returns (value: nat)
      requires Comes(id, trail) && |trail| == hops + 1 && trail[hops].dev < |lock|
      ensures value == lock[trail[hops].dev]
    {
      var at := Reach(id, hops, trail);
      value := lock[at.dev];
    }

    /** `rio_lock_device`: a write takes a free lock but releases one that is held already, so a
        held lock takes a second write.  Without a time limit a foreign lock would be waited for
        for ever. */
    method LockDevice(id: nat, hops: nat, waitMs: nat, ghost trail: seq<End>) returns (rc: int)
      requires Comes(id, trail) && |trail| == hops + 1 && trail[hops].dev < |lock| && ownId != FREE
      requires waitMs == 0 ==> Lockable(lock, trail[hops].dev)
      modifies this`lock
      ensures var d := trail[hops].dev; var was := old(lock)[d];
              && (was == FREE || was == ownId ==> rc == 0 && lock == old(lock)[d := ownId])
              && (was != FREE && was != ownId ==> rc == EINVAL && lock == old(lock))
    {
      ghost var d := trail[hops].dev;
      WriteLock(id, hops, ownId, trail);
      var result := ReadLock(id, hops, trail);
      var tcnt := 0;
      while result != ownId
        invariant (tcnt <= if waitMs == 0 then 1 else waitMs) && d < |lock| && result == lock[d]
        invariant lock == old(lock)[d := lock[d]]
        invariant old(lock)[d] == FREE ==> lock[d] == ownId
        invariant old(lock)[d] == ownId ==> lock[d] == if tcnt == 0 then FREE else ownId
        invariant old(lock)[d] != FREE && old(lock)[d] != ownId ==> lock[d] == old(lock)[d]
        decreases (if waitMs == 0 then 1 else waitMs) - tcnt
      {
        if waitMs != 0 && tcnt == waitMs {
          return EINVAL;
        }
        tcnt := tcnt + 1;
        WriteLock(id, hops, ownId, trail);
        result := ReadLock(id, hops, trail);
      }
      rc := 0;
    }

    /** `rio_unlock_device`. */
    method UnlockDevice(id: nat, hops: nat, ghost trail: seq<End>) returns (rc: int)
      requires Comes(id, trail) && |trail| == hops + 1 && trail[hops].dev < |lock|
      modifies this`lock
      ensures var d := trail[hops].dev;
              && lock == old(lock)[d := LockWrite(old(lock)[d], ownId)]
              && (rc == 0 <==> lock[d] == FREE)
    {
      WriteLock(id, hops, ownId, trail);
      var result := ReadLock(id, hops, trail);
      rc := if result == FREE then 0 else EINVAL;
    }

    /** `rio_route_get_entry`: the port in a switch's table, RIO_INVALID_ROUTE if there is none. */
    method RouteGet(id: nat, hops: nat, destid: nat, ghost trail: seq<End>) returns (port: nat)
      requires Comes(id, trail) && |trail| == hops + 1 && trail[hops].dev < |tables|
      ensures var d := trail[hops].dev; port == if destid in tables[d] then tables[d][destid] else INVALID_ROUTE
    {
      var at := Reach(id, hops, trail);
      port := if destid in tables[at.dev] then tables[at.dev][destid] else INVALID_ROUTE;
    }

    /** The least ID below the reserved one that the switch routes to `port`, or the reserved one. */
    method FindRoute(id: nat, hops: nat, port: nat, ghost trail: seq<End>) returns (ndestid: nat)
      requires Comes(id, trail) && |trail| == hops + 1 && trail[hops].dev < |tables| && port < INVALID_ROUTE
      ensures var d := trail[hops].dev;
              && ndestid <= anyId
              && (ndestid < anyId ==> ndestid in tables[d] && tables[d][ndestid] == port)
              && (forall k: nat :: k < ndestid && k in tables[d] ==> tables[d][k] != port)
    {
      ndestid := 0;
      while ndestid < anyId
        invariant ndestid <= anyId
        invariant forall k: nat :: k < ndestid && k in tables[trail[hops].dev] ==> tables[trail[hops].dev][k] != port
      {
        var routePort := RouteGet(id, hops, ndestid, trail);
        if routePort == port {
          break;
        }
        ndestid := ndestid + 1;
      }
    }

    /** All IDs that live beyond `at` come this way, nothing beyond is known or locked by others, and this
        endpoint is not beyond. */
    ghost predicate Frontier(trail: seq<End>, at: End)
      reads this
    {
      && World() && Listed() && trail != [] && trail[|trail| - 1] == at && at.dev in tree.rank && at in topo.links
      && !InSide(tree, at, self)
      && (forall id <- home :: InSide(tree, at, home[id]) ==> Comes(id, trail))
      && (forall x <- tree.rank :: InSide(tree, at, x) ==> x !in rdev && Lockable(lock, x))
    }

    /** `rio_setup_device` in discovery mode: records what the registers say. */
    method SetUpDevice(destid: nat, hop: nat, prev: Option<nat>, ghost trail: seq<End>) returns (d: nat)
      requires World() && Listed() && Comes(destid, trail) && |trail| == hop + 1
      requires trail[hop].dev < |tag| && trail[hop].dev !in rdev
      requires prev.Some? ==> trail[hop] in topo.links && topo.links[trail[hop]].dev == prev.value
      modifies this`rdev, this`devices, this`switches, this`way
      ensures d == trail[hop].dev && Listed() && devices == old(devices) + [d]
      ensures rdev == old(rdev)[d := NewRecord(destid, hop, prev, trail[hop])]
    {
      hide Lists, Comes;
      var at := Reach(destid, hop, trail);
      d := at.dev;
      ListsGrow(devices, switches, rdev, way, d, NewRecord(destid, hop, prev, at), trail);
      if topo.IsSwitch(d) {
        rdev := rdev[d := RioDev(tag[d], destid, hop, at.port, prev, map[], map[])];
        switches := switches + [d];
      } else {
        rdev := rdev[d := RioDev(tag[d], did[d], 0xff, at.port, prev, map[], map[])];
      }
      devices := devices + [d];
      way := way[d := trail];
    }

    ghost function NewRecord(destid: nat, hop: nat, prev: Option<nat>, at: End): RioDev
      requires at.dev < |tag| && at.dev < |did|
    {
      RioDev(tag[at.dev], if topo.IsSwitch(at.dev) then destid else did[at.dev],
             if topo.IsSwitch(at.dev) then hop else 0xff, at.port, prev, map[], map[])
    }

    lemma {:induction false} ListsGrow(ds: seq<nat>, sw: seq<nat>, r: map<nat, RioDev>, w: map<nat, seq<End>>, d: nat,
          rec: RioDev, trail: seq<End>)
      requires Lists(ds, sw, r, w) && d !in r && Named(rec, d) && (topo.IsSwitch(d) ==> Addressable(rec, trail, d))
      ensures Lists(ds + [d], if topo.IsSwitch(d) then sw + [d] else sw, r[d := rec], w[d := trail])
    {
      hide Named, Addressable;
    }

    lemma {:induction false} ListsChange(ds: seq<nat>, sw: seq<nat>, r: map<nat, RioDev>, w: map<nat, seq<End>>,
          d: nat, rec: RioDev)
      requires Lists(ds, sw, r, w) && d in r && Named(rec, d) && rec.destid == r[d].destid
      requires rec.hopcount == r[d].hopcount
      ensures Lists(ds, sw, r[d := rec], w)
    {
      hide Named, Comes;
    }

    lemma {:induction false} ListFacts(d: nat)
      requires Listed() && d in rdev
      ensures Named(rdev[d], d) && (d in switches <==> topo.IsSwitch(d))
      ensures (d in switches ==> d in way && Addressable(rdev[d], way[d], d))
    {
    }

    ghost predicate NextIs(x: nat, q: nat, d: nat) {
      End(x, q) in topo.links && topo.links[End(x, q)].dev == d
    }

    /** Records the neighbour behind a port of the previous switch. */
    method LinkNext(prev: Option<nat>, prevPort: nat, d: nat)
      requires Listed() && (prev.Some? ==> prev.value in rdev && NextIs(prev.value, prevPort, d))
      modifies this`rdev
      ensures Listed() && rdev == Linked(old(rdev), prev, prevPort, d)
    {
      hide Lists;
      if prev.Some? {
        ListFacts(prev.value);
        var rec := rdev[prev.value];
        ListsChange(devices, switches, rdev, way, prev.value, rec.(nextdev := rec.nextdev[prevPort := d]));
        rdev := rdev[prev.value := rec.(nextdev := rec.nextdev[prevPort := d])];
      }
    }

    /** From `before` to `after`, exactly the devices of `found` were added, with what their registers
        say; of the records there were, only `f` may have changed, in its neighbours. */
    ghost predicate Added(before: map<nat, RioDev>, after: map<nat, RioDev>, found: set<nat>, f: Option<nat>) {
      && (forall x: nat :: x in after <==> x in before || x in found)
      && (forall x <- found :: x !in before && Read(after, x))
      && (forall x <- before :: f != Some(x) ==> after[x] == before[x])
      && (f.Some? && f.value in before ==> after[f.value] == before[f.value].(nextdev := after[f.value].nextdev))
    }

    /** The record of a device holds its component tag, its arrival port, for an endpoint its ID, and its
        neighbours. */
    ghost predicate Read(rdevs: map<nat, RioDev>, x: nat) {
      && x in rdevs && x < |tag| && x < |did| && Fits(rdevs[x], x)
      && forall q: nat :: q in rdevs[x].nextdev <==> topo.IsSwitch(x) && Child(x, q)
    }

    /** A device that the walk entered through the link behind port `q` of `x`. */
    ghost predicate Child(x: nat, q: nat) {
      tree.Valid() && x in tree.rank && q != InPort(x) && Branch(x, q) != {}
    }

    /** The device next to this one on the way to the endpoint, if that is not the endpoint itself. */
    ghost function Previous(x: nat): Option<nat> {
      if End(self, 0) in topo.links && x == topo.FirstHop(self).dev then None
      else if End(x, InPort(x)) in topo.links then Some(topo.links[End(x, InPort(x))].dev)
      else None
    }

    /** What a found device adds to the neighbours of the switch that led to it. */
    ghost function NextAfter(x: nat, q: nat, nextdev: map<nat, nat>): map<nat, nat> {
      if Child(x, q) && End(x, q) in topo.links then nextdev[q := topo.links[End(x, q)].dev] else nextdev
    }

    lemma {:induction false} AddedTwice(a: map<nat, RioDev>, b: map<nat, RioDev>, e: map<nat, RioDev>, p: set<nat>,
          q: set<nat>, d: nat)
      requires Added(a, b, p, Some(d)) && Added(b, e, q, Some(d)) && d in a
      ensures Added(a, e, p + q, Some(d))
    {
    }

    lemma {:induction false} AddedNone(a: map<nat, RioDev>, d: nat)
      ensures Added(a, a, {}, Some(d))
    {
    }

    // ----- locks after the walk

    /** The port on which packets of this endpoint arrive at a device: the one towards the endpoint. */
    ghost function InPort(x: nat): nat {
      if tree.Valid() && self in tree.rank && x in tree.rank && x != self then tree.Dir(x, self) else 0
    }

    /** An active port that the loop over the ports of a switch does not skip. */
    ghost predicate Tried(x: nat, q: nat) {
      End(x, q) in topo.links && q != InPort(x)
    }

    /** No ID below the reserved one is routed to the port. */
    ghost predicate Unrouted(x: nat, q: nat) {
      x < |tables| && forall id: nat :: id < anyId && id in tables[x] ==> tables[x][id] != q
    }

    /** Of the ports below `n`, one without routes is tried, and none with routes after it. */
    ghost predicate LeftLocked(x: nat, n: nat) {
      exists q: nat :: q < n && Tried(x, q) && Unrouted(x, q) && RestUnrouted(x, q, n)
    }

    ghost predicate RestUnrouted(x: nat, q: nat, n: nat) {
      forall r: nat :: q < r < n && Tried(x, r) ==> Unrouted(x, r)
    }

    ghost predicate AnyTried(x: nat, n: nat) {
      exists q: nat :: q < n && Tried(x, q)
    }

    /** The lock of a switch after its ports below `n`. */
    ghost function LockAfter(x: nat, n: nat, was: nat): nat {
      if LeftLocked(x, n) then ownId else if AnyTried(x, n) then FREE else was
    }

    /** The lock of a device after the walk. */
    ghost function LockIn(x: nat, was: nat): nat {
      if topo.IsSwitch(x) then LockAfter(x, topo.kinds[x].ports, was) else was
    }

    /** Locks outside `region`, but for that of `d`, are as before, and those inside are as the walk
        leaves them. */
    ghost predicate LocksKept(before: seq<nat>, after: seq<nat>, region: set<nat>, d: Option<nat>) {
      && |after| == |before|
      && (forall x: nat :: x < |after| && x !in region && d != Some(x) ==> after[x] == before[x])
      && (forall x <- region :: x < |before| && after[x] == LockIn(x, before[x]))
    }

    ghost predicate Lockable(locks: seq<nat>, x: nat) {
      x < |locks| && (locks[x] == FREE || locks[x] == ownId)
    }

    lemma {:induction false} NoPortYet(x: nat, was: nat)
      ensures LockAfter(x, 0, was) == was
    {
    }

    lemma {:induction false} NextPort(x: nat, n: nat, was: nat)
      ensures LockAfter(x, n + 1, was)
           == if !Tried(x, n) then LockAfter(x, n, was) else if Unrouted(x, n) then ownId else FREE
    {
      hide Tried, Unrouted;
      if Tried(x, n) {
        if Unrouted(x, n) { assert RestUnrouted(x, n, n + 1); }
      } else {
        forall q: nat | q < n ensures RestUnrouted(x, q, n + 1) <==> RestUnrouted(x, q, n) {
        }
      }
    }

    lemma {:induction false} LocksTwice(a: seq<nat>, b: seq<nat>, e: seq<nat>, p: set<nat>, q: set<nat>, d: nat)
      requires LocksKept(a, b, p, Some(d)) && LocksKept(b, e, q, Some(d)) && p !! q && d !in p && d !in q
      ensures LocksKept(a, e, p + q, Some(d)) && |a| == |e|
    {
      hide LockIn;
    }

    /** The lock of `d` apart, nothing changed. */
    lemma {:induction false} LocksAlone(a: seq<nat>, b: seq<nat>, d: nat)
      requires d < |a| == |b| && b == a[d := b[d]]
      ensures LocksKept(a, b, {}, Some(d))
    {
    }

    /** With the lock of `d` as the walk leaves it. */
    lemma {:induction false} LocksWith(a: seq<nat>, b: seq<nat>, p: set<nat>, d: nat)
      requires LocksKept(a, b, p, Some(d)) && d < |a| == |b| && b[d] == LockIn(d, a[d])
      ensures LocksKept(a, b, p + {d}, None)
    {
      hide LockIn;
    }

    /** A region without `d` leaves its lock alone. */
    lemma {:induction false} LocksApart(a: seq<nat>, b: seq<nat>, p: set<nat>, d: nat)
      requires LocksKept(a, b, p, None) && d !in p && d < |a|
      ensures LocksKept(a, b, p, Some(d)) && |b| == |a| && b[d] == a[d]
    {
      hide LockIn;
    }

    /** The devices that `d` reaches through port `q`. */
    ghost function Branch(d: nat, q: nat): set<nat>
      requires tree.Valid() && d in tree.rank
    {
      set x | x in tree.rank && x != d && tree.Dir(d, x) == q
    }

    /** The device at the far end of the endpoint's own link has been found. */
    ghost predicate Started()
      reads this`rdev
    {
      End(self, 0) in topo.links && topo.FirstHop(self).dev in rdev
    }

    /** `rio_disc_peer`.  Discovers everything beyond the link whose far end is `at`, each device
        once, and leaves the lock of each as its ports tell, and no other lock changed. */
    method DiscPeer(destid: nat, hop: nat, prev: Option<nat>, prevPort: nat, ghost trail: seq<End>, ghost at: End)
      requires Frontier(trail, at) && Comes(destid, trail) && |trail| == hop + 1
      requires prev.Some? ==>
                 && prev.value in rdev && End(prev.value, prevPort) in topo.links
                 && topo.links[End(prev.value, prevPort)] == at && Started()
                 && prev.value < |tables| && destid < anyId && LeastRoute(prev.value, prevPort, destid)
      requires prev.None? ==> End(self, 0) in topo.links && at == topo.FirstHop(self) && destid == anyId
      modifies this`lock, this`rdev, this`devices, this`switches, this`way
      ensures Listed() && tree.Valid() && at.dev in tree.rank
      ensures Added(old(rdev), rdev, Side(tree, at), prev) && LocksKept(old(lock), lock, Side(tree, at), None)
      ensures prev.Some? ==>
                prev.value in rdev && rdev[prev.value].nextdev == old(rdev)[prev.value].nextdev[prevPort := at.dev]
      ensures Started()
      decreases Side(tree, at), 2
    {
      hide World, Added, LocksKept, Listed, Comes, InSide, Linked, Fits, LockAfter, InPort;
      FrontierFacts(trail, at);
      ghost var before, locks := rdev, lock;
      var d := SetUpDevice(destid, hop, prev, trail);
      ghost var rec := rdev[d];
      assert Fits(rec, d) by { RecordFits(before, destid, hop, prev, prevPort, at, rec, d); }
      LinkNext(prev, prevPort, d);
      ghost var r0 := rdev;
      LinkedFacts(before, prev, prevPort, d, r0, rec);
      if topo.IsSwitch(d) {
        NewBeyond(before, r0, prev, at, locks);
        DiscPorts(d, destid, hop, trail, at);
        PartAll(at);
        AddedAfter(before, r0, rdev, Part(at, topo.kinds[d].ports), prev, prevPort, d, rec);
        LocksWith(locks, lock, Part(at, topo.kinds[d].ports), d);
      } else {
        PartNone(at);
        AddedNone(r0, d);
        AddedAfter(before, r0, rdev, {}, prev, prevPort, d, rec);
        LocksAlone(locks, lock, d);
        LocksWith(locks, lock, {}, d);
        assert {} + {d} == {d};
      }
    }

    /** The loop over the ports of a switch. */
    method DiscPorts(d: nat, destid: nat, hop: nat, ghost trail: seq<End>, ghost at: End)
      requires World() && Listed() && Comes(destid, trail) && |trail| == hop + 1 && trail[hop] == at && at.dev == d
      requires tree.Valid() && d in tree.rank && topo.IsSwitch(d) && d in rdev && rdev[d].inport == at.port == InPort(d)
      requires d != self && Started() && rdev[d].nextdev == map[]
      requires topo.kinds[d].ports <= INVALID_ROUTE && Lockable(lock, d)
      requires forall id <- home :: home[id] in tree.rank && (InSide(tree, at, home[id]) ==> Comes(id, trail))
      requires forall x <- Side(tree, at) :: x != d ==> x !in rdev && Lockable(lock, x)
      modifies this`lock, this`rdev, this`devices, this`switches, this`way
      ensures Listed() && Added(old(rdev), rdev, Part(at, topo.kinds[d].ports), Some(d))
      ensures LocksKept(old(lock), lock, Part(at, topo.kinds[d].ports), Some(d)) && d < |lock| == |old(lock)|
      ensures lock[d] == LockAfter(d, topo.kinds[d].ports, old(lock)[d])
      ensures Started() && d in rdev && forall p: nat :: p in rdev[d].nextdev <==> Child(d, p)
      decreases Side(tree, at), 1
    {
      hide World, Added, LocksKept, Listed, Comes, InSide, LockAfter, Tried, Unrouted, InPort, Child, NextAfter;
      ghost var r0, locks := rdev, lock;
      AddedNone(r0, d);
      LocksAlone(locks, lock, d);
      NoPart(at);
      NoPortYet(d, locks[d]);
      for q := 0 to topo.kinds[d].ports
        invariant Listed() && d in rdev && Added(r0, rdev, Part(at, q), Some(d))
        invariant LocksKept(locks, lock, Part(at, q), Some(d)) && d < |lock| == |locks|
        invariant lock[d] == LockAfter(d, q, locks[d])
        invariant Lockable(lock, d)
        invariant Started() && forall p: nat :: p in rdev[d].nextdev <==> p < q && Child(d, p)
      {
        PartStep(at, q);
        AddedField(r0, rdev, Part(at, q), d);
        NextPort(d, q, locks[d]);
        SkipsArrival(d, q);
        ChildLinked(d, q);
        NextChild(d, q, rdev[d].nextdev);
        if rdev[d].inport != q {
          BranchNew(r0, rdev, locks, lock, at, q);
          ghost var mid, midLock := rdev, lock;
          DiscPort(d, q, destid, hop, trail, at);
          AddedTwice(r0, mid, rdev, Part(at, q), Branch(d, q), d);
          LocksTwice(locks, midLock, lock, Part(at, q), Branch(d, q), d);
          AddedField(r0, rdev, Part(at, q + 1), d);
        }
      }
      ChildPorts(d);
    }

    lemma {:induction false} ChildLinked(d: nat, q: nat)
      requires World() && tree.Valid() && d in tree.rank
      ensures Child(d, q) ==> End(d, q) in topo.links
    {
      hide World, Tree.Valid, InPort, Branch;
      if End(d, q) !in topo.links { NoLinkNoBranch(d, q); }
    }

    lemma {:induction false} NextChild(d: nat, q: nat, nextdev: map<nat, nat>)
      requires Child(d, q) ==> End(d, q) in topo.links
      ensures forall p: nat :: p in NextAfter(d, q, nextdev) <==> p in nextdev || (p == q && Child(d, q))
      ensures q == InPort(d) ==> !Child(d, q)
    {
      hide Branch;
    }

    /** Children hang from ports that the switch has. */
    lemma {:induction false} ChildPorts(d: nat)
      requires World() && topo.IsSwitch(d) && d in tree.rank
      ensures forall p: nat :: Child(d, p) ==> p < topo.kinds[d].ports
    {
      hide Sound, Full, Inhabited, Tree.Valid, InPort;
      forall p: nat | Child(d, p) ensures p < topo.kinds[d].ports {
        var x :| x in Branch(d, p);
        LinkThere(topo, tree, d, x);
        assert topo.OnDevice(End(d, p));
      }
    }

    lemma {:induction false} SkipsArrival(d: nat, q: nat)
      ensures Tried(d, q) <==> End(d, q) in topo.links && q != InPort(d)
    {
    }

    /** Nothing behind the next port is known yet. */
    lemma {:induction false} BranchNew(r0: map<nat, RioDev>, r: map<nat, RioDev>, locks: seq<nat>, now: seq<nat>,
          at: End, q: nat)
      requires tree.Valid() && at.dev in tree.rank && at.dev in r0 && q != at.port
      requires Added(r0, r, Part(at, q), Some(at.dev)) && LocksKept(locks, now, Part(at, q), Some(at.dev))
      requires forall x <- Side(tree, at) :: x != at.dev ==> x !in r0 && Lockable(locks, x)
      ensures forall x <- Branch(at.dev, q) :: x !in r && Lockable(now, x)
    {
      hide Tree.Valid, LockIn, Read;
      forall x <- Branch(at.dev, q) ensures x !in r && Lockable(now, x) {
        assert x in Side(tree, at) && x !in Part(at, q);
      }
    }

    lemma {:induction false} NewBeyond(before: map<nat, RioDev>, r0: map<nat, RioDev>, prev: Option<nat>, at: End,
          locks: seq<nat>)
      requires tree.Valid() && at.dev in tree.rank && forall x: nat :: x in r0 <==> x in before || x == at.dev
      requires forall x <- tree.rank :: InSide(tree, at, x) ==> x !in before && Lockable(locks, x)
      ensures forall x <- Side(tree, at) :: x != at.dev ==> x !in r0 && Lockable(locks, x)
    {
      hide InSide;
    }

    lemma {:induction false} RecordFits(before: map<nat, RioDev>, destid: nat, hop: nat, prev: Option<nat>, q: nat,
          at: End, rec: RioDev, d: nat)
      requires d < |tag| && d < |did| && d !in before && at in topo.links && End(self, 0) in topo.links
      requires prev.Some? ==> topo.links[at] == End(prev.value, q) && topo.FirstHop(self).dev in before
      requires prev.Some? ==> prev.value < |tables| && destid < anyId && LeastRoute(prev.value, q, destid)
      requires prev.None? ==> at == topo.FirstHop(self) && destid == anyId
      requires d == at.dev && at.port == InPort(d) && rec == NewRecord(destid, hop, prev, at)
      ensures Fits(rec, d)
    {
    }

    /** The device itself, then everything behind it. */
    lemma {:induction false} AddedAfter(a: map<nat, RioDev>, b: map<nat, RioDev>, e: map<nat, RioDev>, p: set<nat>,
          prev: Option<nat>, q: nat, d: nat, rec: RioDev)
      requires d !in a && (prev.Some? ==> prev.value in a) && b == Linked(a[d := rec], prev, q, d)
      requires Added(b, e, p, Some(d)) && d < |tag| && d < |did| && Fits(rec, d) && d in e
      requires forall k: nat :: k in e[d].nextdev <==> topo.IsSwitch(d) && Child(d, k)
      ensures Added(a, e, {d} + p, prev)
      ensures prev.Some? ==> prev.value in e && e[prev.value].nextdev == a[prev.value].nextdev[q := d]
    {
      hide Child, Previous, InPort;
      assert Read(e, d);
    }

    /** The devices in the directions of the ports below `q`, but for the arrival port. */
    ghost function Part(at: End, q: nat): set<nat>
      requires tree.Valid() && at.dev in tree.rank
    {
      set x | x in tree.rank && x != at.dev && tree.Dir(at.dev, x) != at.port && tree.Dir(at.dev, x) < q
    }

    lemma {:induction false} PartStep(at: End, q: nat)
      requires tree.Valid() && at.dev in tree.rank
      ensures Part(at, q + 1) == if q == at.port then Part(at, q) else Part(at, q) + Branch(at.dev, q)
      ensures Part(at, q) !! Branch(at.dev, q)
    {
    }

    lemma {:induction false} NoPart(at: End)
      requires tree.Valid() && at.dev in tree.rank
      ensures Part(at, 0) == {} && Part(at, 0) + {at.dev} == {at.dev}
    {
    }

    lemma {:induction false} PartAll(at: End)
      requires World() && tree.Valid() && at.dev in tree.rank && topo.IsSwitch(at.dev)
      ensures Side(tree, at) == {at.dev} + Part(at, topo.kinds[at.dev].ports)
      ensures Side(tree, at) == Part(at, topo.kinds[at.dev].ports) + {at.dev}
    {
      hide Sound, Full, Inhabited, Tree.Valid;
      forall x <- tree.rank | x != at.dev ensures tree.Dir(at.dev, x) < topo.kinds[at.dev].ports {
        LinkThere(topo, tree, at.dev, x);
        assert topo.OnDevice(End(at.dev, tree.Dir(at.dev, x)));
      }
    }

    lemma {:induction false} PartNone(at: End)
      requires World() && tree.Valid() && at.dev in tree.rank && !topo.IsSwitch(at.dev) && at in topo.links
      ensures Side(tree, at) == {at.dev} == {at.dev} + {}
    {
      hide Sound, Full, Inhabited, Tree.Valid;
      assert topo.OnDevice(at);
      forall x <- tree.rank | x != at.dev ensures tree.Dir(at.dev, x) == at.port {
        LinkThere(topo, tree, at.dev, x);
        assert topo.OnDevice(End(at.dev, tree.Dir(at.dev, x)));
      }
    }

    lemma {:induction false} FrontierFacts(trail: seq<End>, at: End)
      requires Frontier(trail, at)
      ensures World() && tree.Valid() && at.dev in tree.rank && at.dev !in rdev && Lockable(lock, at.dev)
      ensures at.dev < |lock|
      ensures at.dev < |tag| == |did| && at in topo.links && ownId != FREE && at.dev != self
      ensures at.port == InPort(at.dev)
      ensures topo.IsSwitch(at.dev) ==> topo.kinds[at.dev].ports <= INVALID_ROUTE
      ensures forall id <- home :: home[id] in tree.rank
      ensures forall e <- topo.links :: topo.links[e] == at ==> topo.links[at] == e
    {
      hide Sound, Full, Inhabited;
      assert InSide(tree, at, at.dev);
      assert at.dev != tree.root ==> Attached(topo, tree, at.dev);
    }

    lemma {:induction false} LinkedFacts(before: map<nat, RioDev>, prev: Option<nat>, q: nat, d: nat, r0: map<nat,
          RioDev>, rec: RioDev)
      requires d !in before && (prev.Some? ==> prev.value in before)
      requires r0 == Linked(before[d := rec], prev, q, d)
      ensures (forall x: nat :: x in r0 <==> x in before || x == d) && r0[d] == rec && prev != Some(d)
    {
    }

    ghost predicate Fits(rec: RioDev, d: nat)
      requires d < |tag| && d < |did|
    {
      && rec.compTag == tag[d] && rec.inport == InPort(d) && (!topo.IsSwitch(d) ==> rec.destid == did[d])
      && rec.prev == Previous(d) && (if topo.IsSwitch(d) then ReachedBy(d, rec.destid) else rec.hopcount == 0xff)
    }

    /** The ID on record for a switch: the least one below the reserved one that the previous switch routes to it, or
        the reserved one if there is no previous switch. */
    ghost predicate ReachedBy(x: nat, id: nat) {
      if Previous(x).None? then id == anyId
      else End(x, InPort(x)) in topo.links
           && var e := topo.links[End(x, InPort(x))]; e.dev < |tables| && id < anyId && LeastRoute(e.dev, e.port, id)
    }

    ghost predicate LeastRoute(x: nat, q: nat, id: nat)
      requires x < |tables|
    {
      id in tables[x] && tables[x][id] == q && forall k: nat :: k < id && k in tables[x] ==> tables[x][k] != q
    }

    lemma {:induction false} AddedField(a: map<nat, RioDev>, b: map<nat, RioDev>, p: set<nat>, d: nat)
      requires Added(a, b, p, Some(d)) && d in a
      ensures d in b && b[d].inport == a[d].inport
    {
    }

    /** One round of the loop over the ports of a switch.  A port with routes leaves the switch unlocked,
        an active one without leaves it locked. */
    method DiscPort(d: nat, q: nat, destid: nat, hop: nat, ghost trail: seq<End>, ghost at: End)
      requires World() && Listed() && Comes(destid, trail) && |trail| == hop + 1 && trail[hop] == at && at.dev == d
      requires tree.Valid() && d in tree.rank && topo.IsSwitch(d) && d in rdev && q != at.port && q < INVALID_ROUTE
      requires at.port == InPort(d) && d != self && Started()
      requires forall id <- home :: home[id] in tree.rank && (InSide(tree, at, home[id]) ==> Comes(id, trail))
      requires Lockable(lock, d) && forall x <- Branch(d, q) :: x !in rdev && Lockable(lock, x)
      modifies this`lock, this`rdev, this`devices, this`switches, this`way
      ensures Listed() && Added(old(rdev), rdev, Branch(d, q), Some(d))
      ensures LocksKept(old(lock), lock, Branch(d, q), Some(d)) && d < |lock| == |old(lock)|
      ensures lock[d] == if End(d, q) !in topo.links then old(lock)[d] else if Unrouted(d, q) then ownId else FREE
      ensures Started() && d in rdev && rdev[d].nextdev == NextAfter(d, q, old(rdev)[d].nextdev)
      decreases Side(tree, at), 0
    {
      hide World, Added, LocksKept, Listed, Comes, InSide, InPort, LockAfter;
      ghost var locks := lock;
      LocksAlone(locks, lock, d);
      AddedNone(rdev, d);
      WorldFacts(d);
      var active := PortActive(destid, hop, q, trail);
      if active {
        var rc := LockDevice(destid, hop, 1000, trail);
        var ndestid := FindRoute(destid, hop, q, trail);
        if ndestid < anyId {
          rc := UnlockDevice(destid, hop, trail);
          LocksAlone(locks, lock, d);
          ghost var next := topo.links[End(d, q)];
          CrossPort(d, q, ndestid, hop, trail, at);
          ghost var mid := lock;
          DiscPeer(ndestid, hop + 1, Some(d), q, trail + [next], next);
          LocksApart(mid, lock, Branch(d, q), d);
          LocksTwice(locks, mid, lock, {}, Branch(d, q), d);
          assert {} + Branch(d, q) == Branch(d, q);
          BranchThere(d, q, next);
        } else {
          LocksAlone(locks, lock, d);
          NoRouteNoBranch(d, q);
        }
      } else {
        NoLinkNoBranch(d, q);
      }
    }

    lemma {:induction false} WorldFacts(d: nat)
      requires World() && d in tree.rank && tree.Valid()
      ensures d < |tables| == |topo.kinds| && ownId != FREE
    {
    }

    lemma {:induction false} NoLinkNoBranch(d: nat, q: nat)
      requires World() && tree.Valid() && d in tree.rank && End(d, q) !in topo.links
      ensures Branch(d, q) == {}
    {
      hide Spans, Sound, Full, Inhabited;
      forall x <- tree.rank | x != d && tree.Dir(d, x) == q ensures false {
        LinkThere(topo, tree, d, x);
      }
    }

    /** A port that no ID is routed to, as on a redundant link, has no branch behind it. */
    lemma {:induction false} NoRouteNoBranch(d: nat, q: nat)
      requires World() && tree.Valid() && d in tree.rank && topo.IsSwitch(d) && d < |tables|
      requires forall k: nat :: k < anyId && k in tables[d] ==> tables[d][k] != q
      ensures Branch(d, q) == {}
    {
      hide Spans, Sound, Full, Inhabited;
      forall x <- tree.rank | x != d && tree.Dir(d, x) == q ensures false {
        BranchHasId(topo, tree, tables, home, anyId, d, x);
      }
    }

    method PortActive(id: nat, hops: nat, port: nat, ghost trail: seq<End>) returns (active: bool)
      requires Comes(id, trail) && |trail| == hops + 1
      ensures active <==> End(trail[hops].dev, port) in topo.links
    {
      var at := Reach(id, hops, trail);
      active := End(at.dev, port) in topo.links;
    }

    lemma {:induction false} BranchThere(d: nat, q: nat, next: End)
      requires tree.Valid() && d in tree.rank && next.dev in tree.rank && Side(tree, next) == Branch(d, q)
      requires q != InPort(d)
      ensures Child(d, q)
    {
      assert next.dev in Side(tree, next);
    }

    /** Behind a port with a route lies a branch, and its IDs come through the port. */
    lemma {:induction false} CrossPort(d: nat, q: nat, ndestid: nat, hop: nat, trail: seq<End>, at: End)
      requires World() && Listed() && tree.Valid() && |trail| == hop + 1 && trail[hop] == at && at.dev == d
      requires d in tree.rank && topo.IsSwitch(d)
      requires q != at.port && ndestid < anyId && d < |tables| && ndestid in tables[d] && tables[d][ndestid] == q
      requires forall id <- home :: InSide(tree, at, home[id]) ==> Comes(id, trail)
      requires forall x <- Branch(d, q) :: x !in rdev && Lockable(lock, x)
      requires at.port == InPort(d) && d != self
      ensures End(d, q) in topo.links
      ensures var next := topo.links[End(d, q)];
              && Frontier(trail + [next], next) && Comes(ndestid, trail + [next]) && Side(tree, next) == Branch(d, q)
      ensures Branch(d, q) < Side(tree, at)
    {
      hide World, Listed, Spans, Sound, Full, InSide, Comes, Frontier, Lockable, Leads;
      RouteHome(d, ndestid);
      BranchBeyond(d, q, home[ndestid], at);
      var next := topo.links[End(d, q)];
      forall id <- home | home[id] in Side(tree, next) ensures Comes(id, trail + [next]) {
        ComesThrough(d, q, id, hop, trail, at);
      }
      SelfElsewhere(d, q);
      MakeFrontier(trail + [next], next);
    }

    lemma {:induction false} SelfElsewhere(d: nat, q: nat)
      requires World() && tree.Valid() && d in tree.rank && d != self && q != InPort(d)
      ensures self !in Branch(d, q) && self in tree.rank
    {
      hide Routed;
    }

    lemma {:induction false} RouteHome(d: nat, id: nat)
      requires World() && d in tree.rank && topo.IsSwitch(d) && id < anyId && d < |tables| && id in tables[d]
      ensures tree.Valid() && id in home && home[id] in tree.rank && home[id] != d
      ensures tables[d][id] == tree.Dir(d, home[id])
      ensures forall k <- home :: home[k] in tree.rank
    {
      hide Spans, Sound, Full, Inhabited;
      RouteFacts(topo, tree, tables, home, anyId, d, id);
    }

    lemma {:induction false} MakeFrontier(trail: seq<End>, at: End)
      requires World() && Listed() && trail != [] && trail[|trail| - 1] == at && tree.Valid() && at.dev in tree.rank
      requires at in topo.links
      requires forall id <- home :: home[id] in Side(tree, at) ==> Comes(id, trail)
      requires forall x <- Side(tree, at) :: x !in rdev && Lockable(lock, x)
      requires self in tree.rank && self !in Side(tree, at)
      ensures Frontier(trail, at)
    {
    }

    lemma {:induction false} BranchBeyond(d: nat, q: nat, y: nat, at: End)
      requires World() && tree.Valid() && d in tree.rank && y in tree.rank && y != d && tree.Dir(d, y) == q
      requires at.dev == d && q != at.port
      ensures End(d, q) in topo.links && topo.links[End(d, q)].dev in tree.rank && topo.links[End(d, q)] in topo.links
      ensures Side(tree, topo.links[End(d, q)]) == Branch(d, q) < Side(tree, at) && y in Branch(d, q)
    {
      hide Routed, Spans, Tree.Valid, Tree.Dir;
      assert Spans(topo, tree) by { SpansWorld(); }
      BeyondIsBranch(d, q, y);
      assert d in Side(tree, at) && d !in Branch(d, q);
    }

    lemma {:induction false} SpansWorld()
      requires World()
      ensures Spans(topo, tree) && self in tree.rank
    {
      hide Spans, Sound, Full, Inhabited;
    }

    lemma {:induction false} BeyondIsBranch(d: nat, q: nat, y: nat)
      requires Spans(topo, tree) && tree.Valid() && d in tree.rank && y in tree.rank && y != d && tree.Dir(d, y) == q
      ensures End(d, q) in topo.links && topo.links[End(d, q)].dev in tree.rank && topo.links[End(d, q)] in topo.links
      ensures Side(tree, topo.links[End(d, q)]) == Branch(d, q) && y in Branch(d, q)
    {
      hide Tree.Valid, Tree.Dir, Attached, InSide;
      SideBeyond(topo, tree, d, q, y, y);
      forall x <- tree.rank ensures InSide(tree, topo.links[End(d, q)], x) <==> x in Branch(d, q) {
        SideBeyond(topo, tree, d, q, y, x);
      }
    }

    lemma {:induction false} ComesThrough(d: nat, q: nat, id: nat, hop: nat, trail: seq<End>, at: End)
      requires World() && |trail| == hop + 1 && trail[hop] == at && at.dev == d && d in tree.rank && topo.IsSwitch(d)
      requires End(d, q) in topo.links && q != at.port && id in home && home[id] in Branch(d, q)
      requires tree.Valid() && home[id] in tree.rank && (InSide(tree, at, home[id]) ==> Comes(id, trail))
      ensures Comes(id, trail + [topo.links[End(d, q)]])
    {
      hide Spans;
      assert Leads(topo, tree, tables, home, d, id);
      TrailSnoc(topo, tables, id, trail, topo.links[End(d, q)]);
    }

    constructor (topo: Topology, tables: Tables, tag: seq<nat>, did: seq<nat>, lock: seq<nat>, anyId: nat, self: nat,
                 ghost tree: Tree, ghost home: map<nat, nat>)
      requires self < |did|
      ensures this.topo == topo && this.tables == tables && this.tag == tag && this.did == did && this.lock == lock
      ensures this.anyId == anyId && this.self == self && this.ownId == did[self] && this.tree == tree
      ensures this.home == home
      ensures rdev == map[] && devices == [] && switches == []
    {
      this.topo, this.tables, this.tag, this.did, this.lock := topo, tables, tag, did, lock;
      this.anyId, this.self, this.ownId, this.tree, this.home := anyId, self, did[self], tree, home;
      rdev, devices, switches, way := map[], [], [], map[];
    }

    /** `rio_build_route_tables`: copies the route tables of all switches into their records. */
    method BuildRouteTables()
      requires World() && Listed() && forall x <- switches :: Lockable(lock, x) && x < |tables|
      modifies this`lock, this`rdev
      ensures Listed() && |lock| == |old(lock)| && RoutesOnly(old(rdev), rdev)
      ensures forall x: nat :: x < |lock| ==> lock[x] == if x in switches then FREE else old(lock)[x]
      ensures forall x <- switches :: Copied(rdev, x)
    {
      hide World, Lists, RoutesOnly, SameEntry;
      OwnIdSet();
      SameRoutes(rdev);
      for k := 0 to |switches|
        invariant Listed() && |lock| == |old(lock)| && RoutesOnly(old(rdev), rdev)
        invariant forall x <- switches :: Lockable(lock, x)
        invariant forall x: nat :: x < |lock| && x !in switches ==> lock[x] == old(lock)[x]
        invariant forall j: nat :: j < k ==> FreeAt(lock, switches[j]) && Copied(rdev, switches[j])
      {
        var d := switches[k];
        assert d in switches;
        SwitchListed(d);
        ghost var was := rdev;
        BuildRouteTable(d);
        RoutesTwice(old(rdev), was, rdev, d);
      }
    }

    lemma {:induction false} SwitchListed(d: nat)
      requires Listed() && d in switches
      ensures d in rdev
    {
      hide Addressable, Named;
    }

    lemma {:induction false} OwnIdSet()
      requires World()
      ensures ownId != FREE && End(self, 0) in topo.links
    {
      hide Routed;
    }

    method BuildRouteTable(d: nat)
      requires Listed() && d in switches && d in rdev && Lockable(lock, d) && d < |tables| && ownId != FREE
      modifies this`lock, this`rdev
      ensures Listed() && d in rdev && rdev == old(rdev)[d := old(rdev)[d].(route := rdev[d].route)] && Copied(rdev, d)
      ensures lock == old(lock)[d := FREE]
    {
      hide Lists, Comes, Named;
      ListFacts(d);
      var rc := LockDevice(rdev[d].destid, rdev[d].hopcount, 1000, way[d]);
      for i := 0 to anyId + 1
        invariant lock == old(lock)[d := ownId]
        invariant Listed() && d in rdev && rdev == old(rdev)[d := old(rdev)[d].(route := rdev[d].route)]
        invariant forall k: nat :: k < i ==> SameEntry(rdev[d].route, k, d)
      {
        CopyRoute(d, i);
      }
      ListFacts(d);
      rc := UnlockDevice(rdev[d].destid, rdev[d].hopcount, way[d]);
    }

    method CopyRoute(d: nat, i: nat)
      requires Listed() && d in switches && d in rdev && d < |tables|
      modifies this`rdev
      ensures Listed() && d in rdev && rdev == old(rdev)[d := old(rdev)[d].(route := rdev[d].route)]
      ensures SameEntry(rdev[d].route, i, d)
      ensures forall k: nat :: k != i && SameEntry(old(rdev)[d].route, k, d) ==> SameEntry(rdev[d].route, k, d)
    {
      hide Lists, Comes;
      ListFacts(d);
      var sport := RouteGet(rdev[d].destid, rdev[d].hopcount, i, way[d]);
      var rec := rdev[d].(route := SetRoute(rdev[d].route, i, sport));
      ListsChange(devices, switches, rdev, way, d, rec);
      rdev := rdev[d := rec];
    }

    lemma {:induction false} SameRoutes(a: map<nat, RioDev>)
      ensures RoutesOnly(a, a)
    {
    }

    lemma {:induction false} RoutesTwice(a: map<nat, RioDev>, b: map<nat, RioDev>, e: map<nat, RioDev>, d: nat)
      requires RoutesOnly(a, b) && d in b && d in e && e == b[d := b[d].(route := e[d].route)]
      ensures RoutesOnly(a, e)
    {
    }

    ghost predicate FreeAt(locks: seq<nat>, x: nat) {
      x < |locks| && locks[x] == FREE
    }

    /** Stores a port in a switch's copy of its table; RIO_INVALID_ROUTE stands for no entry. */
    function SetRoute(route: Table, id: nat, port: nat): Table {
      if port == INVALID_ROUTE then route - {id} else Put(route, id, port)
    }

    ghost predicate SameEntry(route: Table, id: nat, d: nat)
      requires d < |tables|
    {
      if id in tables[d] && tables[d][id] != INVALID_ROUTE then id in route && route[id] == tables[d][id]
            else id !in route
    }

    /** The record of a switch holds its route table. */
    ghost predicate Copied(rdevs: map<nat, RioDev>, d: nat) {
      d in rdevs && d < |tables| && forall id: nat :: id <= anyId ==> SameEntry(rdevs[d].route, id, d)
    }

    ghost predicate RoutesOnly(before: map<nat, RioDev>, after: map<nat, RioDev>) {
      && (forall x: nat :: x in after <==> x in before)
      && (forall x <- after :: after[x] == before[x].(route := after[x].route))
    }

    /** `rio_disc_mport` after the enumerator set the flag: the agent ends with exactly one record
        of every other device, and with all locks free.  Before it copies the route tables, the locks
        are as in `walked`: a switch is left locked exactly if a port without routes is the last one that
        the walk tried. */
    method DiscMport() returns (ghost walked: seq<nat>)
      requires World() && self != tree.root && !topo.IsSwitch(self)
      requires |lock| == |topo.kinds| && (forall d: nat :: d < |lock| ==> lock[d] == FREE)
      requires rdev == map[] && devices == [] && switches == []
      modifies this`lock, this`rdev, this`devices, this`switches, this`way
      ensures Listed() && (forall x: nat :: x in devices <==> x in tree.rank && x != self)
      ensures |walked| == |topo.kinds|
      ensures forall d: nat :: d < |walked| ==> walked[d] == if StaysLocked(d) then ownId else FREE
      ensures |lock| == |topo.kinds| && (forall d: nat :: d < |lock| ==> lock[d] == FREE)
      ensures forall x <- devices :: Read(rdev, x)
      ensures AllNeighbours()
      ensures forall x <- switches :: Copied(rdev, x)
    {
      hide World, Comes, Added, LocksKept, InSide, Named, LeftLocked, Read, RoutesOnly, AllNeighbours;
      StartFrontier();
      ghost var at := topo.FirstHop(self);
      DiscPeer(anyId, 0, None, 0, [at], at);
      ghost var found := rdev;
      AllFound(old(lock), Side(tree, at));
      walked := lock;
      OwnIdSet();
      BuildRouteTables();
      AllComplete(found);
    }

    lemma {:induction false} AllComplete(found: map<nat, RioDev>)
      requires World() && Listed() && self != tree.root && !topo.IsSwitch(self) && RoutesOnly(found, rdev)
      requires forall x: nat :: x in devices <==> x in tree.rank && x != self
      requires forall x <- devices :: Read(found, x)
      ensures AllNeighbours() && forall x <- devices :: Read(rdev, x)
    {
      hide World, Addressable, Named, Read, Neighbours, RoutesOnly;
      forall x <- devices ensures Read(rdev, x) && Neighbours(x) && rdev[x].inport == InPort(x) {
        ReadKept(found, rdev, x);
        NeighboursOf(x);
      }
    }

    /** The neighbours on record: towards the endpoint, the device at the other end of the link by which the walk
        arrived, or none if that is the endpoint itself; away from it, exactly the devices from which something
        is reached through the port, by port. */
    ghost predicate Neighbours(x: nat)
      reads this`rdev
    {
      && tree.Valid() && x in tree.rank && x in rdev
      && End(self, 0) in topo.links && End(x, rdev[x].inport) in topo.links
      && rdev[x].prev == (if x == topo.FirstHop(self).dev then None
                          else Some(topo.links[End(x, rdev[x].inport)].dev))
      && (forall q: nat :: q in rdev[x].nextdev <==> topo.IsSwitch(x) && q != rdev[x].inport && Branch(x, q) != {})
      && forall q <- rdev[x].nextdev :: End(x, q) in topo.links && rdev[x].nextdev[q] == topo.links[End(x, q)].dev
    }

    lemma {:induction false} NeighboursOf(x: nat)
      requires World() && Listed() && Read(rdev, x) && x in tree.rank && x != self
      ensures Neighbours(x) && rdev[x].inport == InPort(x)
    {
      hide World, Named, Lists, Child, ReachedBy, Branch;
      SpansWorld();
      OwnIdSet();
      ListFacts(x);
      TowardsSelf(x);
      assert forall q: nat :: Child(x, q) <==> q != InPort(x) && Branch(x, q) != {} by { ChildIs(x); }
    }

    /** The records of all devices but the endpoint itself are complete. */
    ghost predicate AllNeighbours()
      reads this`rdev
    {
      && self != tree.root && !topo.IsSwitch(self)
      && (forall y: nat :: y in rdev <==> y in tree.rank && y != self)
      && forall y <- rdev :: Neighbours(y) && rdev[y].inport == InPort(y)
    }

    /** The two sides of the records match: a port of a found device leads to a neighbour on record exactly if the
        device at the other end was entered by just that link, and that one's previous device is this one. */
    lemma {:induction false} NeighboursMatch(x: nat, q: nat)
      requires World() && AllNeighbours() && x in rdev && End(x, q) in topo.links
      ensures var e := topo.links[End(x, q)];
              && (q in rdev[x].nextdev <==> e.dev in rdev && rdev[e.dev].inport == e.port)
              && (q in rdev[x].nextdev ==> rdev[x].nextdev[q] == e.dev && rdev[e.dev].prev == Some(x))
    {
      hide Neighbours, World, AllNeighbours;
      var e := topo.links[End(x, q)];
      if q in rdev[x].nextdev {
        EnteredFrom(x, q);
      } else if e.dev in rdev && rdev[e.dev].inport == e.port {
        LeadsBack(x, q);
      }
    }

    lemma {:induction false} EnteredFrom(x: nat, q: nat)
      requires World() && AllNeighbours() && x in rdev && End(x, q) in topo.links && q in rdev[x].nextdev
      ensures var e := topo.links[End(x, q)];
              && e.dev in rdev && rdev[e.dev].inport == e.port
              && rdev[x].nextdev[q] == e.dev && rdev[e.dev].prev == Some(x)
    {
      hide Neighbours, World, InPort, Branch;
      NeighbourFacts(x);
      BranchEntered(x, q);
      PreviousIs(x, q);
    }

    lemma {:induction false} PreviousIs(x: nat, q: nat)
      requires World() && x != self && End(x, q) in topo.links && AllNeighbours()
      requires var e := topo.links[End(x, q)]; e.dev in rdev && rdev[e.dev].inport == e.port && Neighbours(e.dev)
      ensures rdev[topo.links[End(x, q)].dev].prev == Some(x)
    {
      hide World, Tree.Valid, Branch;
      Symmetric(x, q);
      FirstEntered();
    }

    /** The endpoint's neighbour was entered by the link to the endpoint. */
    lemma {:induction false} FirstEntered()
      requires World() && AllNeighbours()
      ensures End(self, 0) in topo.links
      ensures topo.FirstHop(self).dev != self && InPort(topo.FirstHop(self).dev) == topo.FirstHop(self).port
    {
      hide Tree.Valid, Tree.Dir, Routed;
      SpansWorld();
      SpansTree(topo, tree);
      SideOfEndpoint();
      Entered(topo.FirstHop(self), self);
    }

    /** Behind a port with a branch is a device that is entered from there. */
    lemma {:induction false} BranchEntered(x: nat, q: nat)
      requires World() && tree.Valid() && x in tree.rank && x != self && End(x, q) in topo.links
      requires q != InPort(x) && Branch(x, q) != {}
      ensures var e := topo.links[End(x, q)]; e.dev in tree.rank && e.dev != self && InPort(e.dev) == e.port
    {
      hide Tree.Valid, Tree.Dir, InSide, Routed;
      SpansWorld();
      var y :| y in Branch(x, q);
      SideBeyond(topo, tree, x, q, y, self);
      Entered(topo.links[End(x, q)], self);
    }

    lemma {:induction false} LeadsBack(x: nat, q: nat)
      requires World() && AllNeighbours() && x in rdev && End(x, q) in topo.links
      requires topo.links[End(x, q)].dev in rdev && rdev[topo.links[End(x, q)].dev].inport == topo.links[End(x, q)].port
      ensures q in rdev[x].nextdev
    {
      hide Neighbours, Tree.Valid, Tree.Dir, InSide, Routed;
      var e := topo.links[End(x, q)];
      NeighbourFacts(x);
      SpansWorld();
      Symmetric(x, q);
      NeighbourFacts(e.dev);
      SideBeyond(topo, tree, e.dev, e.port, self, self);
      SideBeyond(topo, tree, e.dev, e.port, self, e.dev);
      Entered(End(x, q), self);
      Entered(End(x, q), e.dev);
      OnlySwitches(x, q);
      assert e.dev in Branch(x, q);
    }

    lemma {:induction false} NeighbourFacts(x: nat)
      requires Neighbours(x)
      ensures tree.Valid() && x in tree.rank && End(self, 0) in topo.links && End(x, rdev[x].inport) in topo.links
      ensures rdev[x].prev == (if x == topo.FirstHop(self).dev then None
                               else Some(topo.links[End(x, rdev[x].inport)].dev))
      ensures forall q: nat :: q in rdev[x].nextdev <==> topo.IsSwitch(x) && q != rdev[x].inport && Branch(x, q) != {}
      ensures forall q <- rdev[x].nextdev :: End(x, q) in topo.links && rdev[x].nextdev[q] == topo.links[End(x, q)].dev
    {
    }

    lemma {:induction false} Entered(at: End, x: nat)
      requires tree.Valid() && at.dev in tree.rank && x in tree.rank
      ensures InSide(tree, at, x) <==> x == at.dev || tree.Dir(at.dev, x) != at.port
    {
    }

    lemma {:induction false} Symmetric(x: nat, q: nat)
      requires World() && End(x, q) in topo.links
      ensures topo.links[End(x, q)] in topo.links && topo.links[topo.links[End(x, q)]] == End(x, q)
      ensures End(self, 0) in topo.links && topo.links[topo.FirstHop(self)] == End(self, 0)
    {
      hide Sound, Full, Inhabited;
    }

    lemma {:induction false} OnlySwitches(x: nat, q: nat)
      requires World() && x in tree.rank && x != self && End(x, q) in topo.links && q != InPort(x)
      ensures topo.IsSwitch(x)
    {
      hide Sound, Full, Inhabited;
      TowardsSelf(x);
      assert topo.OnDevice(End(x, q)) && topo.OnDevice(End(x, InPort(x)));
    }

    lemma {:induction false} TowardsSelf(x: nat)
      requires World() && x in tree.rank && x != self
      ensures tree.Valid() && End(x, InPort(x)) in topo.links
    {
      hide Sound, Full, Inhabited;
      LinkThere(topo, tree, x, self);
    }

    lemma {:induction false} ChildIs(x: nat)
      requires tree.Valid() && x in tree.rank
      ensures forall q: nat :: Child(x, q) <==> q != InPort(x) && Branch(x, q) != {}
    {
      hide Tree.Valid, InPort;
    }

    lemma {:induction false} ReadKept(before: map<nat, RioDev>, after: map<nat, RioDev>, x: nat)
      requires Read(before, x) && RoutesOnly(before, after)
      ensures Read(after, x)
    {
    }

    /** The walk of this endpoint reaches the switch and leaves it locked. */
    ghost predicate StaysLocked(x: nat) {
      x in tree.rank && x != self && topo.IsSwitch(x) && LeftLocked(x, topo.kinds[x].ports)
    }

    lemma {:induction false} AllFound(before: seq<nat>, side: set<nat>)
      requires World() && tree.Valid() && Listed() && Added(map[], rdev, side, None)
      requires LocksKept(before, lock, side, None)
      requires forall d: nat :: d < |before| ==> before[d] == FREE
      requires forall x: nat :: x in side <==> x in tree.rank && x != self
      ensures |lock| == |before| && forall x: nat :: x < |lock| ==> lock[x] == if StaysLocked(x) then ownId else FREE
      ensures forall x <- switches :: Lockable(lock, x) && x < |tables| && x in rdev
      ensures forall x: nat :: x in devices <==> x in tree.rank && x != self
      ensures forall x <- devices :: Read(rdev, x)
      ensures forall x: nat :: x < |lock| && StaysLocked(x) ==> x in switches
    {
      hide Routed, Tree.Valid, Addressable, Named, Read, LeftLocked, AnyTried;
      forall x <- switches ensures Lockable(lock, x) && x < |tables| {
        WorldFacts(x);
      }
    }

    /** A port is without routes exactly if no device lies behind it on the tree, as on a redundant link;
        so a walk leaves all locks free exactly if on every switch the last active port, the arrival port
        apart, has a device behind it. */
    lemma {:induction false} UnroutedIs(d: nat, q: nat)
      requires World() && tree.Valid() && d in tree.rank && topo.IsSwitch(d)
      ensures Unrouted(d, q) <==> Branch(d, q) == {}
    {
      hide Routed, Tree.Valid, Tree.Dir;
      WorldFacts(d);
      if Unrouted(d, q) {
        NoRouteNoBranch(d, q);
      } else {
        var id: nat :| id < anyId && id in tables[d] && tables[d][id] == q;
        RouteHome(d, id);
        assert home[id] in Branch(d, q);
      }
    }

    lemma {:induction false} StartFrontier()
      requires World() && self != tree.root && !topo.IsSwitch(self)
      requires |lock| == |topo.kinds| && (forall d: nat :: d < |lock| ==> lock[d] == FREE)
      requires rdev == map[] && devices == [] && switches == []
      ensures tree.Valid() && End(self, 0) in topo.links && topo.FirstHop(self).dev in tree.rank
      ensures Frontier([topo.FirstHop(self)], topo.FirstHop(self)) && Comes(anyId, [topo.FirstHop(self)])
      ensures forall x: nat :: x in Side(tree, topo.FirstHop(self)) <==> x in tree.rank && x != self
    {
      hide World, InSide, Frontier, Listed, Comes, Tree.Valid;
      SpansWorld();
      SpansTree(topo, tree);
      SideOfEndpoint();
      FirstComes(anyId);
      EmptyLists();
      var at := topo.FirstHop(self);
      forall x <- Side(tree, at) ensures x !in rdev && Lockable(lock, x) {
        WorldFacts(x);
      }
      forall id <- home ensures Comes(id, [at]) {
        FirstComes(id);
      }
      MakeFrontier([at], at);
    }

    /** From its only port an endpoint sees everything else. */
    lemma {:induction false} SideOfEndpoint()
      requires World() && tree.Valid() && self in tree.rank && self != tree.root && !topo.IsSwitch(self)
      ensures End(self, 0) in topo.links && topo.FirstHop(self).dev in tree.rank && topo.FirstHop(self) in topo.links
      ensures forall x: nat :: x in Side(tree, topo.FirstHop(self)) <==> x in tree.rank && x != self
    {
      hide World, Tree.Valid, Tree.Dir, Tree.Anc;
      SelfAttached();
      SpansWorld();
      forall x <- tree.rank ensures InSide(tree, topo.FirstHop(self), x) <==> x != self {
        tree.DirFromParent(self, x);
        NothingBelow(x);
      }
    }

    lemma {:induction false} SelfAttached()
      requires World() && tree.Valid() && self in tree.rank && self != tree.root && !topo.IsSwitch(self)
      ensures End(self, 0) in topo.links && topo.FirstHop(self) in topo.links && topo.FirstHop(self).dev in tree.rank
      ensures self in tree.up && topo.FirstHop(self) == tree.up[self]
    {
      hide World;
      SpansWorld();
      assert End(self, 0) in topo.links by { OwnIdSet(); }
      EndpointUp(topo, tree, self);
    }

    lemma {:induction false} NothingBelow(x: nat)
      requires Spans(topo, tree) && tree.Valid() && self in tree.rank && self != tree.root && !topo.IsSwitch(self)
      requires x in tree.rank
      ensures tree.Anc(self, x) <==> x == self
    {
      hide Spans, Tree.Valid;
      if x != self && tree.Anc(self, x) {
        AboveAreSwitches(topo, tree, self, x);
      }
    }

    lemma {:induction false} EmptyLists()
      requires rdev == map[] && devices == [] && switches == []
      ensures Listed()
    {
    }

    lemma {:induction false} FirstComes(id: nat)
      requires World()
      ensures End(self, 0) in topo.links && Comes(id, [topo.FirstHop(self)])
    {
      hide Spans, Full, Inhabited;
    }
  }

  ghost function Linked(rdev: map<nat, RioDev>, prev: Option<nat>, q: nat, d: nat): map<nat, RioDev>
    requires prev.Some? ==> prev.value in rdev
  {
    if prev.Some? then rdev[prev.value := rdev[prev.value].(nextdev := rdev[prev.value].nextdev[q := d])] else rdev
  }
}
