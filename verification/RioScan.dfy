/** Enumeration of a fabric by its host: the depth-first walk of `rio_enum_peer` over hardware
    registers that are only reached through the fabric's own routing. */
module RioScan {
  import opened Fabric
  import opened ScanState
  import opened ScanLemmas
  import opened ScanOrder
  import opened Routing
  import opened Delivery
  import DestIds
  import Trees

  const EINVAL: int := -22
  const EBUSY: int := -16

  class Scan {
    const c: Mport
    const idtab: DestIds.IdTable

    // registers of the devices in the fabric
    var lock: seq<nat>
    var tag: seq<nat>
    var did: seq<nat>
    var table: Tables

    // driver state
    var nextDestid: nat
    var nextTag: nat
    var rdev: map<nat, RioDev>
    var devices: seq<nat>
    var switches: seq<nat>
    var discovered: set<nat>
    ghost var mark: map<nat, Mark>

    /** A fabric after reset, seen from a host that has not enumerated it yet. */
    constructor (c: Mport, tag: seq<nat>, did: seq<nat>, table: Tables)
      ensures this.c == c && this.tag == tag && this.did == did && this.table == table
      ensures lock == seq(|c.topo.kinds|, _ => FREE) && idtab.table == seq(c.anyId + 1, _ => false)
      ensures rdev == map[] && devices == [] && switches == [] && mark == map[] && nextTag == 1 && discovered == {}
      ensures fresh(idtab)
    {
      this.c := c;
      idtab := new DestIds.IdTable(c.anyId + 1);
      lock := seq(|c.topo.kinds|, _ => FREE);
      this.tag, this.did, this.table := tag, did, table;
      nextDestid, nextTag := 0, 1;
      rdev, devices, switches, mark, discovered := map[], [], [], map[], {};
    }

    ghost function S(): State
      reads this, idtab
    {
      State(lock, tag, did, table, idtab.table, nextDestid, nextTag, rdev, devices, switches, mark)
    }

    // ----- configuration accesses

    /** A packet with this ID and hop count takes `trail` and is consumed at its end. */
    ghost predicate Reaches(id: nat, hops: nat, trail: seq<End>)
      reads this`lock, this`tag, this`did, this`table
    {
      && |lock| == |tag| == |did| == |table| == |c.topo.kinds|
      && End(c.topo.host, 0) in c.topo.links && c.topo.Trail(table, id, trail)
      && trail[0] == c.topo.FirstHop(c.topo.host) && trail[|trail| - 1].dev < |c.topo.kinds|
      && |trail| - 1 <= hops && (|trail| - 1 == hops || !c.topo.IsSwitch(trail[|trail| - 1].dev))
    }

    method Reach(id: nat, hops: nat, ghost trail: seq<End>) returns (at: End)
      requires Reaches(id, hops, trail)
      ensures at == trail[|trail| - 1]
    {
      c.topo.TrailTarget(table, id, trail, hops);
      at := c.topo.Target(table, c.topo.FirstHop(c.topo.host), id, hops).value;
    }

    method ReadLock(id: nat, hops: nat, ghost trail: seq<End>) returns (value: nat)
      requires Reaches(id, hops, trail)
      ensures value == lock[trail[|trail| - 1].dev]
    {
      var at := Reach(id, hops, trail);
      value := lock[at.dev];
    }

    method WriteLock(id: nat, hops: nat, value: nat, ghost trail: seq<End>)
      requires Reaches(id, hops, trail)
      modifies this`lock
      ensures var d := trail[|trail| - 1].dev; lock == old(lock)[d := LockWrite(old(lock)[d], value)]
    {
      var at := Reach(id, hops, trail);
      lock := lock[at.dev := LockWrite(lock[at.dev], value)];
    }

    method ReadTag(id: nat, hops: nat, ghost trail: seq<End>) returns (value: nat)
      requires Reaches(id, hops, trail)
      ensures value == tag[trail[|trail| - 1].dev]
    {
      var at := Reach(id, hops, trail);
      value := tag[at.dev];
    }

    method WriteTag(id: nat, hops: nat, value: nat, ghost trail: seq<End>)
      requires Reaches(id, hops, trail)
      modifies this`tag
      ensures tag == old(tag)[trail[|trail| - 1].dev := value]
    {
      var at := Reach(id, hops, trail);
      tag := tag[at.dev := value];
    }

    method WriteDid(id: nat, hops: nat, value: nat, ghost trail: seq<End>)
      requires Reaches(id, hops, trail)
      modifies this`did
      ensures did == old(did)[trail[|trail| - 1].dev := value]
    {
      var at := Reach(id, hops, trail);
      did := did[at.dev := value];
    }

    /** `rio_route_add_entry` on the global table of the switch that the packet reaches. */
    method RouteAdd(id: nat, hops: nat, destid: nat, port: nat, ghost trail: seq<End>)
      requires Reaches(id, hops, trail)
      modifies this`table
      ensures var d := trail[|trail| - 1].dev; table == old(table)[d := Put(old(table)[d], destid, port)]
    {
      var at := Reach(id, hops, trail);
      table := table[at.dev := Put(table[at.dev], destid, port)];
    }

    /** `rio_route_clr_table`. */
    method RouteClear(id: nat, hops: nat, ghost trail: seq<End>)
      requires Reaches(id, hops, trail)
      modifies this`table
      ensures table == old(table)[trail[|trail| - 1].dev := map[]]
    {
      var at := Reach(id, hops, trail);
      table := table[at.dev := map[]];
    }

    // ----- the driver

    /** `rio_get_comptag`: the first listed device with this component tag. */
    method GetComptag(compTag: nat) returns (r: Option<nat>)
      requires forall d <- devices :: d in rdev
      ensures r.Some? ==> r.value in devices && rdev[r.value].compTag == compTag
      ensures r.None? ==> forall d <- devices :: rdev[d].compTag != compTag
    {
      for i := 0 to |devices|
        invariant forall k: nat :: k < i ==> rdev[devices[k]].compTag != compTag
      {
        if rdev[devices[i]].compTag == compTag {
          return Some(devices[i]);
        }
      }
      return None;
    }

    ghost predicate CountsIds()
      reads this`nextDestid, idtab
    {
      Counts(c, idtab.table, nextDestid)
    }

    /** `next_destid = rio_destid_alloc(net)`. */
    method AllocNext()
      requires CountsIds()
      modifies this`nextDestid, idtab
      ensures nextDestid == Succ(c, old(nextDestid))
      ensures idtab.table == old(idtab.table)[nextDestid := true]
    {
      assert !idtab.table[Succ(c, nextDestid)];
      nextDestid := idtab.Alloc();
    }

    /** `rio_add_device`: the record becomes the last one of the lists. */
    method AddDevice(d: nat, dev: RioDev, ghost m: Mark)
      modifies this`rdev, this`devices, this`switches, this`mark
      ensures rdev == old(rdev)[d := dev] && devices == old(devices) + [d] && mark == old(mark)[d := m]
      ensures switches == if c.topo.IsSwitch(d) then old(switches) + [d] else old(switches)
    {
      rdev := rdev[d := dev];
      devices := devices + [d];
      if c.topo.IsSwitch(d) {
        switches := switches + [d];
      }
      mark := mark[d := m];
    }

    /** `rio_setup_device` in enumeration mode, up to the initial state of a switch's routes. */
    method SetUpDevice(hops: nat, ghost trail: seq<End>) returns (d: nat)
      requires Reaches(c.anyId, hops, trail) && |trail| - 1 == hops
      requires Shape(c, S()) && CountsIds() && CanAlloc(c, S())
      requires lock[trail[|trail| - 1].dev] == c.hostId
      modifies this, idtab
      ensures d == trail[|trail| - 1].dev
      ensures !c.topo.IsSwitch(d) ==> S() == WithEndpoint(c, old(S()), trail[|trail| - 1], None)
      ensures c.topo.IsSwitch(d) ==> S() == WithBlank(c, old(S()), trail[|trail| - 1], None, hops)
    {
      hide Shape;
      ghost var was := S();
      var at := Reach(c.anyId, hops, trail);
      d := at.dev;
      WriteTag(c.anyId, hops, nextTag, trail);
      var compTag := nextTag;
      nextTag := nextTag + 1;
      if !c.topo.IsSwitch(d) {
        var destid := nextDestid;
        WriteDid(c.anyId, hops, destid, trail);
        AllocNext();
        AddDevice(d, RioDev(compTag, destid, 0xff, at.port, None, map[], map[]),
              Mark(destid, destid, nextDestid, true));
        assert lock == was.lock[d := c.hostId];
      } else {
        RouteClear(c.anyId, hops, trail);
        AddDevice(d, RioDev(compTag, c.anyId, hops, at.port, None, map[], map[]),
              Mark(nextDestid, nextDestid, nextDestid, false));
        assert lock == was.lock[d := c.hostId];
      }
    }

    /** A route for one ID, in the switch and in the driver's copy of its table. */
    method SetRoute(d: nat, hops: nat, destid: nat, port: nat, ghost trail: seq<End>)
      requires Reaches(c.anyId, hops, trail) && trail != [] && |trail| - 1 == hops && d == trail[|trail| - 1].dev
      requires d in rdev
      requires forall k: nat :: k < |trail| - 1 ==> trail[k].dev != d
      modifies this`table, this`rdev
      ensures Reaches(c.anyId, hops, trail)
      ensures table == old(table)[d := Put(old(table)[d], destid, port)]
      ensures rdev == old(rdev)[d := old(rdev)[d].(route := Put(old(rdev)[d].route, destid, port))]
    {
      RouteAdd(c.anyId, hops, destid, port, trail);
      rdev := rdev[d := rdev[d].(route := Put(rdev[d].route, destid, port))];
      assert forall k: nat :: k < |trail| - 1 ==> c.topo.Hop(old(table), c.anyId, trail[k], trail[k + 1]);
    }

    /** `rio_destid_next(net, destid + 1)`: IDs in use are consecutive up to the next one. */
    method Following(destid: nat) returns (r: nat)
      requires CountsIds()
      ensures destid < nextDestid ==> r == destid + 1 != DestIds.INVALID_DESTID
    {
      assert idtab.table[nextDestid];
      if destid < nextDestid { assert idtab.table[destid + 1]; }
      r := idtab.Next(destid + 1);
    }

    /** Routes back to the host and to every ID given out so far (the first loop of
        `rio_enum_peer` for a switch). */
    method RouteBack(d: nat, hops: nat, inport: nat, ghost trail: seq<End>)
      requires Reaches(c.anyId, hops, trail) && trail != [] && |trail| - 1 == hops && d == trail[|trail| - 1].dev
      requires d in rdev
      requires d < |table| && forall k: nat :: k < |trail| - 1 ==> trail[k].dev != d
      requires CountsIds() && rdev[d].route == map[] && table[d] == map[]
      modifies this`table, this`rdev
      ensures Reaches(c.anyId, hops, trail)
      ensures table == old(table)[d := Back(c, old(S()), inport)]
      ensures rdev == old(rdev)[d := old(rdev)[d].(route := Back(c, old(S()), inport))]
    {
      hide Reaches, CountsIds, Counts, Span, Put;
      ghost var span: Table := map[];
      SpanStep(c, 0, 0, inport);
      SetRoute(d, hops, c.hostId, inport, trail);
      var destid := FirstUsed();
      NextFits();
      while destid != DestIds.INVALID_DESTID && destid < nextDestid
        invariant destid <= nextDestid && Reaches(c.anyId, hops, trail) && span == Span(c, 0, destid, inport)
        invariant table == old(table)[d := Put(span, c.hostId, inport)]
        invariant rdev == old(rdev)[d := old(rdev)[d].(route := Put(span, c.hostId, inport))]
        decreases nextDestid - destid
      {
        SpanStep(c, 0, destid, inport);
        if destid != c.hostId {
          SetRoute(d, hops, destid, inport, trail);
          PutOrder(span, c.hostId, destid, inport);
          span := Put(span, destid, inport);
        }
        destid := Following(destid);
      }
    }

    lemma {:induction false} NextFits()
      requires CountsIds()
      ensures nextDestid <= DestIds.INVALID_DESTID
    {
    }

    /** `rio_destid_first`: ID 0 is in use. */
    method FirstUsed() returns (r: nat)
      requires CountsIds()
      ensures r == 0
    {
      assert idtab.table[0];
      r := idtab.First();
    }

    /** Routes to the IDs given out below a port (the second loop). */
    method RouteBelow(d: nat, hops: nat, port: nat, first: nat, ghost trail: seq<End>)
      requires Reaches(c.anyId, hops, trail) && trail != [] && |trail| - 1 == hops && d == trail[|trail| - 1].dev
      requires d in rdev
      requires d < |table| && forall k: nat :: k < |trail| - 1 ==> trail[k].dev != d
      requires CountsIds() && first <= nextDestid
      modifies this`table, this`rdev
      ensures Reaches(c.anyId, hops, trail)
      ensures table == old(table)[d := old(table)[d] + Span(c, first, nextDestid, port)]
      ensures rdev == old(rdev)[d := old(rdev)[d].(route := old(rdev)[d].route + Span(c, first, nextDestid, port))]
    {
      hide Reaches, CountsIds, Counts, Span, Put;
      ghost var hw, sw := table[d], rdev[d].route;
      ghost var span: Table := map[];
      SpanStep(c, first, first, port);
      MergeEmpty(hw);
      MergeEmpty(sw);
      var destid := Following(first);
      if destid != DestIds.INVALID_DESTID {
        destid := first;
        while destid < nextDestid
          invariant first <= destid <= nextDestid && Reaches(c.anyId, hops, trail)
          invariant span == Span(c, first, destid, port) && table == old(table)[d := hw + span]
          invariant rdev == old(rdev)[d := old(rdev)[d].(route := sw + span)]
        {
          SpanStep(c, first, destid, port);
          if destid != c.hostId {
            SetRoute(d, hops, destid, port, trail);
            PutMerge(hw, span, destid, port);
            PutMerge(sw, span, destid, port);
            span := Put(span, destid, port);
          }
          destid := Following(destid);
        }
      }
    }

    /** Records what the link behind a port of the previous switch leads to. */
    method LinkNext(prev: Option<nat>, prevPort: nat, d: nat)
      requires prev.Some? ==> prev.value in rdev
      modifies this`rdev
      ensures S() == Joined(old(S()), prev, prevPort, d)
    {
      if prev.Some? {
        rdev := rdev[prev.value := rdev[prev.value].(nextdev := rdev[prev.value].nextdev[prevPort := d])];
      }
    }

    /** The branch of `rio_enum_peer` for a device that this host owns already: another link to
        it, found by its component tag. */
    method KnownDevice(hop: nat, prev: Option<nat>, prevPort: nat, ghost trail: seq<End>)
      requires Reaches(c.anyId, hop, trail) && Shape(c, S()) && Listed(c, S())
      requires prev.Some? ==> prev.value in rdev && trail[|trail| - 1].dev in rdev
      modifies this`rdev
      ensures S() == Joined(old(S()), prev, prevPort, trail[|trail| - 1].dev)
    {
      var compTag := ReadTag(c.anyId, hop, trail);
      if compTag != 0 {
        var known := GetComptag(compTag);
        if known.Some? {
          LinkNext(prev, prevPort, known.value);
        }
      }
    }

    /** Takes the lock of a free device, sets it up and records it as a neighbour. */
    method Adopt(hop: nat, prev: Option<nat>, prevPort: nat, ghost trail: seq<End>) returns (d: nat)
      requires Reaches(c.anyId, hop, trail) && |trail| - 1 == hop
      requires Shape(c, S()) && CountsIds() && CanAlloc(c, S())
      requires lock[trail[|trail| - 1].dev] == FREE && trail[|trail| - 1].dev !in rdev
      requires prev.Some? ==> prev.value in rdev
      requires forall k: nat :: k < |trail| - 1 ==> trail[k].dev != trail[|trail| - 1].dev
      modifies this, idtab
      ensures d == trail[|trail| - 1].dev
      ensures !c.topo.IsSwitch(d) ==>
                S() == Joined(WithEndpoint(c, old(S()), trail[|trail| - 1], prev), prev, prevPort, d)
      ensures c.topo.IsSwitch(d) ==>
                S() == Joined(WithBlank(c, old(S()), trail[|trail| - 1], prev, hop), prev, prevPort, d)
      ensures |devices| == |old(devices)| + 1
    {
      hide Joined, WithEndpoint, WithBlank, Shape;
      ghost var was, at := S(), trail[|trail| - 1];
      LastFits(hop, trail);
      WriteLock(c.anyId, hop, c.hostId, trail);
      ghost var locked := S();
      SameShape(c, was, locked);
      d := SetUpDevice(hop, trail);
      if c.topo.IsSwitch(d) {
        PrevOfSwitch(c, was, locked, at, prev, hop);
      } else {
        PrevOfEndpoint(c, was, locked, at, prev);
      }
      rdev := rdev[d := rdev[d].(prev := prev)];
      LinkNext(prev, prevPort, d);
    }

    lemma {:induction false} LastFits(hop: nat, trail: seq<End>)
      requires Reaches(c.anyId, hop, trail) && Shape(c, S())
      ensures trail != [] && trail[|trail| - 1].dev < |lock|
    {
    }

    /** `rio_sport_is_active`: the port of the reached switch has a link partner. */
    method PortActive(id: nat, hops: nat, port: nat, ghost trail: seq<End>) returns (active: bool)
      requires Reaches(id, hops, trail)
      ensures active <==> End(trail[|trail| - 1].dev, port) in c.topo.links
    {
      var at := Reach(id, hops, trail);
      active := End(at.dev, port) in c.topo.links;
    }

    lemma {:induction false} Entry(path: seq<End>, prev: Option<nat>, q: nat, at: End)
      requires Inv(c, S(), path) && Crosses(c, S(), path, prev, q, at)
      requires Reaches(c.anyId, |path|, path + [at])
      ensures c.Valid() && Shape(c, S()) && Listed(c, S()) && CanAlloc(c, S()) && CountsIds() && at.dev < |lock|
      ensures lock[at.dev] == c.hostId <==> at.dev == c.topo.host || at.dev in rdev
      ensures lock[at.dev] != c.hostId ==> lock[at.dev] == FREE && Fresh(c, S(), path, at, prev)
      ensures prev.Some? ==> prev.value in rdev && (lock[at.dev] == c.hostId ==> at.dev in rdev)
      ensures at.dev !in rdev ==> forall k: nat :: k < |path| ==> path[k].dev != at.dev
      ensures End(c.topo.host, 0) in c.topo.links && (path + [at])[0] == c.topo.FirstHop(c.topo.host)
      ensures c.topo.Trail(table, c.anyId, path + [at]) && Counts(c, idtab.table, nextDestid)
      ensures |devices| < |c.topo.kinds|
    {
      hide TreeOk, TablesOk, SpansOk, Unique, NextsOk;
      Room(c, S(), path);
    }

    /** `rio_enum_peer`.  Scans what is behind the link whose far end is `at`; `path` holds the
        switches between the host and that link. */
    method EnumPeer(hop: nat, prev: Option<nat>, prevPort: nat, ghost path: seq<End>, ghost at: End)
      requires Inv(c, S(), path) && |path| == hop && Crosses(c, S(), path, prev, prevPort, at)
      requires Reaches(c.anyId, hop, path + [at])
      modifies this, idtab
      ensures Inv(c, S(), path) && Grown(old(S()), S(), prev, prevPort, at.dev)
      ensures at.dev != c.topo.host ==> Scanned(c, old(S()), S(), at)
      ensures at.dev == c.topo.host ==> S() == old(S())
      ensures Order(S()) == Visit(c, at, Order(old(S())))
      decreases |c.topo.kinds| - |devices|, 0
    {
      hide Visit, Order, Inv, Grown, Scanned, Crosses, Fresh, CanAlloc, Shape, Listed, CountsIds, Reaches, Joined,
           WithEndpoint, WithBlank;
      ghost var was, trail := S(), path + [at];
      Entry(path, prev, prevPort, at);
      var owner := ReadLock(c.anyId, hop, trail);
      if owner == c.hostId {
        KnownDevice(hop, prev, prevPort, trail);
        KnownKeeps(c, was, path, prev, prevPort, at, S());
        KnownOrder(c, was, prev, prevPort, at, S());
      } else {
        var d := Adopt(hop, prev, prevPort, trail);
        if c.topo.IsSwitch(d) {
          EnterSwitch(d, hop, prev, prevPort, path, at, was);
        } else {
          EndpointAdopted(c, was, path, prev, prevPort, at, S());
          EndpointOrder(c, was, prev, prevPort, at, S());
        }
      }
    }

    /** The part of `rio_enum_peer` for a new switch: routes back, then all its ports. */
    method EnterSwitch(d: nat, hop: nat, prev: Option<nat>, prevPort: nat, ghost path: seq<End>, ghost at: End,
          ghost was: State)
      requires Fresh(c, was, path, at, prev) && |path| == hop && Crosses(c, was, path, prev, prevPort, at)
      requires prev.Some? ==> prev.value in was.rdev
      requires d == at.dev && d != c.topo.host && d !in was.rdev && c.topo.IsSwitch(d) && d < |was.lock|
      requires Shape(c, was) && Listed(c, was)
      requires S() == Joined(WithBlank(c, was, at, prev, hop), prev, prevPort, d)
      requires End(c.topo.host, 0) in c.topo.links && (path + [at])[0] == c.topo.FirstHop(c.topo.host)
      requires c.topo.Trail(was.table, c.anyId, path + [at]) && Counts(c, was.used, was.nextDestid)
      requires forall k: nat :: k < |path| ==> path[k].dev != d
      modifies this, idtab
      ensures Inv(c, S(), path) && Grown(was, S(), prev, prevPort, at.dev) && Scanned(c, was, S(), at)
      ensures Order(S()) == Visit(c, at, Order(was))
      decreases |c.topo.kinds| - |devices|, 3
    {
      hide Order, Visit, VisitPorts, Leave, Enter, Has, Listed, Inv, Grown, Scanned, Crosses, Fresh, CanAlloc,
           Scanning, Kept, Counts;
      ghost var blank := S();
      Blanked(c, was, at, prev, prevPort, hop, path, blank);
      RouteBack(d, hop, rdev[d].inport, path + [at]);
      ghost var t := S();
      Filled(c, was, at, prev, prevPort, hop, blank, t);
      SwitchAdopted(c, was, path, prev, prevPort, at, t);
      SwitchOrder(c, was, prev, prevPort, at, hop, t);
      ScanSwitch(d, hop, path + [at]);
      SwitchScanned(c, was, t, S(), prev, prevPort, at);
      VisitSwitch(c, was, at);
      assert (path + [at])[..hop] == path;
    }

    /** The part of `rio_enum_peer` that walks the ports of a new switch. */
    method ScanSwitch(d: nat, hop: nat, ghost path: seq<End>)
      requires Scanning(c, S(), path, d) && |path| == hop + 1 && Reaches(c.anyId, hop, path)
      requires d in mark && mark[d].lo == mark[d].cover == nextDestid
      requires devices != [] && devices[|devices| - 1] == d
      modifies this, idtab
      ensures Inv(c, S(), path[..hop]) && Kept(old(S()), S(), d)
      ensures d in mark && mark[d].done && mark[d].hi == nextDestid
      ensures var ports := VisitPorts(c, path[hop], c.topo.kinds[d].ports, Order(old(S())));
              |old(devices)| <= |ports.found| && Order(S()) == Leave(c, ports, |old(devices)| - 1)
      decreases |c.topo.kinds| - |devices|, 2
    {
      hide Order, VisitPorts, VisitPort, Leave, Inv, Kept, Reaches, Recorded;
      ghost var was := S();
      KeptSelf(c, was, path, d);
      NextPort(c, path[hop], 0, Order(was));
      var swDestid := nextDestid;
      for port := 0 to c.topo.kinds[d].ports
        invariant Scanning(c, S(), path, d) && Reaches(c.anyId, hop, path)
        invariant d in mark && mark[d].cover == nextDestid && mark[d].lo == swDestid
        invariant Kept(was, S(), d) && |devices| >= |was.devices|
        invariant forall q: nat :: q < port ==> Linked(c, rdev[d], d, q)
        invariant Order(S()) == VisitPorts(c, path[hop], port, Order(was))
      {
        ghost var s := S();
        NextPort(c, path[hop], port, Order(was));
        ScanPort(d, hop, port, path);
        KeptTrans(was, s, S(), d);
        forall q: nat | q < port + 1 ensures Linked(c, rdev[d], d, q) {
          LinkedKept(c, s, S(), d, port, q);
        }
      }
      ghost var s := S();
      DoneReady(c, s, path, d);
      SwitchLeft(c, was, s, path, d);
      if nextDestid == swDestid {
        AllocNext();
      }
      rdev := rdev[d := rdev[d].(destid := swDestid)];
      mark := mark[d := mark[d].(hi := nextDestid, done := true)];
      assert S() == WithDone(c, s, d);
      DoneKeeps(c, s, path, d, S());
      DoneKept(c, was, s, S(), d);
      assert path[..|path| - 1] == path[..hop];
    }

    /** One round of the loop over the ports of a switch. */
    method ScanPort(d: nat, hop: nat, port: nat, ghost path: seq<End>)
      requires Scanning(c, S(), path, d) && |path| == hop + 1 && Reaches(c.anyId, hop, path)
      requires d in mark && mark[d].cover == nextDestid
      modifies this, idtab
      ensures Scanning(c, S(), path, d) && Reaches(c.anyId, hop, path) && d in mark && mark[d].cover == nextDestid
      ensures Kept(old(S()), S(), d) && Recorded(c, old(S()), S(), d, port)
      ensures Order(S()) == VisitPort(c, path[hop], port, Order(old(S())))
      decreases |c.topo.kinds| - |devices|, 1
    {
      hide Order, Visit, VisitPort, Inv, Grown, Scanned, Crosses, Kept, Recorded;
      ghost var was := S();
      KeptSelf(c, was, path, d);
      PathFacts(c, was, path, d);
      OnePort(c, path[hop], port, Order(was));
      if rdev[d].inport == port {
        RecordedSelf(c, was, d, port);
        return;
      }
      var curDestid := nextDestid;
      var active := PortActive(c.anyId, hop, port, path);
      if active {
        RouteAdd(c.anyId, hop, c.anyId, port, path);
        ghost var s1, at := S(), c.topo.links[End(d, port)];
        PortOpened(c, was, path, d, port, at, s1);
        TableOrder(was, s1);
        assert (path + [at])[..hop + 1] == path;
        EnumPeer(hop + 1, Some(d), port, path, at);
        ghost var s2 := S();
        PeerScanned(c, was, s1, s2, path, d, port, at);
        RouteBelow(d, hop, port, curDestid, path);
        mark := mark[d := mark[d].(cover := nextDestid)];
        PortRouted(c, was, s2, path, d, port, S());
        PortKept(c, was, s1, s2, d, port, at.dev, S());
        RoutesOrder(c, s2, d, port, S());
      } else {
        RecordedSelf(c, was, d, port);
      }
    }

    // ----- after the walk

    /** `rio_update_route_tables`.  `s` is the state in which the walk ended. */
    method UpdateRouteTables(ghost s: State)
      requires Walked(c, s) && Shape(c, s) && Extends(c, s, S())
      requires |lock| == |tag| == |did| == |table| == |c.topo.kinds| && devices == s.devices && switches == s.switches
      modifies this`table, this`rdev
      ensures Enumerated(c, s, S()) && |table| == |c.topo.kinds|
    {
      hide Walked, Extends, Covered, Shape;
      ListFacts(c, s);
      ExtendsParts(c, s, S());
      for i := 0 to |devices|
        invariant Extends(c, s, S()) && |table| == |c.topo.kinds|
        invariant forall d: nat :: d in rdev <==> d in s.rdev
        invariant forall k: nat, d: nat :: k < i && d in switches ==> Covered(S(), d, devices[k])
      {
        assert devices[i] in devices;
        UpdateRoutesTo(s, devices[i]);
      }
      AllCovered(c, s, S());
    }

    /** The loop over the switches, for one device. */
    method UpdateRoutesTo(ghost s: State, x: nat)
      requires Walked(c, s) && Shape(c, s) && Extends(c, s, S()) && x in s.rdev && switches == s.switches
      requires |lock| == |tag| == |did| == |table| == |c.topo.kinds| && forall d: nat :: d in rdev <==> d in s.rdev
      modifies this`table, this`rdev
      ensures Extends(c, s, S()) && |table| == |c.topo.kinds| && forall d: nat :: d in rdev <==> d in s.rdev
      ensures forall d <- switches :: Covered(S(), d, x)
      ensures forall e: nat, y: nat :: Covered(old(S()), e, y) ==> Covered(S(), e, y)
    {
      hide Walked, Extends, Covered, Shape;
      ListFacts(c, s);
      for j := 0 to |switches|
        invariant Extends(c, s, S()) && |table| == |c.topo.kinds|
        invariant forall d: nat :: d in rdev <==> d in s.rdev
        invariant forall m: nat :: m < j ==> Covered(S(), switches[m], x)
        invariant forall e: nat, y: nat :: Covered(old(S()), e, y) ==> Covered(S(), e, y)
      {
        assert switches[j] in switches;
        UpdateRoute(s, x, switches[j]);
      }
    }

    /** A route to device `x` through the port that leads from switch `d` back to the host,
        written with the address on record for the switch. */
    method AddMissingRoute(ghost s: State, x: nat, d: nat)
      requires Walked(c, s) && Shape(c, s) && Extends(c, s, S())
      requires |lock| == |tag| == |did| == |table| == |c.topo.kinds|
      requires x in s.rdev && d in s.rdev && c.topo.IsSwitch(d) && x in rdev && d in rdev
      requires rdev[x].destid !in rdev[d].route && rdev[x].destid != rdev[d].destid
      modifies this`table, this`rdev
      ensures Extends(c, s, S()) && AddsRoute(c, old(S()), S(), d, old(rdev)[x].destid)
    {
      hide Walked, Extends, Shape, AddsRoute, Mport.Valid, Topology.Trail, Topology.Target, Way, Unique, Ids;
      RouteAddress(c, s, S(), d);
      var destid, sport := rdev[x].destid, rdev[d].inport;
      RouteAdd(rdev[d].destid, rdev[d].hopcount, destid, sport, Way(c, s, d));
      rdev := rdev[d := rdev[d].(route := Put(rdev[d].route, destid, sport))];
      RouteAdded(c, s, old(S()), S(), d, destid, x);
    }

    /** The body of the inner loop of `rio_update_route_tables`. */
    method UpdateRoute(ghost s: State, x: nat, d: nat)
      requires Walked(c, s) && Shape(c, s) && Extends(c, s, S())
      requires |lock| == |tag| == |did| == |table| == |c.topo.kinds|
      requires x in s.rdev && d in s.rdev && c.topo.IsSwitch(d) && x in rdev && d in rdev
      modifies this`table, this`rdev
      ensures Extends(c, s, S()) && |table| == |c.topo.kinds| && (forall y: nat :: y in rdev <==> y in s.rdev)
      ensures Covered(S(), d, x)
      ensures forall e: nat, y: nat :: Covered(old(S()), e, y) ==> Covered(S(), e, y)
    {
      hide Walked, Extends, Covered, Shape;
      ExtendsParts(c, s, S());
      CoveredIf(S(), d, x);
      if d == x {
        return;
      }
      var destid := rdev[x].destid;
      if destid !in rdev[d].route {
        if rdev[d].destid == destid {
          return;
        }
        AddMissingRoute(s, x, d);
        AddedCovered(c, old(S()), S(), d, destid);
      }
    }

    /** `rio_clear_locks`: releases the host's lock on its own port and on every device, checks
        that each is free, and marks the devices as discovered. */
    method ClearLocks(ghost s: State) returns (rc: int)
      requires Enumerated(c, s, S()) && |lock| == |tag| == |did| == |table| == |c.topo.kinds|
      requires devices == s.devices && lock == s.lock
      modifies this`lock, this`discovered
      ensures rc == 0 && |lock| == |c.topo.kinds| && (forall d: nat :: d < |lock| ==> lock[d] == FREE)
      ensures forall d: nat :: d in discovered <==> d in old(discovered) || d in s.rdev
    {
      hide Walked, Extends, Shape, Enumerated, Reaches, Trees.NoRepeat;
      ghost var t := S();
      LockFacts(c, s, t);
      rc := 0;
      lock := lock[c.topo.host := LockWrite(lock[c.topo.host], c.hostId)];
      if lock[c.topo.host] != FREE {
        rc := EINVAL;
      }
      for i := 0 to |devices|
        invariant rc == 0 && |lock| == |c.topo.kinds|
        invariant forall d: nat :: d < |lock| ==> lock[d] == if d in devices[i..] then c.hostId else FREE
        invariant forall d: nat :: d in discovered <==> d in old(discovered) || d in devices[..i]
      {
        var d := devices[i];
        Slices(devices, i);
        var free := Release(s, t, d);
        if !free {
          rc := EINVAL;
        }
        discovered := discovered + {d};
      }
    }

    /** Writes the host's ID to the lock of a device, by its address on record, and reads back. */
    method Release(ghost s: State, ghost t: State, d: nat) returns (free: bool)
      requires Enumerated(c, s, t) && table == t.table && rdev == t.rdev && d in s.rdev
      requires |lock| == |tag| == |did| == |table| == |c.topo.kinds|
      modifies this`lock
      ensures d < |old(lock)| && lock == old(lock)[d := LockWrite(old(lock)[d], c.hostId)]
      ensures free <==> LockWrite(old(lock)[d], c.hostId) == FREE
    {
      hide Walked, Extends, Enumerated;
      OwnWay(c, s, t, d);
      WriteLock(rdev[d].destid, rdev[d].hopcount, c.hostId, Way(c, s, d));
      var result := ReadLock(rdev[d].destid, rdev[d].hopcount, Way(c, s, d));
      free := result == FREE;
    }

    /** `rio_enum_mport` on an unenumerated fabric.  `s` is the state in which the walk ended. */
    method EnumMport() returns (rc: int, ghost s: State)
      requires c.Valid() && |lock| == |tag| == |did| == |table| == |c.topo.kinds|
      requires (forall d: nat :: d < |lock| ==> lock[d] == FREE) && idtab.table == seq(c.anyId + 1, _ => false)
      requires rdev == map[] && devices == [] && switches == [] && mark == map[] && nextTag == 1
      modifies this, idtab
      ensures rc == 0 <==> End(c.topo.host, 0) in c.topo.links
      ensures rc == 0 ==>
                Enumerated(c, s, S()) && |lock| == |c.topo.kinds| && (forall d: nat :: d < |lock| ==> lock[d] == FREE)
      ensures rc == 0 ==> did == s.did && tag == s.tag && devices == s.devices && mark == s.mark
      ensures rc == 0 ==> InWalkOrder(c, s) && NumberedBy(s, WholeWalk(c))
      ensures rc == 0 ==> did[c.topo.host] == c.hostId && tag[c.topo.host] == 1
      ensures rc == 0 ==> forall d <- s.rdev :: d in discovered
      ensures rc == 0 ==>
                forall id: nat :: id < |idtab.table| ==> (idtab.table[id] <==> id == c.hostId || id < s.nextDestid)
      ensures rc != 0 ==>
                && rc == EINVAL && lock == old(lock)[c.topo.host := c.hostId]
                && did == old(did)[c.topo.host := c.hostId]
                && table == old(table) && tag == old(tag) && rdev == map[] && devices == [] && switches == []
                && idtab.table == old(idtab.table) && discovered == old(discovered)
    {
      hide Enumerated, Mport.Valid;
      Reserved(c);
      s := S();
      var h := c.topo.host;
      lock := lock[h := LockWrite(lock[h], c.hostId)];
      if lock[h] != c.hostId {
        return EBUSY, s;
      }
      did := did[h := c.hostId];
      if End(h, 0) in c.topo.links {
        s := EnumFromHost();
        ghost var t := S();
        rc := ClearLocks(s);
        Numbers(s, t);
        SameTables(c, s, t, S());
      } else {
        rc := EINVAL;
      }
    }

    lemma {:induction false} Numbers(s: State, t: State)
      requires Enumerated(c, s, t) && InWalkOrder(c, s)
      ensures NumberedBy(s, WholeWalk(c))
    {
      NumberedInOrder(c, s);
    }

    /** Reserves the host's ID and draws the first one to give out. */
    method ReserveHost()
      requires c.hostId < c.anyId && 2 <= c.anyId && c.topo.host < |tag| && nextTag == 1
      requires idtab.table == seq(c.anyId + 1, _ => false)
      modifies this`tag, this`nextTag, this`nextDestid, idtab
      ensures tag == old(tag)[c.topo.host := 1] && nextTag == 2 && nextDestid == FirstId(c)
      ensures |idtab.table| == c.anyId + 1
      ensures forall i: nat :: i < |idtab.table| ==> (idtab.table[i] <==> i == c.hostId || i == FirstId(c))
    {
      var oldbit := idtab.Reserve(c.hostId);
      tag := tag[c.topo.host := nextTag];
      nextTag := nextTag + 1;
      assert !idtab.table[FirstId(c)];
      nextDestid := idtab.Alloc();
    }

    /** From the reservation of the host's ID to the second pass. */
    method EnumFromHost() returns (ghost s: State)
      requires c.Valid() && |lock| == |tag| == |did| == |table| == |c.topo.kinds| && End(c.topo.host, 0) in c.topo.links
      requires forall d: nat :: d < |lock| ==> lock[d] == if d == c.topo.host then c.hostId else FREE
      requires idtab.table == seq(c.anyId + 1, _ => false) && c.topo.host < |did| && did[c.topo.host] == c.hostId
      requires rdev == map[] && devices == [] && switches == [] && mark == map[] && nextTag == 1
      modifies this, idtab
      ensures Enumerated(c, s, S()) && lock == s.lock && did == s.did && tag == s.tag && devices == s.devices
      ensures mark == s.mark && InWalkOrder(c, s)
      ensures |lock| == |tag| == |did| == |table| == |c.topo.kinds|
      ensures c.topo.host < |did| && did[c.topo.host] == c.hostId && tag[c.topo.host] == 1
      ensures forall id: nat :: id < |idtab.table| ==> (idtab.table[id] <==> id == c.hostId || id < s.nextDestid)
    {
      hide Visit, Inv, Walked, Enumerated, Extends, Crosses, Reaches, Grown, Scanned, Mport.Valid, Shape;
      Reserved(c);
      ReserveHost();
      ghost var first, was := c.topo.FirstHop(c.topo.host), S();
      Beginning(c, was, first);
      StartReaches(first);
      EnumPeer(0, None, 0, [], first);
      s := S();
      assert Order(was) == Walk([], FirstId(c));
      Ending(c, was, s, first);
      IdsInBitmap(c, s);
      idtab.Free(nextDestid);
      SelfExtends(c, s, S());
      UpdateRouteTables(s);
    }

    lemma {:induction false} StartReaches(first: End)
      requires c.Valid() && |lock| == |tag| == |did| == |table| == |c.topo.kinds| && End(c.topo.host, 0) in c.topo.links
      requires first == c.topo.FirstHop(c.topo.host)
      ensures Reaches(c.anyId, 0, [] + [first])
    {
      assert first in c.topo.links;
      assert [] + [first] == [first];
    }
  }

  /** The bitmap holds the host's ID and everything up to the next ID, and has room left. */
  ghost predicate Counts(c: Mport, used: seq<bool>, next: nat) {
    && (forall i: nat :: i < |used| ==> (used[i] <==> i == c.hostId || i <= next))
    && Succ(c, next) < |used| <= 0x10000 && c.hostId + 1 < |used|
  }

  lemma {:induction false} SameShape(c: Mport, s: State, t: State)
    requires Shape(c, s) && t == s.(lock := t.lock) && |t.lock| == |s.lock|
    ensures Shape(c, t)
  {
  }

  /** Locked first, its previous device recorded last: the same as in one step. */
  lemma {:induction false} PrevOfEndpoint(c: Mport, s: State, locked: State, at: End, prev: Option<nat>)
    requires Shape(c, s) && Shape(c, locked) && at.dev < |s.lock| && CanAlloc(c, s)
    requires locked == s.(lock := s.lock[at.dev := c.hostId])
    ensures CanAlloc(c, locked)
    ensures var t := WithEndpoint(c, locked, at, None);
            && at.dev in t.rdev
            && t.(rdev := t.rdev[at.dev := t.rdev[at.dev].(prev := prev)]) == WithEndpoint(c, s, at, prev)
    ensures |WithEndpoint(c, s, at, prev).devices| == |s.devices| + 1
    ensures prev.Some? && prev.value in s.rdev ==> prev.value in WithEndpoint(c, s, at, prev).rdev
  {
  }

  lemma {:induction false} PrevOfSwitch(c: Mport, s: State, locked: State, at: End, prev: Option<nat>, hop: nat)
    requires Shape(c, s) && Shape(c, locked) && at.dev < |s.lock|
    requires locked == s.(lock := s.lock[at.dev := c.hostId])
    ensures var t := WithBlank(c, locked, at, None, hop);
            && at.dev in t.rdev
            && t.(rdev := t.rdev[at.dev := t.rdev[at.dev].(prev := prev)]) == WithBlank(c, s, at, prev, hop)
    ensures |WithBlank(c, s, at, prev, hop).devices| == |s.devices| + 1
    ensures prev.Some? && prev.value in s.rdev ==> prev.value in WithBlank(c, s, at, prev, hop).rdev
  {
  }

  lemma {:induction false} PutOrder(span: Table, host: nat, id: nat, port: nat)
    requires host != id
    ensures Put(Put(span, host, port), id, port) == Put(Put(span, id, port), host, port)
  {
  }

  /** The stored address of a switch leads to it. */
  lemma {:induction false} RouteAddress(c: Mport, s: State, t: State, d: nat)
    requires Walked(c, s) && Shape(c, s) && Extends(c, s, t) && d in s.rdev && c.topo.IsSwitch(d)
    ensures d in t.rdev && d < |t.table| == |c.topo.kinds| && End(c.topo.host, 0) in c.topo.links
    ensures var way := Way(c, s, d);
            && c.topo.Trail(t.table, t.rdev[d].destid, way) && way[0] == c.topo.FirstHop(c.topo.host)
            && |way| - 1 == t.rdev[d].hopcount && way[|way| - 1].dev == d
  {
    hide Walked, Extends, Topology.Trail;
    ExtendsParts(c, s, t);
    Addressed(c, s, t, d);
    SwitchWay(c, s, t, d);
    HostFacts(c, s);
  }

  lemma {:induction false} RouteAdded(c: Mport, s: State, t: State, u: State, d: nat, id: nat, x: nat)
    requires Walked(c, s) && Shape(c, s) && Extends(c, s, t) && d in s.rdev && c.topo.IsSwitch(d) && x in s.rdev
    requires x in t.rdev && d in t.rdev
    requires id == t.rdev[x].destid && id !in t.rdev[d].route && id != t.rdev[d].destid && d < |t.table|
    requires u == t.(table := t.table[d := Put(t.table[d], id, t.rdev[d].inport)],
                     rdev := t.rdev[d := t.rdev[d].(route := Put(t.rdev[d].route, id, t.rdev[d].inport))])
    ensures Extends(c, s, u) && AddsRoute(c, t, u, d, id)
  {
    hide Walked, Extends;
    ExtendsParts(c, s, t);
    AddedExtends(c, s, t, u, d, id, x);
  }

  lemma {:induction false} SpanStep(c: Mport, lo: nat, id: nat, port: nat)
    requires lo <= id
    ensures Span(c, lo, lo, port) == map[]
    ensures Span(c, lo, id + 1, port) == if id == c.hostId then Span(c, lo, id, port)
          else Put(Span(c, lo, id, port), id, port)
  {
  }

  lemma {:induction false} PutMerge(table: Table, span: Table, id: nat, port: nat)
    ensures Put(table + span, id, port) == table + Put(span, id, port)
  {
  }

  lemma {:induction false} MergeEmpty(table: Table)
    ensures table + map[] == table
  {
  }

  /** `at` is the far end of the link behind port `q` of the switch scanned last, or of the
      host's own link. */
  ghost predicate Crosses(c: Mport, s: State, path: seq<End>, prev: Option<nat>, q: nat, at: End) {
    && at in c.topo.links
    && (path == [] ==> prev == None && c.topo.links[at] == End(c.topo.host, 0))
    && (path != [] ==>
          && var f := path[|path| - 1];
          prev == Some(f.dev) && c.topo.links[at] == End(f.dev, q) && q != f.port && at.dev != c.topo.host)
  }

  /** What was known stays as it was, but for the neighbour recorded at the link. */
  ghost predicate Grown(s: State, t: State, prev: Option<nat>, q: nat, child: nat) {
    && |s.table| == |t.table|
    && |s.tag| == |t.tag| && |s.did| == |t.did|
    && (forall x: nat :: x < |s.tag| && x < |s.did| && x !in t.rdev ==> t.tag[x] == s.tag[x] && t.did[x] == s.did[x])
    && (forall x <- s.rdev :: x in t.rdev && x in s.mark && x in t.mark && x < |s.table|
          && s.mark[x] == t.mark[x] && s.table[x] == t.table[x]
          && t.rdev[x] == if prev == Some(x) then s.rdev[x].(nextdev := s.rdev[x].nextdev[q := child]) else s.rdev[x])
    && |s.devices| <= |t.devices| && s.nextDestid <= t.nextDestid
  }

  /** The device at `at` is done; when it is new, it took the IDs handed out meanwhile. */
  ghost predicate Scanned(c: Mport, s: State, t: State, at: End) {
    && at.dev in t.rdev && at.dev in t.mark
    && (at.dev in s.rdev ==> t.nextDestid == s.nextDestid)
    && (at.dev !in s.rdev ==>
          && t.rdev[at.dev].inport == at.port && t.mark[at.dev].done
          && t.mark[at.dev].lo == s.nextDestid && t.mark[at.dev].hi == t.nextDestid)
  }

  ghost function Joined(s: State, prev: Option<nat>, q: nat, d: nat): State
    requires prev.Some? ==> prev.value in s.rdev
  {
    if prev.Some? then WithNext(s, prev.value, q, d) else s
  }

  /** All devices but `f` keep their records; `f` keeps its place in the tree. */
  ghost predicate Kept(s: State, t: State, f: nat) {
    && |s.table| == |t.table|
    && |s.tag| == |t.tag| && |s.did| == |t.did|
    && (forall x: nat :: x < |s.tag| && x < |s.did| && x !in t.rdev ==> t.tag[x] == s.tag[x] && t.did[x] == s.did[x])
    && (forall x <- s.rdev :: x in t.rdev && x in s.mark && x in t.mark && x < |s.table|)
    && (forall x <- s.rdev :: x != f ==> s.mark[x] == t.mark[x] && s.table[x] == t.table[x] && s.rdev[x] == t.rdev[x])
    && (f in s.rdev ==> t.rdev[f].inport == s.rdev[f].inport && t.mark[f].lo == s.mark[f].lo)
    && |s.devices| <= |t.devices| && s.nextDestid <= t.nextDestid
  }

  /** The link behind port `q` of `f` is on record, and so is every link recorded before. */
  ghost predicate Recorded(c: Mport, s: State, t: State, f: nat, q: nat) {
    && f in s.rdev && f in t.rdev
    && (End(f, q) in c.topo.links && q != t.rdev[f].inport ==> q in t.rdev[f].nextdev)
    && (forall p <- s.rdev[f].nextdev :: p in t.rdev[f].nextdev)
  }

  // ----- glue: what the steps of `EnumPeer` establish

  lemma {:induction false} KnownKeeps(c: Mport, s: State, path: seq<End>, prev: Option<nat>, q: nat, at: End, t: State)
    requires Inv(c, s, path) && Crosses(c, s, path, prev, q, at) && (prev.Some? ==> prev.value in s.rdev)
    requires at.dev == c.topo.host || at.dev in s.rdev
    requires t == Joined(s, prev, q, at.dev)
    ensures Inv(c, t, path) && Grown(s, t, prev, q, at.dev) && (at.dev == c.topo.host ==> t == s)
    ensures at.dev != c.topo.host ==> Scanned(c, s, t, at)
  {
    hide Owned, Listed, Ids, TreeOk, TablesOk, SpansOk, Unique, NextsOk;
    if prev.Some? {
      assert Open(c, s, path, prev.value);
      NextKeeps(c, s, path, prev.value, q, t);
    }
  }

  lemma {:induction false} LastOpen(c: Mport, s: State, path: seq<End>, prev: Option<nat>)
    requires Inv(c, s, path) && prev.Some? && path != [] && prev.value == path[|path| - 1].dev
    ensures Open(c, s, path, prev.value)
  {
    hide Owned, Listed, Ids, TreeOk, TablesOk, SpansOk, Unique, NextsOk;
  }

  lemma {:induction false} EndpointAdopted(c: Mport, s: State, path: seq<End>, prev: Option<nat>, q: nat, at: End,
        t: State)
    requires Fresh(c, s, path, at, prev) && Crosses(c, s, path, prev, q, at) && CanAlloc(c, s)
    requires !c.topo.IsSwitch(at.dev)
    requires prev.Some? ==> prev.value in s.rdev
    requires Shape(c, s) && at.dev < |s.lock| && t == Joined(WithEndpoint(c, s, at, prev), prev, q, at.dev)
    ensures Inv(c, t, path) && Grown(s, t, prev, q, at.dev) && Scanned(c, s, t, at)
  {
    var e := WithEndpoint(c, s, at, prev);
    EndpointKeeps(c, s, path, at, prev, e);
    EndpointGrown(c, s, prev, q, at, t);
    hide Inv, WithEndpoint;
    if prev.Some? {
      LastOpen(c, e, path, prev);
      NextKeeps(c, e, path, prev.value, q, t);
    }
  }

  lemma {:induction false} EndpointGrown(c: Mport, s: State, prev: Option<nat>, q: nat, at: End, t: State)
    requires at.dev !in s.rdev && CanAlloc(c, s) && (prev.Some? ==> prev.value in s.rdev)
    requires Shape(c, s) && at.dev < |s.lock| && t == Joined(WithEndpoint(c, s, at, prev), prev, q, at.dev)
    ensures Grown(s, t, prev, q, at.dev) && Scanned(c, s, t, at)
  {
  }

  lemma {:induction false} Blanked(c: Mport, s: State, at: End, prev: Option<nat>, q: nat, hop: nat, path: seq<End>,
        b: State)
    requires Shape(c, s) && at.dev < |s.lock| && at.dev !in s.rdev && (prev.Some? ==> prev.value in s.rdev)
    requires b == Joined(WithBlank(c, s, at, prev, hop), prev, q, at.dev)
    requires c.topo.Trail(s.table, c.anyId, path + [at]) && Counts(c, s.used, s.nextDestid)
    requires forall k: nat :: k < |path| ==> path[k].dev != at.dev
    ensures |b.lock| == |b.tag| == |b.did| == |b.table| == |c.topo.kinds|
    ensures c.topo.Trail(b.table, c.anyId, path + [at]) && Counts(c, b.used, b.nextDestid)
    ensures at.dev in b.rdev && b.rdev[at.dev].route == map[] && b.table[at.dev] == map[]
    ensures b.rdev[at.dev].inport == at.port
  {
    c.topo.TrailKept(s.table, b.table, c.anyId, path + [at]);
  }

  lemma {:induction false} Filled(c: Mport, s: State, at: End, prev: Option<nat>, q: nat, hop: nat, b: State, t: State)
    requires Shape(c, s) && at.dev < |s.lock| && at.dev !in s.rdev && (prev.Some? ==> prev.value in s.rdev)
    requires b == Joined(WithBlank(c, s, at, prev, hop), prev, q, at.dev) && at.dev in b.rdev
    requires t == b.(table := b.table[at.dev := Back(c, b, at.port)],
                     rdev := b.rdev[at.dev := b.rdev[at.dev].(route := Back(c, b, at.port))])
    ensures t == Joined(WithSwitch(c, s, at, prev, hop), prev, q, at.dev)
  {
    assert t.rdev == Joined(WithSwitch(c, s, at, prev, hop), prev, q, at.dev).rdev;
  }

  lemma {:induction false} SwitchAdopted(c: Mport, s: State, path: seq<End>, prev: Option<nat>, q: nat, at: End,
        t: State)
    requires Fresh(c, s, path, at, prev) && Crosses(c, s, path, prev, q, at) && c.topo.IsSwitch(at.dev)
    requires prev.Some? ==> prev.value in s.rdev
    requires Shape(c, s) && at.dev < |s.lock| && t == Joined(WithSwitch(c, s, at, prev, |path|), prev, q, at.dev)
    ensures Scanning(c, t, path + [at], at.dev) && Grown(s, t, prev, q, at.dev)
    ensures at.dev in t.rdev && at.dev in t.mark && t.rdev[at.dev].inport == at.port
    ensures t.mark[at.dev].lo == t.mark[at.dev].cover == t.nextDestid == s.nextDestid
  {
    hide Inv, WithSwitch, Shape, Grown;
    var e := WithSwitch(c, s, at, prev, |path|);
    SwitchKeeps(c, s, path, at, prev, e);
    assert at.dev !in s.rdev;
    SwitchGrown(c, s, prev, q, at, |path|, t);
    if prev.Some? {
      CrossFacts(c, s, path, prev, q, at);
      assert (path + [at])[|path| - 1] == path[|path| - 1];
      OpenAt(c, e, path + [at], |path| - 1);
      NextKeeps(c, e, path + [at], prev.value, q, t);
    }
  }

  lemma {:induction false} CrossFacts(c: Mport, s: State, path: seq<End>, prev: Option<nat>, q: nat, at: End)
    requires Inv(c, s, path) && Crosses(c, s, path, prev, q, at) && prev.Some?
    ensures path != [] && prev.value == path[|path| - 1].dev && prev.value in s.rdev
    ensures End(prev.value, q) in c.topo.links && c.topo.links[End(prev.value, q)] == at
    ensures q != s.rdev[prev.value].inport
  {
    hide Owned, Listed, Ids, TreeOk, TablesOk, SpansOk, Unique, NextsOk;
    assert c.topo.links[at] in c.topo.links;
  }

  lemma {:induction false} OpenAt(c: Mport, s: State, path: seq<End>, k: nat)
    requires Inv(c, s, path) && k < |path|
    ensures Open(c, s, path, path[k].dev)
  {
    hide Owned, Listed, Ids, TreeOk, TablesOk, SpansOk, Unique, NextsOk;
  }

  lemma {:induction false} SwitchGrown(c: Mport, s: State, prev: Option<nat>, q: nat, at: End, hop: nat, t: State)
    requires at.dev !in s.rdev && (prev.Some? ==> prev.value in s.rdev)
    requires Shape(c, s) && at.dev < |s.lock| && t == Joined(WithSwitch(c, s, at, prev, hop), prev, q, at.dev)
    ensures Grown(s, t, prev, q, at.dev)
    ensures at.dev in t.rdev && at.dev in t.mark && t.rdev[at.dev].inport == at.port && !t.mark[at.dev].done
    ensures at.dev in WithSwitch(c, s, at, prev, hop).rdev
    ensures prev.Some? ==> WithSwitch(c, s, at, prev, hop).rdev[prev.value].inport == s.rdev[prev.value].inport
    ensures t.mark[at.dev].lo == t.mark[at.dev].cover == t.nextDestid == s.nextDestid
  {
  }

  lemma {:induction false} SwitchScanned(c: Mport, s: State, t: State, u: State, prev: Option<nat>, q: nat, at: End)
    requires at.dev !in s.rdev && at.dev in t.rdev && at.dev in t.mark && at.dev in u.mark
    requires Grown(s, t, prev, q, at.dev) && Kept(t, u, at.dev) && t.rdev[at.dev].inport == at.port
    requires t.mark[at.dev].lo == s.nextDestid && u.mark[at.dev].done && u.mark[at.dev].hi == u.nextDestid
    ensures Grown(s, u, prev, q, at.dev) && Scanned(c, s, u, at)
  {
    forall x <- s.rdev
      ensures x in u.rdev && s.mark[x] == u.mark[x] && s.table[x] == u.table[x] && u.rdev[x] == t.rdev[x]
    {
      assert x in t.rdev && x != at.dev;
    }
  }

  // ----- glue: the ports of a switch

  /** The link behind port `q` is on record. */
  ghost predicate Linked(c: Mport, dev: RioDev, d: nat, q: nat) {
    End(d, q) in c.topo.links && q != dev.inport ==> q in dev.nextdev
  }

  lemma {:induction false} KeptSelf(c: Mport, s: State, path: seq<End>, f: nat)
    requires Scanning(c, s, path, f)
    ensures Kept(s, s, f) && Shape(c, s) && f in s.rdev && f < |s.table| && c.topo.IsSwitch(f)
    ensures |s.devices| < |c.topo.kinds|
  {
    hide Owned, Listed, Ids, TreeOk, TablesOk, SpansOk, Unique, NextsOk;
    Room(c, s, path);
  }

  lemma {:induction false} KeptTrans(s: State, t: State, u: State, f: nat)
    requires Kept(s, t, f) && Kept(t, u, f)
    ensures Kept(s, u, f)
  {
  }

  lemma {:induction false} RecordedSelf(c: Mport, s: State, f: nat, q: nat)
    requires f in s.rdev && (End(f, q) !in c.topo.links || q == s.rdev[f].inport)
    ensures Recorded(c, s, s, f, q)
  {
  }

  lemma {:induction false} LinkedKept(c: Mport, s: State, t: State, f: nat, port: nat, q: nat)
    requires Recorded(c, s, t, f, port) && Kept(s, t, f) && f in s.rdev && f in t.rdev
    requires q == port || Linked(c, s.rdev[f], f, q)
    ensures Linked(c, t.rdev[f], f, q)
  {
  }

  /** Crossing the link behind an open port of the switch scanned last. */
  lemma {:induction false} PortOpened(c: Mport, s: State, path: seq<End>, d: nat, q: nat, at: End, t: State)
    requires Scanning(c, s, path, d) && d < |s.table| && t == WithAnyRoute(c, s, d, q)
    requires End(d, q) in c.topo.links && at == c.topo.links[End(d, q)] && q != s.rdev[d].inport
    requires |s.table| == |c.topo.kinds| && c.topo.Trail(s.table, c.anyId, path)
    requires End(c.topo.host, 0) in c.topo.links && path[0] == c.topo.FirstHop(c.topo.host)
    ensures Inv(c, t, path) && Crosses(c, t, path, Some(d), q, at)
    ensures c.topo.Trail(t.table, c.anyId, path + [at]) && at.dev < |c.topo.kinds| && at.dev != c.topo.host
  {
    hide Owned, Listed, Ids, TreeOk, TablesOk, SpansOk, Unique, NextsOk;
    AnyRouteKeeps(c, s, path, d, q, t);
    PathFacts(c, s, path, d);
    assert c.topo.OnDevice(at) by { assert at in c.topo.links; }
    var root := path[0];
    assert at == End(c.topo.host, 0) ==> End(d, q) == root;
    forall k: nat | k < |path| ensures c.topo.Hop(t.table, c.anyId, path[k], (path + [at])[k + 1]) {
      if k < |path| - 1 { assert c.topo.Hop(s.table, c.anyId, path[k], path[k + 1]); }
    }
  }

  lemma {:induction false} PathFacts(c: Mport, s: State, path: seq<End>, d: nat)
    requires Scanning(c, s, path, d)
    ensures path[|path| - 1] == End(d, s.rdev[d].inport) && c.topo.IsSwitch(d)
    ensures forall k: nat :: k < |path| - 1 ==> path[k].dev != d
    ensures forall k: nat :: k < |path| ==> path[k].dev in s.rdev
  {
    hide Owned, Listed, Ids, TreeOk, TablesOk, SpansOk, Unique, NextsOk;
  }

  /** Back at the switch, the IDs handed out meanwhile are those behind the port. */
  lemma {:induction false} PeerScanned(c: Mport, s: State, s1: State, t: State, path: seq<End>, d: nat, q: nat, at: End)
    requires Scanning(c, s, path, d) && d < |s.table| && s1 == WithAnyRoute(c, s, d, q)
    requires s.mark[d].cover == s.nextDestid
    requires End(d, q) in c.topo.links && at == c.topo.links[End(d, q)]
    requires Inv(c, t, path) && Grown(s1, t, Some(d), q, at.dev) && Scanned(c, s1, t, at)
    requires c.topo.Trail(s.table, c.anyId, path)
    ensures Shape(c, t) && c.topo.Trail(t.table, c.anyId, path) && Counts(c, t.used, t.nextDestid)
    ensures Open(c, t, path, d) && Behind(c, t, d, q) && t.mark[d].cover == s.nextDestid <= t.nextDestid
    ensures forall k: nat :: k < |path| - 1 ==> path[k].dev != d
  {
    hide Owned, Listed, TreeOk, TablesOk, SpansOk, Unique, NextsOk;
    PathFacts(c, s, path, d);
    Room(c, t, path);
    c.topo.TrailKept(s.table, t.table, c.anyId, path);
  }

  lemma {:induction false} PortRouted(c: Mport, s: State, t: State, path: seq<End>, d: nat, q: nat, u: State)
    requires Scanning(c, s, path, d) && Open(c, t, path, d) && Behind(c, t, d, q)
    requires u == WithRoutes(c, t, d, q, t.mark[d].cover)
    ensures Scanning(c, u, path, d) && u.mark[d].cover == u.nextDestid
  {
    hide Inv;
    RoutesKeep(c, t, path, d, q, u);
  }

  lemma {:induction false} PortKept(c: Mport, s: State, s1: State, t: State, d: nat, q: nat, at: nat, u: State)
    requires Shape(c, s) && d in s.rdev && d < |s.table| && s1 == WithAnyRoute(c, s, d, q)
    requires Grown(s1, t, Some(d), q, at) && d in t.rdev && d in t.mark && d < |t.table|
    requires u == WithRoutes(c, t, d, q, t.mark[d].cover)
    ensures Kept(s, u, d) && Recorded(c, s, u, d, q)
  {
  }

  lemma {:induction false} DoneReady(c: Mport, s: State, path: seq<End>, d: nat)
    requires Scanning(c, s, path, d) && c.topo.IsSwitch(d)
    requires forall q: nat :: q < c.topo.kinds[d].ports ==> Linked(c, s.rdev[d], d, q)
    ensures CanAlloc(c, s) && Counts(c, s.used, s.nextDestid)
    ensures forall q: nat :: End(d, q) in c.topo.links && q != s.rdev[d].inport ==> q in s.rdev[d].nextdev
  {
    hide Owned, Listed, TreeOk, TablesOk, SpansOk, Unique, NextsOk;
    Room(c, s, path);
    forall q: nat | End(d, q) in c.topo.links && q != s.rdev[d].inport ensures q in s.rdev[d].nextdev {
      assert c.topo.OnDevice(End(d, q)) && Linked(c, s.rdev[d], d, q);
    }
  }

  lemma {:induction false} DoneKept(c: Mport, s: State, t: State, u: State, d: nat)
    requires Kept(s, t, d) && d in t.rdev && d in t.mark && CanAlloc(c, t) && u == WithDone(c, t, d)
    ensures Kept(s, u, d)
  {
  }

  // ----- glue: the order of the walk

  lemma {:induction false} KnownOrder(c: Mport, s: State, prev: Option<nat>, q: nat, at: End, t: State)
    requires Shape(c, s) && Listed(c, s) && (prev.Some? ==> prev.value in s.rdev)
    requires at.dev == c.topo.host || at.dev in s.rdev
    requires t == Joined(s, prev, q, at.dev)
    ensures Order(t) == Visit(c, at, Order(s))
  {
    HasIs(c, s, at.dev);
    SameOrder(s, t);
  }

  lemma {:induction false} EndpointOrder(c: Mport, s: State, prev: Option<nat>, q: nat, at: End, t: State)
    requires Shape(c, s) && Listed(c, s) && CanAlloc(c, s) && (prev.Some? ==> prev.value in s.rdev)
    requires at.dev !in s.rdev && at.dev != c.topo.host && !c.topo.IsSwitch(at.dev) && at.dev < |s.lock|
    requires t == Joined(WithEndpoint(c, s, at, prev), prev, q, at.dev)
    ensures Order(t) == Visit(c, at, Order(s))
  {
    HasIs(c, s, at.dev);
    Appended(c, s, t, at.dev);
  }

  lemma {:induction false} SwitchOrder(c: Mport, s: State, prev: Option<nat>, q: nat, at: End, hop: nat, t: State)
    requires Shape(c, s) && Listed(c, s) && (prev.Some? ==> prev.value in s.rdev)
    requires at.dev !in s.rdev && at.dev < |s.lock|
    requires t == Joined(WithSwitch(c, s, at, prev, hop), prev, q, at.dev)
    ensures Order(t) == Enter(Order(s), at) && t.devices == s.devices + [at.dev] && !Has(Order(s), at.dev)
  {
    HasIs(c, s, at.dev);
    Appended(c, s, t, at.dev);
  }

  lemma {:induction false} VisitSwitch(c: Mport, s: State, at: End)
    requires at.dev != c.topo.host && !Has(Order(s), at.dev) && c.topo.IsSwitch(at.dev)
    ensures var ports := VisitPorts(c, at, c.topo.kinds[at.dev].ports, Enter(Order(s), at));
            |s.devices| < |ports.found| && Visit(c, at, Order(s)) == Leave(c, ports, |s.devices|)
  {
  }

  lemma {:induction false} NextPort(c: Mport, at: End, n: nat, w: Walk)
    ensures VisitPorts(c, at, 0, w) == w
    ensures VisitPorts(c, at, n + 1, w) == VisitPort(c, at, n, VisitPorts(c, at, n, w))
  {
  }

  lemma {:induction false} OnePort(c: Mport, at: End, port: nat, w: Walk)
    ensures VisitPort(c, at, port, w) == if port == at.port || End(at.dev, port) !in c.topo.links then w
                                         else Visit(c, c.topo.links[End(at.dev, port)], w)
  {
  }

  lemma {:induction false} TableOrder(s: State, t: State)
    requires t == s.(table := t.table)
    ensures Order(t) == Order(s)
  {
    SameOrder(s, t);
  }

  lemma {:induction false} RoutesOrder(c: Mport, s: State, d: nat, q: nat, t: State)
    requires d < |s.table| && d in s.rdev && d in s.mark && t == WithRoutes(c, s, d, q, s.mark[d].cover)
    ensures Order(t) == Order(s)
  {
    SameOrder(s, t);
  }

  /** The switch whose ports were followed is where it was in the list. */
  lemma {:induction false} SwitchLeft(c: Mport, was: State, s: State, path: seq<End>, d: nat)
    requires Scanning(c, s, path, d) && CanAlloc(c, s) && was.devices != [] && was.devices[|was.devices| - 1] == d
    requires Order(s) == VisitPorts(c, path[|path| - 1], c.topo.kinds[d].ports, Order(was))
    ensures |was.devices| <= |Order(s).found| && Order(WithDone(c, s, d)) == Leave(c, Order(s), |was.devices| - 1)
  {
    hide Owned, Ids, TreeOk, TablesOk, SpansOk, Unique, NextsOk;
    var i := |was.devices| - 1;
    assert Order(s).found[i].dev == Order(was).found[i].dev;
    assert s.devices[i] == d;
    Left(c, s, d, i);
  }

  // ----- glue: start and end of the enumeration

  lemma {:induction false} Slices(p: seq<nat>, i: nat)
    requires Trees.NoRepeat(p) && i < |p|
    ensures forall x: nat :: x in p[i..] <==> x == p[i] || x in p[i + 1..]
    ensures forall x: nat :: x in p[..i + 1] <==> x == p[i] || x in p[..i]
    ensures p[i] !in p[i + 1..]
  {
    assert p[i..] == [p[i]] + p[i + 1..] && p[..i + 1] == p[..i] + [p[i]];
  }

  /** Before the first device is found. */
  lemma {:induction false} Beginning(c: Mport, s: State, first: End)
    requires c.Valid() && |s.lock| == |s.tag| == |s.did| == |s.table| == |c.topo.kinds| && |s.used| == c.anyId + 1
    requires s.rdev == map[] && s.mark == map[] && s.devices == [] && s.switches == [] && s.nextTag == 2
    requires forall d: nat :: d < |s.lock| ==> s.lock[d] == if d == c.topo.host then c.hostId else FREE
    requires forall i: nat :: i < |s.used| ==> (s.used[i] <==> i == c.hostId || i == FirstId(c))
    requires s.nextDestid == FirstId(c)
    requires End(c.topo.host, 0) in c.topo.links && first == c.topo.FirstHop(c.topo.host)
    ensures Inv(c, s, []) && Crosses(c, s, [], None, 0, first)
  {
  }

  /** After the last one. */
  lemma {:induction false} Ending(c: Mport, s: State, t: State, first: End)
    requires Inv(c, t, []) && Grown(s, t, None, 0, first.dev) && |s.tag| == |s.did| == |c.topo.kinds|
    requires s.rdev == map[] && s.nextDestid == FirstId(c)
    requires End(c.topo.host, 0) in c.topo.links && first == c.topo.FirstHop(c.topo.host)
    requires first.dev != c.topo.host ==> Scanned(c, s, t, first)
    requires first.dev == c.topo.host ==> t == s
    requires Order(t) == Visit(c, first, Walk([], FirstId(c)))
    ensures InWalkOrder(c, t)
    ensures Walked(c, t) && Shape(c, t) && |t.lock| == |t.tag| == |t.did| == |t.table| == |c.topo.kinds|
    ensures t.nextDestid < |t.used| && c.topo.host < |s.tag| && c.topo.host < |s.did|
    ensures t.did[c.topo.host] == s.did[c.topo.host] && t.tag[c.topo.host] == s.tag[c.topo.host]
  {
    hide Owned, Listed, TreeOk, TablesOk, SpansOk, Unique, NextsOk, PathOk;
    IdsFit(c, t);
  }

  lemma {:induction false} IdsInBitmap(c: Mport, s: State)
    requires Walked(c, s)
    ensures s.nextDestid != c.hostId
    ensures forall id: nat :: id < |s.used| ==> (s.used[id] <==> id == c.hostId || id <= s.nextDestid)
  {
    hide Walked;
    HostFacts(c, s);
  }

  lemma {:induction false} Reserved(c: Mport)
    requires c.Valid()
    ensures c.hostId < c.anyId && c.topo.host < |c.topo.kinds| && c.anyId <= 0xffff && 2 <= c.anyId
  {
  }
}
