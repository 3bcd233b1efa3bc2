/** State of an enumeration: the device registers it touches, the driver's records, and the
    depth-first marks that the proofs add.  `Inv` is what every step of the walk keeps. */
module ScanState {
  import opened Fabric

  /** The enumerating master port: the fabric it sits in, its own destination ID, and the
      reserved "any device" ID, which is also the largest ID of the system size. */
  datatype Mport = Mport(topo: Topology, hostId: nat, anyId: nat) {
    ghost predicate Valid() {
      && topo.Valid() && hostId < anyId && (anyId == 0xff || anyId == 0xffff)
      && |topo.kinds| < anyId
      && |set d | 0 <= d < |topo.kinds| && topo.IsSwitch(d)| <= 0xff
    }
  }

  /** A `struct rio_dev` with its `struct rio_switch`; an ID absent from `route` stands for
      RIO_INVALID_ROUTE.  Pointers to such records are named by the device they describe. */
  datatype RioDev = RioDev(compTag: nat, destid: nat, hopcount: nat, inport: nat,
                           prev: Option<nat>, nextdev: map<nat, nat>, route: map<nat, nat>)

  /** `next_destid` when the walk entered a device, the IDs its table already covers, and
      `next_destid` when the walk left it. */
  datatype Mark = Mark(lo: nat, cover: nat, hi: nat, done: bool)

  datatype State = State(lock: seq<nat>, tag: seq<nat>, did: seq<nat>, table: Tables,
                         used: seq<bool>, nextDestid: nat, nextTag: nat,
                         rdev: map<nat, RioDev>, devices: seq<nat>, switches: seq<nat>,
                         mark: map<nat, Mark>)

  // ----- the invariant, part by part

  ghost predicate Shape(c: Mport, s: State) {
    && |s.lock| == |s.tag| == |s.did| == |s.table| == |c.topo.kinds|
    && |s.used| == c.anyId + 1
    && (forall d: nat :: d in s.mark <==> d in s.rdev)
    && (forall d <- s.rdev :: d < |c.topo.kinds| && d != c.topo.host)
  }

  ghost predicate Owned(c: Mport, s: State)
    requires Shape(c, s)
  {
    forall d: nat :: 0 <= d < |s.lock| ==>
      s.lock[d] == if d == c.topo.host || d in s.rdev then c.hostId else FREE
  }

  /** Component tags number the device list. */
  ghost predicate Listed(c: Mport, s: State)
    requires Shape(c, s)
  {
    && s.nextTag == |s.devices| + 2
    && (forall i: nat :: 0 <= i < |s.devices| ==> s.devices[i] in s.rdev && s.rdev[s.devices[i]].compTag == i + 2)
    && (forall d <- s.rdev :: 2 <= s.rdev[d].compTag < s.nextTag && s.devices[s.rdev[d].compTag - 2] == d
                              && s.tag[d] == s.rdev[d].compTag)
    && (forall d: nat :: d in s.switches <==> d in s.rdev && c.topo.IsSwitch(d))
  }

  function FirstId(c: Mport): nat { if c.hostId == 0 then 1 else 0 }

  /** The bitmap holds the host's ID and all IDs up to the next one to give out. */
  ghost predicate Ids(c: Mport, s: State)
    requires Shape(c, s)
  {
    && (forall i: nat :: 0 <= i < |s.used| ==> (s.used[i] <==> i == c.hostId || i <= s.nextDestid))
    && FirstId(c) <= s.nextDestid && s.nextDestid != c.hostId
  }

  ghost function UpEnd(c: Mport, s: State, d: nat): End
    requires d in s.rdev && End(d, s.rdev[d].inport) in c.topo.links
  {
    c.topo.links[End(d, s.rdev[d].inport)]
  }

  /** Every device hangs below the host or below a switch found before it. */
  ghost predicate TreeAt(c: Mport, s: State, d: nat)
    requires d in s.rdev
  {
    && End(d, s.rdev[d].inport) in c.topo.links
    && var u := UpEnd(c, s, d);
    && (u.dev != c.topo.host ==>
          && u.dev in s.rdev && c.topo.IsSwitch(u.dev)
          && s.rdev[u.dev].compTag < s.rdev[d].compTag && s.rdev[u.dev].hopcount < 0xff)
    && s.rdev[d].prev == (if u.dev == c.topo.host then None else Some(u.dev))
    && s.rdev[d].hopcount == if !c.topo.IsSwitch(d) then 0xff
                             else if u.dev == c.topo.host then 0
                             else s.rdev[u.dev].hopcount + 1
  }

  ghost predicate TreeOk(c: Mport, s: State) {
    forall d <- s.rdev :: TreeAt(c, s, d)
  }

  /** `q` is the port of switch `d` to a finished child whose ID interval holds `id`. */
  ghost predicate ChildHolds(c: Mport, s: State, d: nat, q: nat, id: nat)
    requires Shape(c, s)
  {
    && End(d, q) in c.topo.links
    && var e := c.topo.links[End(d, q)];
    && e.dev in s.rdev && s.rdev[e.dev].inport == e.port
    && s.mark[e.dev].done && s.mark[e.dev].lo <= id < s.mark[e.dev].hi
  }

  /** What a switch's table holds: known IDs back to the host, covered IDs down to a child. */
  ghost predicate TableAt(c: Mport, s: State, d: nat)
    requires Shape(c, s) && d in s.rdev
  {
    var r, m := s.rdev[d].route, s.mark[d];
    && r == s.table[d] - {c.anyId}
    && m.lo <= m.cover <= s.nextDestid
    && (forall id: nat :: id in r <==> id < m.cover || id == c.hostId)
    && (forall id <- r :: id < m.lo || id == c.hostId ==> r[id] == s.rdev[d].inport)
    && (forall id <- r :: m.lo <= id && id != c.hostId ==> ChildHolds(c, s, d, r[id], id))
  }

  ghost predicate TablesOk(c: Mport, s: State)
    requires Shape(c, s)
  {
    forall d <- s.rdev :: c.topo.IsSwitch(d) ==> TableAt(c, s, d)
  }

  /** `id` is the only assignable ID in `lo..hi`. */
  ghost predicate OnlyId(c: Mport, lo: nat, hi: nat) {
    lo != c.hostId && hi == Succ(c, lo)
  }

  ghost predicate SpanAt(c: Mport, s: State, d: nat)
    requires Shape(c, s) && d in s.rdev && TreeAt(c, s, d)
  {
    var m, u := s.mark[d], UpEnd(c, s, d).dev;
    && FirstId(c) <= m.lo <= s.nextDestid && m.lo != c.hostId
    && (u in s.rdev ==> s.mark[u].lo <= m.lo && (s.mark[u].done ==> m.done && m.hi <= s.mark[u].cover))
    && (m.done ==>
          && m.lo < m.hi <= s.nextDestid && s.rdev[d].destid == m.lo
          && (c.topo.IsSwitch(d) ==> m.cover == m.hi || (m.cover == m.lo && OnlyId(c, m.lo, m.hi)))
          && (!c.topo.IsSwitch(d) ==> s.did[d] == m.lo && OnlyId(c, m.lo, m.hi)))
    && (!m.done ==> c.topo.IsSwitch(d) && s.rdev[d].destid == c.anyId)
  }

  ghost predicate SpansOk(c: Mport, s: State)
    requires Shape(c, s) && TreeOk(c, s)
  {
    forall d <- s.rdev :: SpanAt(c, s, d)
  }

  /** Devices at which an ID ends: endpoints, and switches with nothing below them. */
  ghost predicate Terminal(c: Mport, s: State, d: nat)
    requires Shape(c, s)
  {
    d in s.rdev && s.mark[d].done && (c.topo.IsSwitch(d) ==> s.mark[d].cover == s.mark[d].lo)
  }

  ghost predicate Unique(c: Mport, s: State)
    requires Shape(c, s)
  {
    forall d: nat, e: nat :: Terminal(c, s, d) && Terminal(c, s, e) && d != e ==> s.mark[d].lo != s.mark[e].lo
  }

  /** `nextdev` of a switch names the devices really at the other ends of its links. */
  ghost predicate NextAt(c: Mport, s: State, d: nat)
    requires d in s.rdev && d in s.mark
  {
    && (forall q <- s.rdev[d].nextdev :: End(d, q) in c.topo.links && q != s.rdev[d].inport
          && s.rdev[d].nextdev[q] == c.topo.links[End(d, q)].dev && s.rdev[d].nextdev[q] in s.rdev)
    && (s.mark[d].done ==> forall q: nat ::
          End(d, q) in c.topo.links && q != s.rdev[d].inport ==> q in s.rdev[d].nextdev)
  }

  ghost predicate NextsOk(c: Mport, s: State)
    requires Shape(c, s)
  {
    forall d <- s.rdev :: c.topo.IsSwitch(d) ==> NextAt(c, s, d)
  }

  /** `path` lists the switches being scanned, from the host outwards, with their arrival ports.
      Each of them may still need an ID of its own. */
  ghost predicate PathOk(c: Mport, s: State, path: seq<End>)
    requires Shape(c, s)
  {
    && (forall k: nat :: 0 <= k < |path| ==>
          && path[k].dev in s.rdev && c.topo.IsSwitch(path[k].dev) && !s.mark[path[k].dev].done
          && s.rdev[path[k].dev].inport == path[k].port && s.rdev[path[k].dev].hopcount == k)
    && (forall d <- s.rdev :: !s.mark[d].done ==> s.rdev[d].hopcount < |path| && path[s.rdev[d].hopcount].dev == d)
    && s.nextDestid + |path| <= |s.devices| + (if c.hostId < s.nextDestid then 1 else 0)
  }

  ghost predicate Inv(c: Mport, s: State, path: seq<End>) {
    && c.Valid()
    && Shape(c, s) && Owned(c, s) && Listed(c, s) && Ids(c, s) && TreeOk(c, s)
    && TablesOk(c, s) && SpansOk(c, s) && Unique(c, s) && NextsOk(c, s) && PathOk(c, s, path)
  }

  // ----- the steps

  /** The ID after `id` that the bitmap gives out. */
  function Succ(c: Mport, id: nat): nat {
    if id + 1 == c.hostId then id + 2 else id + 1
  }

  ghost predicate CanAlloc(c: Mport, s: State) {
    Succ(c, s.nextDestid) < |s.used|
  }

  /** `rio_destid_alloc` in a state that satisfies `Ids`. */
  ghost function Alloc(c: Mport, s: State): State
    requires CanAlloc(c, s)
  {
    var next := Succ(c, s.nextDestid);
    s.(used := s.used[next := true], nextDestid := next)
  }

  /** A new endpoint behind `at`, with the next ID. */
  ghost function WithEndpoint(c: Mport, s: State, at: End, prev: Option<nat>): State
    requires Shape(c, s) && at.dev < |s.lock| && CanAlloc(c, s)
  {
    var next := Succ(c, s.nextDestid);
    Alloc(c, s).(lock := s.lock[at.dev := c.hostId], tag := s.tag[at.dev := s.nextTag],
      did := s.did[at.dev := s.nextDestid], nextTag := s.nextTag + 1,
      rdev := s.rdev[at.dev := RioDev(s.nextTag, s.nextDestid, 0xff, at.port, prev, map[], map[])],
      devices := s.devices + [at.dev],
      mark := s.mark[at.dev := Mark(s.nextDestid, s.nextDestid, next, true)])
  }

  /** Routes for the assignable IDs in `lo..hi` through port `q`. */
  ghost function Span(c: Mport, lo: nat, hi: nat, q: nat): (r: Table)
    ensures forall id: nat :: id in r <==> lo <= id < hi && id != c.hostId
    ensures forall id <- r :: r[id] == q
  {
    if hi <= lo then map[]
    else if hi - 1 == c.hostId then Span(c, lo, hi - 1, q)
    else Put(Span(c, lo, hi - 1, q), hi - 1, q)
  }

  /** All IDs given out so far, and the host's, through one port. */
  ghost function Back(c: Mport, s: State, port: nat): map<nat, nat> {
    Put(Span(c, 0, s.nextDestid, port), c.hostId, port)
  }

  /** A new switch behind `at`, its table cleared. */
  ghost function WithBlank(c: Mport, s: State, at: End, prev: Option<nat>, hop: nat): State
    requires Shape(c, s) && at.dev < |s.lock|
  {
    s.(lock := s.lock[at.dev := c.hostId], tag := s.tag[at.dev := s.nextTag],
       table := s.table[at.dev := map[]], nextTag := s.nextTag + 1,
       rdev := s.rdev[at.dev := RioDev(s.nextTag, c.anyId, hop, at.port, prev, map[], map[])],
       devices := s.devices + [at.dev], switches := s.switches + [at.dev],
       mark := s.mark[at.dev := Mark(s.nextDestid, s.nextDestid, s.nextDestid, false)])
  }

  /** The same with its table leading back to everything known. */
  ghost function WithSwitch(c: Mport, s: State, at: End, prev: Option<nat>, hop: nat): State
    requires Shape(c, s) && at.dev < |s.lock|
  {
    s.(lock := s.lock[at.dev := c.hostId], tag := s.tag[at.dev := s.nextTag],
       table := s.table[at.dev := Back(c, s, at.port)], nextTag := s.nextTag + 1,
       rdev := s.rdev[at.dev := RioDev(s.nextTag, c.anyId, hop, at.port, prev, map[], Back(c, s, at.port))],
       devices := s.devices + [at.dev], switches := s.switches + [at.dev],
       mark := s.mark[at.dev := Mark(s.nextDestid, s.nextDestid, s.nextDestid, false)])
  }

  /** Records `child` as what port `q` of switch `d` leads to. */
  ghost function WithNext(s: State, d: nat, q: nat, child: nat): State
    requires d in s.rdev
  {
    s.(rdev := s.rdev[d := s.rdev[d].(nextdev := s.rdev[d].nextdev[q := child])])
  }

  /** The temporary route for the "any device" ID. */
  ghost function WithAnyRoute(c: Mport, s: State, d: nat, q: nat): State
    requires d < |s.table|
  {
    s.(table := s.table[d := Put(s.table[d], c.anyId, q)])
  }

  ghost function WithRoutes(c: Mport, s: State, d: nat, q: nat, lo: nat): State
    requires d < |s.table| && d in s.rdev && d in s.mark
  {
    var span := Span(c, lo, s.nextDestid, q);
    s.(table := s.table[d := s.table[d] + span],
       rdev := s.rdev[d := s.rdev[d].(route := s.rdev[d].route + span)],
       mark := s.mark[d := s.mark[d].(cover := s.nextDestid)])
  }

  /** Leaving a switch: an empty one consumes an ID of its own. */
  ghost function WithDone(c: Mport, s: State, d: nat): State
    requires d in s.rdev && d in s.mark && CanAlloc(c, s)
  {
    var t := if s.nextDestid == s.mark[d].lo then Alloc(c, s) else s;
    t.(rdev := s.rdev[d := s.rdev[d].(destid := s.mark[d].lo)],
       mark := s.mark[d := s.mark[d].(hi := t.nextDestid, done := true)])
  }
}
