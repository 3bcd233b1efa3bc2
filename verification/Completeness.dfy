/** Discovery on a fabric that the enumeration of this model left behind finds everything. */
module Completeness {
  import opened Fabric
  import opened ScanState
  import opened Trees
  import opened TreeRoutes
  import opened Routing
  import opened Delivery
  import opened ScanOrder
  import Discovery
  import RioScan

  /** Port numbers fit the table entries, of which 0xff means none. */
  ghost predicate SmallSwitches(topo: Topology) {
    forall d: nat :: topo.IsSwitch(d) ==> topo.kinds[d].ports <= Discovery.INVALID_ROUTE
  }

  lemma {:induction false} EnumeratedRouted(c: Mport, s: State, t: State)
    requires Enumerated(c, s, t) && SmallSwitches(c.topo)
    ensures Discovery.Routed(c.topo, TreeOf(c, s), t.table, Homes(c, s), c.anyId)
    ensures forall d: nat :: d in TreeOf(c, s).rank <==> d in s.rdev || d == c.topo.host
  {
    hide Enumerated, Walked, Spans, Extends, Covered, Sound, Full, Discovery.Inhabited, Tree.Valid, SmallSwitches, Ids,
         Unique, Shape, Mport.Valid;
    EnumeratedWalk(c, s, t);
    TreeValid(c, s);
    var tree, home := TreeOf(c, s), Homes(c, s);
    SpansTree(c.topo, tree);
    HostFacts(c, s);
    ExtendsLen(c, s, t);
    ExtendedSound(c, s, t);
    EnumeratedFull(c, s, t);
    HomesInTree(c, s);
    AllInhabited(c, s);
    AllRoutesHome(c, s, t);
    assert home[c.hostId] == tree.root;
    assert forall d <- tree.rank ::
          c.topo.IsSwitch(d) ==> c.topo.kinds[d].ports <= 0xff by { hide *; SwitchesSmall(c.topo); }
  }

  lemma {:induction false} SwitchesSmall(topo: Topology)
    requires SmallSwitches(topo)
    ensures forall d: nat :: topo.IsSwitch(d) ==> topo.kinds[d].ports <= 0xff
  {
  }

  lemma {:induction false} EnumeratedWalk(c: Mport, s: State, t: State)
    requires Enumerated(c, s, t)
    ensures Walked(c, s) && Shape(c, s) && Extends(c, s, t) && !c.topo.IsSwitch(c.topo.host)
  {
  }

  lemma {:induction false} HomesInTree(c: Mport, s: State)
    requires Walked(c, s)
    ensures forall id <- Homes(c, s) :: id < c.anyId && Homes(c, s)[id] in TreeOf(c, s).rank
  {
    hide Walked, Terminal;
    TreeValid(c, s);
    IdsFit(c, s);
    forall id <- Homes(c, s) ensures id < c.anyId && Homes(c, s)[id] in TreeOf(c, s).rank {
      if id != c.hostId {
        assert HomeOf(c, s, id, Homes(c, s)[id]);
        TerminalKnown(c, s, Homes(c, s)[id]);
      }
    }
  }

  lemma {:induction false} TerminalKnown(c: Mport, s: State, x: nat)
    requires Shape(c, s) && Terminal(c, s, x)
    ensures x in s.rdev
  {
  }

  lemma {:induction false} AllInhabited(c: Mport, s: State)
    requires Walked(c, s) && Spans(c.topo, TreeOf(c, s)) && TreeOf(c, s).Valid()
    ensures forall x <- TreeOf(c, s).up :: Discovery.Inhabited(TreeOf(c, s), Homes(c, s), x)
  {
    hide Walked, Spans, Discovery.Inhabited;
    forall x <- TreeOf(c, s).up ensures Discovery.Inhabited(TreeOf(c, s), Homes(c, s), x) {
      BranchInhabited(c, s, x);
    }
  }

  lemma {:induction false} BranchInhabited(c: Mport, s: State, x: nat)
    requires Walked(c, s) && Spans(c.topo, TreeOf(c, s)) && TreeOf(c, s).Valid() && x in TreeOf(c, s).up
    ensures Discovery.Inhabited(TreeOf(c, s), Homes(c, s), x)
  {
    hide Walked, Spans;
    HomeBelow(c, s, x);
  }

  lemma {:induction false} AllRoutesHome(c: Mport, s: State, t: State)
    requires Enumerated(c, s, t) && Spans(c.topo, TreeOf(c, s)) && |t.table| == |c.topo.kinds|
    ensures forall d, id :: d in TreeOf(c, s).rank && c.topo.IsSwitch(d) && id in t.table[d] && id != c.anyId ==>
              id in Homes(c, s)
  {
    hide Enumerated, Walked, Spans;
    EnumeratedWalk(c, s, t);
    forall d, id | d in TreeOf(c, s).rank && c.topo.IsSwitch(d) && id in t.table[d] && id != c.anyId
          ensures id in Homes(c, s) {
      RoutesHaveHomes(c, s, t, d, id);
    }
  }

  lemma {:induction false} RoutesHaveHomes(c: Mport, s: State, t: State, d: nat, id: nat)
    requires Enumerated(c, s, t) && Spans(c.topo, TreeOf(c, s)) && c.topo.IsSwitch(d) && d < |t.table|
    requires d in s.rdev && id in t.table[d] && id != c.anyId
    ensures id in Homes(c, s)
  {
    hide Walked, Spans;
    assert Patched(c, s, t, d);
    PatchLeads(c, s, t, d, id);
  }

  /** Discovery completeness: an agent at any endpoint but the enumerating host ends with exactly
      one record of every other device, the host included, and reads the IDs and tags that the
      enumeration gave out.  All locks are free again. */
  method Discover(c: Mport, ghost s: State, ghost t: State, lock: seq<nat>, tag: seq<nat>, did: seq<nat>,
        tables: Tables, self: nat)
    returns (agent: Discovery.Agent, ghost walked: seq<nat>)
    requires Enumerated(c, s, t) && SmallSwitches(c.topo) && tables == t.table && tag == s.tag && did == s.did
    requires |lock| == |c.topo.kinds| && forall d: nat :: d < |lock| ==> lock[d] == FREE
    requires self in s.rdev && !c.topo.IsSwitch(self) && did[c.topo.host] == c.hostId
    ensures NoRepeat(agent.devices)
    ensures forall x: nat :: x in agent.devices <==> x != self && (x in s.rdev || x == c.topo.host)
    ensures forall x: nat :: x in agent.rdev <==> x in agent.devices
    ensures forall x <- agent.rdev :: x in s.rdev ==> agent.rdev[x].compTag == s.rdev[x].compTag
    ensures forall x <- agent.rdev :: !c.topo.IsSwitch(x) && (x in s.rdev || x == c.topo.host) ==>
              agent.rdev[x].destid == IdOf(c, s, x)
    ensures |agent.lock| == |lock| && forall d: nat :: d < |lock| ==> agent.lock[d] == FREE
    ensures agent.topo == c.topo && agent.tables == tables && agent.self == self && agent.ownId == did[self]
    ensures agent.World() && agent.Listed() && forall x <- agent.switches :: agent.Copied(agent.rdev, x)
    ensures forall x <- agent.rdev :: agent.rdev[x].inport == agent.InPort(x)
    ensures agent.AllNeighbours()
    ensures agent.tree.root == c.topo.host && forall x: nat :: x in agent.tree.rank <==> x in s.rdev || x == c.topo.host
    ensures |walked| == |lock|
    ensures forall d: nat :: d < |lock| ==> walked[d] == if agent.StaysLocked(d) then agent.ownId else FREE
  {
    hide Walked, Discovery.Routed, Spans, Discovery.Agent.LeftLocked, Discovery.Agent.InPort,
         Discovery.Agent.AllNeighbours, Discovery.Agent.StaysLocked;
    EnumeratedRouted(c, s, t);
    EndpointRecord(c, s, self);
    HostFacts(c, s);
    WorldSizes(c, s, t);
    agent := new Discovery.Agent(c.topo, tables, tag, did, lock, c.anyId, self, TreeOf(c, s), Homes(c, s));
    walked := agent.DiscMport();
    forall x <- agent.rdev ensures agent.rdev[x].inport == agent.InPort(x) {
      assert x in agent.devices && agent.Read(agent.rdev, x);
    }
    forall x <- agent.rdev ensures x in s.rdev ==> agent.rdev[x].compTag == s.rdev[x].compTag
      ensures !c.topo.IsSwitch(x) && (x in s.rdev || x == c.topo.host) ==> agent.rdev[x].destid == IdOf(c, s, x)
    {
      assert x in agent.devices && agent.Read(agent.rdev, x);
      if x in s.rdev {
        DeviceFacts(c, s, x);
        if !c.topo.IsSwitch(x) { EndpointRecord(c, s, x); }
      }
    }
  }

  lemma {:induction false} WorldSizes(c: Mport, s: State, t: State)
    requires Enumerated(c, s, t)
    ensures |s.tag| == |s.did| == |c.topo.kinds| == |t.table| && End(c.topo.host, 0) in c.topo.links
    ensures c.hostId < c.anyId <= FREE
  {
  }

  lemma {:induction false} EndpointRecord(c: Mport, s: State, x: nat)
    requires Walked(c, s) && x in s.rdev && !c.topo.IsSwitch(x)
    ensures x < |s.did| && s.did[x] == s.rdev[x].destid && s.did[x] < c.anyId && x != c.topo.host
    ensures End(x, 0) in c.topo.links
  {
    hide Walked, Spans, TableAt, NextAt, Attached, Ids, Unique;
    DeviceFacts(c, s, x);
    DestIdRange(c, s, x);
    HostFacts(c, s);
    Discovery.OnlyPort(c.topo, End(x, s.rdev[x].inport));
  }

  // ----- from reset to discovery

  /** Linked to the host, over any number of links. */
  ghost predicate Reachable(topo: Topology, x: nat) {
    exists devs: seq<nat> :: devs != [] && devs[0] == topo.host && devs[|devs| - 1] == x && Chain(topo, devs)
  }

  lemma {:induction false} FoundIsReachable(c: Mport, s: State, x: nat)
    requires Walked(c, s) && x in s.rdev
    ensures Reachable(c.topo, x)
    decreases s.rdev[x].compTag
  {
    hide Walked, Spans;
    NodeFacts(c, s, x);
    TreeNodes(c, s);
    var u := TreeOf(c, s).up[x];
    assert Neighbours(c.topo, u.dev, x);
    var devs: seq<nat> := [u.dev];
    if u.dev == c.topo.host {
      assert Chain(c.topo, devs);
    } else {
      NodeFacts(c, s, u.dev);
      FoundIsReachable(c, s, u.dev);
      devs :| devs != [] && devs[0] == c.topo.host && devs[|devs| - 1] == u.dev && Chain(c.topo, devs);
    }
    ChainMore(c.topo, devs, x);
  }

  lemma {:induction false} ChainMore(topo: Topology, devs: seq<nat>, x: nat)
    requires devs != [] && Chain(topo, devs) && Neighbours(topo, devs[|devs| - 1], x)
    ensures Chain(topo, devs + [x])
  {
    var all := devs + [x];
    forall k: nat | k < |all| - 1 ensures Neighbours(topo, all[k], all[k + 1]) {
      if k < |devs| - 1 { assert Neighbours(topo, devs[k], devs[k + 1]); }
    }
  }

  lemma {:induction false} ReachableIsFound(c: Mport, s: State, x: nat)
    requires Walked(c, s) && Reachable(c.topo, x)
    ensures x == c.topo.host || x in s.rdev
  {
    hide Walked;
    var devs: seq<nat> :| devs != [] && devs[0] == c.topo.host && devs[|devs| - 1] == x && Chain(c.topo, devs);
    AllReachableSetUp(c, s, devs);
  }

  lemma {:induction false} HostLinked(topo: Topology, x: nat)
    requires topo.Valid() && Reachable(topo, x) && x != topo.host
    ensures End(topo.host, 0) in topo.links
  {
    var devs: seq<nat> :| devs != [] && devs[0] == topo.host && devs[|devs| - 1] == x && Chain(topo, devs);
    assert Neighbours(topo, devs[0], devs[1]);
    var q: nat :| End(topo.host, q) in topo.links && topo.links[End(topo.host, q)].dev == devs[1];
    assert topo.OnDevice(End(topo.host, q));
  }

  /** On any fabric, whatever its registers held: the host enumerates it, then an agent at any other
      endpoint linked to the host discovers it and finds exactly the other devices linked to the host. */
  method EnumerateAndDiscover(c: Mport, tag: seq<nat>, did: seq<nat>, table: Tables, self: nat)
    returns (agent: Discovery.Agent, ghost walked: seq<nat>, ghost s: State)
    requires c.Valid() && SmallSwitches(c.topo) && |tag| == |did| == |table| == |c.topo.kinds|
    requires !c.topo.IsSwitch(self) && self != c.topo.host && Reachable(c.topo, self)
    ensures NoRepeat(agent.devices) && forall x: nat :: x in agent.devices <==> x != self && Reachable(c.topo, x)
    ensures agent.World() && agent.Listed() && agent.topo == c.topo && agent.self == self
    ensures agent.tree.root == c.topo.host
    ensures forall x: nat :: x in agent.tree.rank <==> Reachable(c.topo, x)
    ensures agent.AllNeighbours() && End(c.topo.host, 0) in c.topo.links && NumberedBy(s, WholeWalk(c))
    ensures forall x <- agent.rdev :: x == c.topo.host || x in s.rdev
    ensures forall x <- agent.rdev :: x in s.rdev ==> agent.rdev[x].compTag == s.rdev[x].compTag
    ensures forall x <- agent.rdev :: !c.topo.IsSwitch(x) ==>
              agent.rdev[x].destid == if x == c.topo.host then c.hostId else s.rdev[x].destid
    ensures |walked| == |c.topo.kinds|
    ensures forall d: nat :: d < |walked| ==> walked[d] == if agent.StaysLocked(d) then agent.ownId else FREE
    ensures |agent.lock| == |c.topo.kinds| && forall d: nat :: d < |agent.lock| ==> agent.lock[d] == FREE
  {
    hide Discovery.Routed, Enumerated, Walked, Reachable, NumberedBy, Discovery.Agent.StaysLocked,
         Discovery.Agent.AllNeighbours, Discovery.Agent.Lists, Discovery.Agent.World;
    HostLinked(c.topo, self);
    var scan := new RioScan.Scan(c, tag, did, table);
    var rc: int;
    rc, s := scan.EnumMport();
    ghost var t := scan.S();
    FoundExactly(c, s, t);
    agent, walked := Discover(c, s, t, scan.lock, scan.tag, scan.did, scan.table, self);
  }

  lemma {:induction false} FoundExactly(c: Mport, s: State, t: State)
    requires Enumerated(c, s, t)
    ensures forall x: nat :: Reachable(c.topo, x) <==> x in s.rdev || x == c.topo.host
  {
    hide Walked, Reachable, Shape, Extends, Covered;
    HostReachable(c.topo);
    forall x: nat ensures Reachable(c.topo, x) <==> x in s.rdev || x == c.topo.host {
      if x in s.rdev { FoundIsReachable(c, s, x); }
      if Reachable(c.topo, x) { ReachableIsFound(c, s, x); }
    }
  }

  lemma {:induction false} HostReachable(topo: Topology)
    ensures Reachable(topo, topo.host)
  {
    var devs: seq<nat> := [topo.host];
    assert Chain(topo, devs);
  }

  // ----- a fabric with redundant links

  /** A host and an endpoint with a switch between them, which two more ports link to itself. */
  function SmallFabric(): (t: Topology)
  {
    Topology([Endpoint, Switch(4), Endpoint],
             map[End(0, 0) := End(1, 0), End(1, 0) := End(0, 0), End(1, 1) := End(2, 0), End(2, 0) := End(1, 1),
                 End(1, 2) := End(1, 3), End(1, 3) := End(1, 2)], 0)
  }

  lemma {:induction false} SmallFabricValid()
    ensures Mport(SmallFabric(), 5, 0xff).Valid() && SmallSwitches(SmallFabric())
  {
    var t := SmallFabric();
    var switches := set d | 0 <= d < |t.kinds| && t.IsSwitch(d);
    assert switches == {1};
  }

  lemma {:induction false} SmallReachable(x: nat)
    ensures Reachable(SmallFabric(), x) <==> x < 3
  {
    var t := SmallFabric();
    var all: seq<nat> := [0, 1, 2];
    assert Neighbours(t, all[0], all[1]) by { assert End(0, 0) in t.links && t.links[End(0, 0)].dev == 1; }
    assert Neighbours(t, all[1], all[2]) by { assert End(1, 1) in t.links && t.links[End(1, 1)].dev == 2; }
    assert Chain(t, all[..1]) && Chain(t, all[..2]) && Chain(t, all[..3]);
    if x < 3 {
      var devs := all[..x + 1];
      assert Chain(t, devs) && devs[|devs| - 1] == x;
    }
    if Reachable(t, x) {
      var devs: seq<nat> :| devs != [] && devs[0] == t.host && devs[|devs| - 1] == x && Chain(t, devs);
      if |devs| > 1 { assert Neighbours(t, devs[|devs| - 2], devs[|devs| - 1]); }
    }
  }

  /** Discovery by the other endpoint of the small fabric finds the host and the switch, and its walk
      leaves the switch locked, since the last port of the switch is on a redundant link. */
  method DiscoverSmallFabric() returns (devices: seq<nat>, rdev: map<nat, RioDev>, ghost walked: seq<nat>)
    ensures NoRepeat(devices) && forall x: nat :: x in devices <==> x == 0 || x == 1
    ensures |walked| == 3 && walked[0] == FREE && walked[1] != FREE && walked[2] == FREE
    ensures 0 in rdev && 1 in rdev && rdev[0].prev == Some(1) && rdev[1].prev == None && rdev[1].nextdev == map[0 := 0]
  {
    hide Discovery.Routed, Reachable, Discovery.Agent.LeftLocked, Discovery.Agent.StaysLocked;
    SmallFabricValid();
    forall x: nat ensures Reachable(SmallFabric(), x) <==> x < 3 { SmallReachable(x); }
    var agent;
    ghost var s;
    agent, walked, s := EnumerateAndDiscover(Mport(SmallFabric(), 5, 0xff), [0, 0, 0], [0, 0, 0], [map[], map[], map[]],
          2);
    SmallStaysLocked(agent);
    SmallNeighbours(agent);
    devices, rdev := agent.devices, agent.rdev;
  }

  lemma {:induction false} SmallLinks(p: nat, q: nat)
    ensures var t := SmallFabric();
            && !t.IsSwitch(0) && t.IsSwitch(1) && !t.IsSwitch(2)
            && (End(1, p) in t.links ==>
                  (p == 0 && t.links[End(1, p)] == End(0, 0)) || (p == 1 && t.links[End(1, p)] == End(2, 0))
                                         || t.links[End(1, p)].dev == 1)
            && (End(2, q) in t.links ==> t.links[End(2, q)] == End(1, 1))
  {
  }

  lemma {:induction false} SmallTree(tree: Tree)
    requires Spans(SmallFabric(), tree) && tree.root == 0 && forall x: nat :: x in tree.rank <==> x < 3
    ensures 1 in tree.up && 2 in tree.up && tree.up[1] == End(0, 0) && tree.inport[1] == 0 && tree.up[2] == End(1, 1)
  {
    hide SmallFabric;
    assert 1 in tree.up && 2 in tree.up && tree.up[1].dev != 1;
    assert Attached(SmallFabric(), tree, 1) && Attached(SmallFabric(), tree, 2);
    SmallLinks(tree.inport[1], tree.inport[2]);
  }

  lemma {:induction false} SmallNeighbours(agent: Discovery.Agent)
    requires agent.World() && agent.topo == SmallFabric() && agent.self == 2 && agent.AllNeighbours()
    requires forall x: nat :: x in agent.tree.rank <==> x < 3
    ensures 0 in agent.rdev && 1 in agent.rdev && agent.rdev[0].prev == Some(1) && agent.rdev[1].prev == None
    ensures agent.rdev[1].nextdev == map[0 := 0]
  {
    hide Discovery.Agent.World, Discovery.Agent.InPort, Discovery.Agent.Neighbours, Discovery.Agent.Branch;
    hide Topology.Valid;
    agent.FirstEntered();
    agent.NeighbourFacts(0);
    agent.NeighbourFacts(1);
    SmallEnds(agent.rdev[0].inport);
    forall q: nat | End(1, q) in agent.topo.links ensures q in agent.rdev[1].nextdev <==> q == 0 {
      SmallEnds(q);
      agent.NeighboursMatch(1, q);
    }
    SmallEnds(0);
    agent.NeighboursMatch(1, 0);
  }

  lemma {:induction false} SmallEnds(q: nat)
    ensures var links := SmallFabric().links;
            && End(1, 0) in links && links[End(1, 0)] == End(0, 0)
            && End(2, 0) in links && links[End(2, 0)] == End(1, 1)
            && (End(0, q) in links ==> q == 0)
            && (End(1, q) in links && q != 0 ==>
                  links[End(1, q)] == End(2, 0) || (links[End(1, q)].dev == 1 && links[End(1, q)].port != 1))
  {
  }

  lemma {:induction false} SmallStaysLocked(agent: Discovery.Agent)
    requires agent.World() && agent.topo == SmallFabric() && agent.self == 2 && agent.tree.root == 0
    requires forall x: nat :: x in agent.tree.rank <==> x < 3
    ensures agent.ownId != FREE && agent.StaysLocked(1) && !agent.StaysLocked(0) && !agent.StaysLocked(2)
  {
    hide Discovery.Routed, Discovery.Agent.Unrouted;
    agent.SpansWorld();
    var tree := agent.tree;
    SpansTree(agent.topo, tree);
    SmallTree(tree);
    assert tree.Anc(1, 2) && tree.Toward(1, 2) == 2 && tree.Dir(1, 2) == 1;
    assert !tree.Anc(1, 0) && tree.Dir(1, 0) == 0;
    agent.UnroutedIs(1, 3);
    assert agent.Branch(1, 3) == {};
    assert agent.Tried(1, 3) && agent.RestUnrouted(1, 3, 4);
  }
}
