/** What an enumerated fabric's IDs and route tables mean: ID intervals, homes, and directions. */
module Routing {
  import opened Fabric
  import opened ScanState
  import opened Trees
  import opened TreeRoutes
  import opened ScanLemmas

  /** The walk is over: everything is done and the first device took all the IDs. */
  ghost predicate Walked(c: Mport, s: State) {
    && Inv(c, s, []) && End(c.topo.host, 0) in c.topo.links
    && var root := c.topo.FirstHop(c.topo.host);
    && (root.dev == c.topo.host ==> s.rdev == map[] && s.nextDestid == FirstId(c))
    && (root.dev != c.topo.host ==> root.dev in s.rdev && root.dev in s.mark && s.rdev[root.dev].inport == root.port
                                    && s.mark[root.dev].lo == FirstId(c) && s.mark[root.dev].hi == s.nextDestid)
  }

  /** The facts about one device. */
  lemma {:induction false} DeviceFacts(c: Mport, s: State, d: nat)
    requires Walked(c, s) && d in s.rdev
    ensures Shape(c, s) && d in s.mark && s.mark[d].done && TreeAt(c, s, d) && SpanAt(c, s, d)
    ensures s.rdev[d].compTag >= 2 && s.tag[d] == s.rdev[d].compTag
    ensures c.topo.IsSwitch(d) ==> TableAt(c, s, d) && NextAt(c, s, d)
  {
    hide Owned, Ids, Unique, TreeAt, SpanAt, TableAt, NextAt;
  }

  /** The depth-first tree, ranked by component tags; the host is its root. */
  ghost function TreeOf(c: Mport, s: State): Tree
    requires Walked(c, s)
  {
    hide Walked, SpanAt, TableAt, NextAt;
    Tree(c.topo.host,
         map d | d in s.rdev :: (DeviceFacts(c, s, d); UpEnd(c, s, d)),
         map d | d in s.rdev :: s.rdev[d].inport,
         (map d | d in s.rdev :: s.rdev[d].compTag)[c.topo.host := 1])
  }

  lemma {:induction false} NodeFacts(c: Mport, s: State, x: nat)
    requires Walked(c, s) && x in s.rdev
    ensures var t := TreeOf(c, s);
            && x in t.up && x in t.inport && x in t.rank && Attached(c.topo, t, x)
            && t.up[x].dev in t.rank && t.rank[t.up[x].dev] < t.rank[x] && t.root == c.topo.host
            && x != c.topo.host && t.rank[x] == s.rdev[x].compTag && t.inport[x] == s.rdev[x].inport
            && t.up[x] in c.topo.links && c.topo.links[t.up[x]] == End(x, t.inport[x])
  {
    hide Inv;
    DeviceFacts(c, s, x);
    HostFacts(c, s);
  }

  lemma {:induction false} TreeNodes(c: Mport, s: State)
    requires Walked(c, s)
    ensures var t := TreeOf(c, s);
            && t.root == c.topo.host && c.topo.Valid() && !c.topo.IsSwitch(c.topo.host) && c.topo.host < |c.topo.kinds|
            && c.topo.host !in s.rdev
            && (forall x: nat :: x in t.up <==> x in s.rdev) && (forall x: nat :: x in t.inport <==> x in s.rdev)
            && (forall x: nat :: x in t.rank <==> x in s.rdev || x == c.topo.host)
  {
    hide Walked, Shape, Ids, Unique;
    HostFacts(c, s);
  }

  lemma {:induction false} TreeValid(c: Mport, s: State)
    requires Walked(c, s)
    ensures Spans(c.topo, TreeOf(c, s))
    ensures forall d: nat :: d in TreeOf(c, s).rank <==> d in s.rdev || d == c.topo.host
  {
    hide Walked, Attached, TreeOf, Topology.Valid;
    TreeNodes(c, s);
    var t := TreeOf(c, s);
    forall x <- t.up
      ensures t.up[x].dev in t.rank && x in t.rank && t.rank[t.up[x].dev] < t.rank[x] && x in t.inport
      ensures Attached(c.topo, t, x)
      ensures t.up[x].dev in t.inport ==> t.inport[t.up[x].dev] != t.up[x].port
    {
      NodeFacts(c, s, x);
      InportIsUp(c, s, x);
    }
    forall x, y | x in t.up && y in t.up && t.up[x] == t.up[y] ensures x == y {
      OwnUp(c, s, x, y);
    }
  }

  lemma {:induction false} OwnUp(c: Mport, s: State, x: nat, y: nat)
    requires Walked(c, s) && x in TreeOf(c, s).up && y in TreeOf(c, s).up && TreeOf(c, s).up[x] == TreeOf(c, s).up[y]
    ensures x == y
  {
    hide Walked, Attached;
    NodeFacts(c, s, x);
    NodeFacts(c, s, y);
  }

  /** The port to a child is not the port to the parent. */
  lemma {:induction false} InportIsUp(c: Mport, s: State, x: nat)
    requires Walked(c, s) && x in s.rdev && x in TreeOf(c, s).up
    ensures var t := TreeOf(c, s); t.up[x].dev in t.inport ==> t.inport[t.up[x].dev] != t.up[x].port
  {
    hide Walked;
    var t := TreeOf(c, s);
    NodeFacts(c, s, x);
    if t.up[x].dev in t.inport {
      NodeFacts(c, s, t.up[x].dev);
    }
  }

  lemma {:induction false} HostFacts(c: Mport, s: State)
    requires Walked(c, s)
    ensures c.Valid() && c.topo.host !in s.rdev && Shape(c, s) && Ids(c, s) && Unique(c, s)
    ensures End(c.topo.host, 0) in c.topo.links && TreeOf(c, s).root == c.topo.host
  {
  }

  // ----- ID intervals

  /** A device's interval lies inside those of its ancestors. */
  lemma {:induction false} IntervalsNest(c: Mport, s: State, a: nat, x: nat)
    requires Walked(c, s) && a in s.rdev && x in s.rdev && Spans(c.topo, TreeOf(c, s))
    requires x in TreeOf(c, s).rank && TreeOf(c, s).Anc(a, x)
    ensures a in s.mark && x in s.mark && s.mark[a].lo <= s.mark[x].lo < s.mark[x].hi <= s.mark[a].hi
    ensures a != x ==> s.mark[x].hi <= s.mark[a].cover && s.mark[a].cover == s.mark[a].hi
    decreases s.rdev[x].compTag
  {
    hide Walked, Spans;
    NodeFacts(c, s, x);
    DeviceFacts(c, s, x);
    DeviceFacts(c, s, a);
    if a != x {
      var p := TreeOf(c, s).up[x].dev;
      TreeStep(c, s, a, x);
      DeviceFacts(c, s, p);
      NodeFacts(c, s, p);
      IntervalsNest(c, s, a, p);
    }
  }

  lemma {:induction false} TreeStep(c: Mport, s: State, a: nat, x: nat)
    requires Walked(c, s) && a in s.rdev && x in s.rdev && Spans(c.topo, TreeOf(c, s)) && a != x
    requires x in TreeOf(c, s).rank && TreeOf(c, s).Anc(a, x)
    ensures x in TreeOf(c, s).up && TreeOf(c, s).up[x].dev in s.rdev && TreeOf(c, s).up[x].dev in TreeOf(c, s).rank
    ensures TreeOf(c, s).Anc(a, TreeOf(c, s).up[x].dev)
  {
    hide Walked;
    NodeFacts(c, s, x);
    NodeFacts(c, s, a);
    var t := TreeOf(c, s);
    t.AncRank(a, t.up[x].dev);
    HostFacts(c, s);
  }

  /** The device below `d` at which an ID of its interval ends. */
  ghost function Descend(c: Mport, s: State, d: nat, id: nat): (x: nat)
    requires Walked(c, s) && d in s.rdev && d in s.mark && s.mark[d].lo <= id < s.mark[d].hi && id != c.hostId
    ensures Shape(c, s) && Terminal(c, s, x) && s.mark[x].lo == id
    decreases s.nextTag - s.rdev[d].compTag
  {
    hide Walked, TableAt, NextAt;
    DeviceFacts(c, s, d);
    if Terminal(c, s, d) then d
    else ChildBelow(c, s, d, id); Descend(c, s, Child(c, s, d, id), id)
  }

  ghost function Child(c: Mport, s: State, d: nat, id: nat): nat
    requires d in s.rdev && id in s.rdev[d].route && End(d, s.rdev[d].route[id]) in c.topo.links
  {
    c.topo.links[End(d, s.rdev[d].route[id])].dev
  }

  /** An ID a switch covers leads to a child whose interval holds it. */
  lemma {:induction false} ChildBelow(c: Mport, s: State, d: nat, id: nat)
    requires Walked(c, s) && d in s.rdev && d in s.mark && s.mark[d].lo <= id < s.mark[d].cover && id != c.hostId
    requires c.topo.IsSwitch(d)
    ensures id in s.rdev[d].route && End(d, s.rdev[d].route[id]) in c.topo.links
    ensures var x := Child(c, s, d, id);
            && x in s.rdev && x in s.mark && s.mark[x].lo <= id < s.mark[x].hi
            && x in TreeOf(c, s).up && TreeOf(c, s).up[x] == End(d, s.rdev[d].route[id])
            && s.rdev[d].compTag < s.rdev[x].compTag < s.nextTag
  {
    DeviceFacts(c, s, d);
    HostFacts(c, s);
    assert ChildHolds(c, s, d, s.rdev[d].route[id], id);
    var x := Child(c, s, d, id);
    NodeFacts(c, s, x);
    DeviceFacts(c, s, x);
  }

  lemma {:induction false} DescendBelow(c: Mport, s: State, d: nat, id: nat)
    requires Walked(c, s) && d in s.rdev && d in s.mark && s.mark[d].lo <= id < s.mark[d].hi && id != c.hostId
    requires Spans(c.topo, TreeOf(c, s))
    ensures var x := Descend(c, s, d, id); x in TreeOf(c, s).rank && TreeOf(c, s).Anc(d, x)
    decreases s.nextTag - s.rdev[d].compTag
  {
    hide Walked, Spans;
    NodeFacts(c, s, d);
    DeviceFacts(c, s, d);
    SpansTree(c.topo, TreeOf(c, s));
    if !Terminal(c, s, d) {
      ChildBelow(c, s, d, id);
      var e := Child(c, s, d, id);
      DescendBelow(c, s, e, id);
      NodeFacts(c, s, e);
      ParentAnc(TreeOf(c, s), e, Descend(c, s, e, id));
    }
  }

  lemma {:induction false} ParentAnc(t: Tree, e: nat, x: nat)
    requires t.Valid() && e in t.up && x in t.rank && t.Anc(e, x)
    ensures t.Anc(t.up[e].dev, x)
  {
    assert t.Anc(t.up[e].dev, t.up[e].dev);
    t.AncTrans(t.up[e].dev, e, x);
  }

  /** Depth-first intervals: a terminal device is below a switch exactly when its ID lies in the
      switch's interval, and no two terminal devices share an ID. */
  lemma {:induction false} IdIntervals(c: Mport, s: State, d: nat, x: nat)
    requires Walked(c, s) && d in s.rdev && x in s.rdev && Spans(c.topo, TreeOf(c, s))
    requires Shape(c, s) && Terminal(c, s, x) && x in TreeOf(c, s).rank
    ensures d in s.mark && x in s.mark && (TreeOf(c, s).Anc(d, x) <==> s.mark[d].lo <= s.mark[x].lo < s.mark[d].hi)
    ensures Terminal(c, s, d) && s.mark[d].lo == s.mark[x].lo ==> d == x
  {
    hide Walked, Spans, SpanAt, TableAt, NextAt;
    SpansTree(c.topo, TreeOf(c, s));
    HostFacts(c, s);
    DeviceFacts(c, s, d);
    TerminalId(c, s, x);
    if TreeOf(c, s).Anc(d, x) {
      IntervalsNest(c, s, d, x);
    } else if s.mark[d].lo <= s.mark[x].lo < s.mark[d].hi {
      DescendBelow(c, s, d, s.mark[x].lo);
    }
  }

  lemma {:induction false} TerminalId(c: Mport, s: State, x: nat)
    requires Walked(c, s) && Shape(c, s) && Terminal(c, s, x)
    ensures x in s.mark && FirstId(c) <= s.mark[x].lo < s.nextDestid && s.mark[x].lo != c.hostId
    ensures s.rdev[x].destid == s.mark[x].lo
  {
    hide Walked;
    DeviceFacts(c, s, x);
  }

  // ----- homes

  ghost function HomeFromRoot(c: Mport, s: State, id: nat): (x: nat)
    requires Walked(c, s) && FirstId(c) <= id < s.nextDestid && id != c.hostId
    ensures Shape(c, s) && Terminal(c, s, x) && s.mark[x].lo == id
  {
    hide Walked;
    RootFacts(c, s);
    Descend(c, s, c.topo.FirstHop(c.topo.host).dev, id)
  }

  ghost predicate HomeOf(c: Mport, s: State, id: nat, x: nat) {
    Shape(c, s) && Terminal(c, s, x) && s.mark[x].lo == id
  }

  ghost function IdsInUse(c: Mport, s: State): (ids: set<nat>)
    ensures forall id: nat :: id in ids <==> id == c.hostId || FirstId(c) <= id < s.nextDestid
  {
    Below(s.nextDestid) - Below(FirstId(c)) + {c.hostId}
  }

  ghost function HomeAt(c: Mport, s: State, id: nat): (x: nat)
    requires Walked(c, s) && (id == c.hostId || FirstId(c) <= id < s.nextDestid)
    ensures if id == c.hostId then x == c.topo.host else HomeOf(c, s, id, x)
  {
    hide Walked;
    if id == c.hostId then c.topo.host else HomeFromRoot(c, s, id)
  }

  /** Where each ID in use ends: the host's at the host, the others at terminal devices. */
  ghost function Homes(c: Mport, s: State): (h: map<nat, nat>)
    requires Walked(c, s)
    ensures forall id: nat :: id in h <==> id == c.hostId || FirstId(c) <= id < s.nextDestid
    ensures h[c.hostId] == c.topo.host
    ensures forall id: nat :: id in h && id != c.hostId ==> HomeOf(c, s, id, h[id])
  {
    hide Walked, HomeOf, HomeAt, IdsInUse;
    map id | id in IdsInUse(c, s) :: HomeAt(c, s, id)
  }

  lemma {:induction false} RootFacts(c: Mport, s: State)
    requires Walked(c, s)
    ensures End(c.topo.host, 0) in c.topo.links && FirstId(c) <= s.nextDestid
    ensures c.topo.FirstHop(c.topo.host).dev == c.topo.host || c.topo.FirstHop(c.topo.host).dev in s.rdev
    ensures FirstId(c) < s.nextDestid ==>
              var r := c.topo.FirstHop(c.topo.host).dev;
              r in s.rdev && r in s.mark && s.mark[r].lo == FirstId(c) && s.mark[r].hi == s.nextDestid
  {
  }

  lemma {:induction false} HomeIs(c: Mport, s: State, x: nat)
    requires Walked(c, s) && Shape(c, s) && Terminal(c, s, x)
    ensures s.mark[x].lo in Homes(c, s) && Homes(c, s)[s.mark[x].lo] == x && s.mark[x].lo != c.hostId
  {
    hide Walked;
    HostFacts(c, s);
    TerminalId(c, s, x);
    assert HomeOf(c, s, s.mark[x].lo, Homes(c, s)[s.mark[x].lo]);
  }

  // ----- directions

  /** Every route of the walk leads along the tree towards the home of its ID. */
  lemma {:induction false} RouteLeads(c: Mport, s: State, d: nat, id: nat)
    requires Walked(c, s) && Spans(c.topo, TreeOf(c, s)) && d in s.rdev && c.topo.IsSwitch(d) && id in s.rdev[d].route
    ensures id in Homes(c, s) && GoesTo(c, s, d, s.rdev[d].route[id], Homes(c, s)[id])
  {
    hide Walked, Spans, SpanAt, NextAt;
    DeviceFacts(c, s, d);
    HostFacts(c, s);
    RouteRange(c, s, d, id);
    if id == c.hostId || id < s.mark[d].lo {
      assert s.rdev[d].route[id] == s.rdev[d].inport;
      Outside(c, s, d, id);
    } else {
      ChildBelow(c, s, d, id);
      Inside(c, s, d, id);
    }
  }

  /** Port `q` of `d` is the one towards `x`. */
  ghost predicate GoesTo(c: Mport, s: State, d: nat, q: nat, x: nat)
    requires Walked(c, s)
  {
    var t := TreeOf(c, s);
    t.Valid() && d in t.rank && x in t.rank && d != x && q == t.Dir(d, x)
  }

  lemma {:induction false} RouteRange(c: Mport, s: State, d: nat, id: nat)
    requires Walked(c, s) && d in s.rdev && c.topo.IsSwitch(d) && id in s.rdev[d].route
    ensures id in Homes(c, s) && d in s.mark && (id != c.hostId ==> id < s.mark[d].cover <= s.nextDestid)
  {
    hide Walked, SpanAt, NextAt;
    DeviceFacts(c, s, d);
    HostFacts(c, s);
    assert id == c.hostId || FirstId(c) <= id;
  }

  /** IDs outside a device's interval live on the parent's side. */
  lemma {:induction false} Outside(c: Mport, s: State, d: nat, id: nat)
    requires Walked(c, s) && Spans(c.topo, TreeOf(c, s)) && d in s.rdev && d in s.mark && id in Homes(c, s)
    requires id == c.hostId || id < s.mark[d].lo || s.mark[d].hi <= id
    ensures GoesTo(c, s, d, s.rdev[d].inport, Homes(c, s)[id])
  {
    hide Walked, Spans, SpanAt, NextAt, TableAt;
    SpansTree(c.topo, TreeOf(c, s));
    NodeFacts(c, s, d);
    HostFacts(c, s);
    DeviceFacts(c, s, d);
    var t, x := TreeOf(c, s), Homes(c, s)[id];
    if id == c.hostId {
      t.AncRank(d, x);
      HostTop(c, s, d);
    } else {
      assert HomeOf(c, s, id, x);
      NodeFacts(c, s, x);
      if t.Anc(d, x) { IntervalsNest(c, s, d, x); }
    }
  }

  lemma {:induction false} HostTop(c: Mport, s: State, d: nat)
    requires Walked(c, s) && d in s.rdev && Spans(c.topo, TreeOf(c, s))
    ensures c.topo.host in TreeOf(c, s).rank && d in TreeOf(c, s).rank && d != c.topo.host
    ensures !TreeOf(c, s).Anc(d, c.topo.host)
  {
    hide Walked;
    NodeFacts(c, s, d);
    HostFacts(c, s);
  }

  /** A covered ID lives below the child it is routed to. */
  lemma {:induction false} Inside(c: Mport, s: State, d: nat, id: nat)
    requires Walked(c, s) && Spans(c.topo, TreeOf(c, s)) && d in s.rdev && d in s.mark && c.topo.IsSwitch(d)
    requires s.mark[d].lo <= id < s.mark[d].cover && id != c.hostId && id in Homes(c, s) && id in s.rdev[d].route
    ensures GoesTo(c, s, d, s.rdev[d].route[id], Homes(c, s)[id])
  {
    hide Walked, Spans, SpanAt, NextAt, TableAt, Terminal;
    SpansTree(c.topo, TreeOf(c, s));
    ChildBelow(c, s, d, id);
    var e, t := Child(c, s, d, id), TreeOf(c, s);
    DescendBelow(c, s, e, id);
    HomeIs(c, s, Descend(c, s, e, id));
    NodeFacts(c, s, d);
    t.TowardIs(e, Homes(c, s)[id]);
  }
}
