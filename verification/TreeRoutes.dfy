/** Route tables that follow a spanning tree, and where they take packets. */
module TreeRoutes {
  import opened Fabric
  import opened Trees

  /** `tree` is made of links of the fabric and hangs from an endpoint. */
  ghost predicate Spans(t: Topology, tree: Tree) {
    && t.Valid() && tree.Valid()
    && tree.root < |t.kinds| && !t.IsSwitch(tree.root)
    && (forall x <- tree.up :: Attached(t, tree, x))
  }

  ghost predicate Attached(t: Topology, tree: Tree, x: nat)
    requires x in tree.up && x in tree.inport
  {
    && x < |t.kinds|
    && End(x, tree.inport[x]) in t.links && t.links[End(x, tree.inport[x])] == tree.up[x]
    && (tree.up[x].dev != tree.root ==> t.IsSwitch(tree.up[x].dev))
  }

  /** Every route of a switch in the tree leads towards the home of its ID. */
  ghost predicate Sound(t: Topology, tree: Tree, tables: Tables, home: map<nat, nat>) {
    && |tables| == |t.kinds|
    && (forall d, id :: d in tree.rank && t.IsSwitch(d) && id in home && id in tables[d] ==>
          Leads(t, tree, tables, home, d, id))
  }

  ghost predicate Leads(t: Topology, tree: Tree, tables: Tables, home: map<nat, nat>, d: nat, id: nat)
    requires id in home && d < |tables| && id in tables[d]
  {
    && tree.Valid() && d in tree.rank && home[id] in tree.rank && home[id] != d
    && tables[d][id] == tree.Dir(d, home[id])
  }

  /** Every switch but the home itself has a route for the ID. */
  ghost predicate Full(t: Topology, tree: Tree, tables: Tables, home: map<nat, nat>)
    requires |tables| == |t.kinds|
  {
    forall d, id :: d in tree.rank && t.IsSwitch(d) && id in home && home[id] != d ==> id in tables[d]
  }

  lemma {:induction false} SpansTree(t: Topology, tree: Tree)
    requires Spans(t, tree)
    ensures tree.Valid()
  {
  }

  /** The end at which a packet from `d` towards `x` arrives first. */
  ghost function Arrival(t: Topology, tree: Tree, d: nat, x: nat): (e: End)
    requires Spans(t, tree) && d in tree.rank && x in tree.rank && d != x
    ensures End(d, tree.Dir(d, x)) in t.links && t.links[End(d, tree.Dir(d, x))] == e
    ensures e.dev == tree.Step(d, x) && e.dev in tree.rank
  {
    LinkThere(t, tree, d, x);
    t.links[End(d, tree.Dir(d, x))]
  }

  lemma {:induction false} LinkThere(t: Topology, tree: Tree, d: nat, x: nat)
    requires Spans(t, tree) && d in tree.rank && x in tree.rank && d != x
    ensures End(d, tree.Dir(d, x)) in t.links
    ensures t.links[End(d, tree.Dir(d, x))].dev == tree.Step(d, x) && tree.Step(d, x) in tree.rank
  {
    tree.StepCloser(d, x);
    if tree.Anc(d, x) {
      assert Attached(t, tree, tree.Toward(d, x));
    } else {
      tree.RootAboveAll(x);
      assert Attached(t, tree, d);
    }
  }

  /** What is left of the way, in ranks up and down. */
  ghost function Togo(tree: Tree, d: nat, x: nat): nat
    requires tree.Valid() && d in tree.rank && x in tree.rank
  {
    tree.AncRank(d, x);
    if tree.Anc(d, x) then tree.rank[x] - tree.rank[d] else tree.rank[x] + 1 + tree.rank[d]
  }

  lemma {:induction false} StepTogo(t: Topology, tree: Tree, d: nat, x: nat)
    requires Spans(t, tree) && d in tree.rank && x in tree.rank && d != x
    ensures tree.Valid() && tree.Step(d, x) in tree.rank && Togo(tree, tree.Step(d, x), x) < Togo(tree, d, x)
  {
    tree.StepCloser(d, x);
    tree.AncRank(tree.Step(d, x), x);
  }

  /** All arrivals on the tree path from `d` to `x`. */
  ghost function Arrivals(t: Topology, tree: Tree, d: nat, x: nat): (tr: seq<End>)
    requires Spans(t, tree) && d in tree.rank && x in tree.rank
    ensures d != x ==> tr != [] && tr[0] == Arrival(t, tree, d, x) && tr[|tr| - 1].dev == x
    ensures d == x ==> tr == []
    decreases Togo(tree, d, x)
  {
    hide Spans, Tree.Valid, Tree.Anc, Togo, Tree.Step;
    SpansTree(t, tree);
    if d == x then []
    else
      StepTogo(t, tree, d, x);
      [Arrival(t, tree, d, x)] + Arrivals(t, tree, tree.Step(d, x), x)
  }

  lemma {:induction false} UnfoldArrivals(t: Topology, tree: Tree, d: nat, x: nat)
    requires Spans(t, tree) && d in tree.rank && x in tree.rank && d != x
    ensures tree.Step(d, x) in tree.rank
    ensures Arrivals(t, tree, d, x) == [Arrival(t, tree, d, x)] + Arrivals(t, tree, tree.Step(d, x), x)
  {
    tree.StepCloser(d, x);
  }

  /** Endpoints send through their only port. */
  lemma {:induction false} EndpointArrival(t: Topology, tree: Tree, d: nat, x: nat)
    requires Spans(t, tree) && d in tree.rank && x in tree.rank && d != x && !t.IsSwitch(d)
    ensures End(d, 0) in t.links && Arrival(t, tree, d, x) == t.FirstHop(d)
  {
    hide Tree.Valid, Tree.Anc, Tree.Dir;
    var e := Arrival(t, tree, d, x);
    assert t.OnDevice(End(d, tree.Dir(d, x)));
  }

  /** The arrivals visit the devices of the tree path. */
  lemma {:induction false} ArrivalsOnPath(t: Topology, tree: Tree, d: nat, x: nat)
    requires Spans(t, tree) && d in tree.rank && x in tree.rank
    ensures |tree.Path(d, x)| == |Arrivals(t, tree, d, x)| + 1
    ensures forall k: nat :: k < |Arrivals(t, tree, d, x)| ==> Arrivals(t, tree, d, x)[k].dev == tree.Path(d, x)[k + 1]
    decreases if tree.Anc(d, x) then 0 else 1, tree.Distance(d, x)
  {
    hide Spans, Tree.Valid, Tree.Anc, Tree.Path, Arrivals;
    SpansTree(t, tree);
    if d != x {
      tree.StepCloser(d, x);
      var y := tree.Step(d, x);
      ArrivalsOnPath(t, tree, y, x);
      var tr, p := Arrivals(t, tree, y, x), tree.Path(y, x);
      UnfoldArrivals(t, tree, d, x);
      tree.UnfoldPath(d, x);
      ConsVisits(Arrival(t, tree, d, x), d, tr, p);
    }
  }

  lemma {:induction false} ConsVisits(e: End, d: nat, tr: seq<End>, p: seq<nat>)
    requires |p| == |tr| + 1 && e.dev == p[0] && forall k: nat :: k < |tr| ==> tr[k].dev == p[k + 1]
    ensures forall k: nat :: k < |tr| + 1 ==> ([e] + tr)[k].dev == ([d] + p)[k + 1]
  {
  }

  /** The root is an endpoint, so it has one child at most. */
  lemma {:induction false} OnlyChild(t: Topology, tree: Tree, c: nat, e: nat)
    requires Spans(t, tree) && c in tree.up && e in tree.up
    requires tree.up[c].dev == tree.root == tree.up[e].dev
    ensures c == e
  {
    assert Attached(t, tree, c) && Attached(t, tree, e);
    assert tree.up[c] in t.links && tree.up[e] in t.links;
    assert t.OnDevice(tree.up[c]) && t.OnDevice(tree.up[e]);
    assert tree.up[c] == tree.up[e];
  }

  /** Only switches lie between the ends of a tree path. */
  lemma {:induction false} InnerSwitch(t: Topology, tree: Tree, d: nat, x: nat)
    requires Spans(t, tree) && d in tree.rank && x in tree.rank && d != x && tree.Step(d, x) != x
    ensures t.IsSwitch(tree.Step(d, x))
  {
    tree.StepCloser(d, x);
    var y := tree.Step(d, x);
    if tree.Anc(d, x) {
      var z := tree.Toward(y, x);
      assert Attached(t, tree, z) && tree.rank[d] < tree.rank[y];
      tree.RootAboveAll(d);
      tree.AncRank(tree.root, d);
    } else {
      tree.RootAboveAll(x);
      assert Attached(t, tree, d);
      if y == tree.root {
        OnlyChild(t, tree, tree.Toward(y, x), d);
      }
    }
  }

  /** Sound and full tables take an ID along the tree path to its home. */
  lemma {:induction false} FollowsTree(t: Topology, tree: Tree, tables: Tables, home: map<nat, nat>, d: nat, id: nat)
    requires Spans(t, tree) && Sound(t, tree, tables, home) && Full(t, tree, tables, home)
    requires id in home && home[id] in tree.rank && d in tree.rank && d != home[id]
    ensures t.Trail(tables, id, Arrivals(t, tree, d, home[id]))
    decreases if tree.Anc(d, home[id]) then 0 else 1, tree.Distance(d, home[id])
  {
    var x := home[id];
    var y := tree.Step(d, x);
    tree.StepCloser(d, x);
    if y != x {
      InnerSwitch(t, tree, d, x);
      FollowsTree(t, tree, tables, home, y, id);
      assert Leads(t, tree, tables, home, y, id);
      var rest := Arrivals(t, tree, y, x);
      assert t.Hop(tables, id, Arrival(t, tree, d, x), rest[0]);
      TrailCons(t, tables, id, Arrival(t, tree, d, x), rest);
    }
  }

  lemma {:induction false} TrailSnoc(t: Topology, tables: Tables, id: nat, trail: seq<End>, e: End)
    requires |tables| == |t.kinds| && t.Trail(tables, id, trail) && t.Hop(tables, id, trail[|trail| - 1], e)
    ensures t.Trail(tables, id, trail + [e])
  {
  }

  lemma {:induction false} TrailCons(t: Topology, tables: Tables, id: nat, e: End, trail: seq<End>)
    requires |tables| == |t.kinds| && t.Trail(tables, id, trail) && t.Hop(tables, id, e, trail[0])
    ensures t.Trail(tables, id, [e] + trail)
  {
  }

  lemma {:induction false} SameStep(tree: Tree, d: nat, b: nat, x: nat)
    requires tree.Valid() && d in tree.rank && b in tree.rank && x in tree.rank
    requires tree.Anc(d, b) && tree.Anc(b, x) && d != b
    ensures d != x && tree.Anc(d, x) && tree.Toward(d, x) == tree.Toward(d, b)
    ensures tree.Step(d, x) == tree.Step(d, b) && tree.Dir(d, x) == tree.Dir(d, b)
  {
    var c := tree.Toward(d, b);
    tree.AncTrans(c, b, x);
    tree.TowardIs(c, x);
  }

  /** On the way down, the way to `x` goes through every ancestor of `x` below `d`. */
  lemma {:induction false} ArrivalsVia(t: Topology, tree: Tree, d: nat, b: nat, x: nat)
    requires Spans(t, tree) && d in tree.rank && b in tree.rank && x in tree.rank && tree.Anc(d, b) && tree.Anc(b, x)
    ensures Arrivals(t, tree, d, x) == Arrivals(t, tree, d, b) + Arrivals(t, tree, b, x)
    decreases tree.Distance(d, b)
  {
    hide Spans, Tree.Valid, Tree.Anc, Arrivals;
    assert tree.Valid() by { SpansTree(t, tree); }
    if d == b {
      assert Arrivals(t, tree, d, b) == [];
    } else {
      SameStep(tree, d, b, x);
      tree.StepCloser(d, b);
      var c := tree.Step(d, b);
      tree.AncRank(c, b);
      ArrivalsVia(t, tree, c, b, x);
      var e := Arrival(t, tree, d, x);
      UnfoldArrivals(t, tree, d, x);
      UnfoldArrivals(t, tree, d, b);
      ConsConcat(e, Arrivals(t, tree, c, b), Arrivals(t, tree, b, x));
    }
  }

  lemma {:induction false} ConsConcat(e: End, p: seq<End>, q: seq<End>)
    ensures [e] + (p + q) == [e] + p + q
  {
  }

  /** Switches above `x` that route an ID down to `x` make a trail to `x`. */
  lemma {:induction false} DownTrail(t: Topology, tree: Tree, tables: Tables, id: nat, d: nat, x: nat)
    requires Spans(t, tree) && |tables| == |t.kinds| && d in tree.rank && x in tree.rank && tree.Anc(d, x) && d != x
    requires forall y <- tree.rank :: y != d && y != x && tree.Anc(d, y) && tree.Anc(y, x) ==>
               Down(tree, tables, id, y, x)
    ensures t.Trail(tables, id, Arrivals(t, tree, d, x))
    decreases tree.Distance(d, x)
  {
    hide Spans, Tree.Valid, Tree.Anc, Arrivals, Topology.Trail;
    SpansTree(t, tree);
    tree.StepCloser(d, x);
    UnfoldArrivals(t, tree, d, x);
    var c := tree.Step(d, x);
    var e := Arrival(t, tree, d, x);
    if c == x {
      SingleTrail(t, tables, id, e);
      assert Arrivals(t, tree, d, x) == [e];
    } else {
      forall y <- tree.rank | y != c && y != x && tree.Anc(c, y) && tree.Anc(y, x)
            ensures Down(tree, tables, id, y, x) {
        ChildAbove(tree, d, c, x, y);
      }
      DownTrail(t, tree, tables, id, c, x);
      ChildAbove(tree, d, c, x, c);
      InnerSwitch(t, tree, d, x);
      var rest := Arrivals(t, tree, c, x);
      assert t.Hop(tables, id, e, rest[0]);
      TrailCons(t, tables, id, e, rest);
    }
  }

  ghost predicate Down(tree: Tree, tables: Tables, id: nat, y: nat, x: nat)
    requires tree.Valid() && y in tree.rank && x in tree.rank && y != x
  {
    y < |tables| && id in tables[y] && tables[y][id] == tree.Dir(y, x)
  }

  lemma {:induction false} SingleTrail(t: Topology, tables: Tables, id: nat, e: End)
    requires |tables| == |t.kinds|
    ensures t.Trail(tables, id, [e])
  {
  }

  /** What is below a child of `d` is below `d` and is not `d`. */
  lemma {:induction false} ChildAbove(tree: Tree, d: nat, c: nat, x: nat, y: nat)
    requires tree.Valid() && d in tree.rank && x in tree.rank && d != x && tree.Anc(d, x) && c == tree.Step(d, x)
    requires y in tree.rank && c in tree.rank && tree.Anc(c, y)
    ensures tree.Anc(d, y) && y != d
  {
    assert tree.Anc(d, d) && tree.Anc(d, c);
    tree.AncTrans(d, c, y);
    tree.AncRank(c, y);
  }

  /** The step from a parent to its child. */
  lemma {:induction false} LastStep(t: Topology, tree: Tree, x: nat)
    requires Spans(t, tree) && x in tree.up
    ensures tree.up[x].dev in tree.rank && x in tree.rank && tree.Anc(tree.up[x].dev, x)
    ensures Arrivals(t, tree, tree.up[x].dev, x) == [End(x, tree.inport[x])]
  {
    var u := tree.up[x].dev;
    assert Attached(t, tree, x);
    assert tree.Anc(u, u) && tree.Anc(x, x);
    tree.TowardIs(x, x);
    UnfoldArrivals(t, tree, u, x);
  }

  /** Between any two endpoints, packets to an ID that lives at the other one follow the tree path to it. */
  lemma {:induction false} TreeDelivery(t: Topology, tree: Tree, tables: Tables, home: map<nat, nat>, e: nat, id: nat,
        x: nat, hops: nat)
    requires Spans(t, tree) && Sound(t, tree, tables, home) && Full(t, tree, tables, home)
    requires id in home && home[id] == x && x in tree.rank && e in tree.rank && e != x && !t.IsSwitch(e)
    requires !t.IsSwitch(x)
    ensures End(e, 0) in t.links && NoRepeat(tree.Path(e, x))
    ensures var tr := Arrivals(t, tree, e, x);
            && t.Trail(tables, id, tr) && tr[0] == t.FirstHop(e) && tr[|tr| - 1].dev == x
            && |tr| == |tree.Path(e, x)| - 1
            && (forall k: nat :: k < |tr| ==> tr[k].dev == tree.Path(e, x)[k + 1])
            && (|tr| - 1 <= hops ==> t.Target(tables, t.FirstHop(e), id, hops) == Some(tr[|tr| - 1]))
  {
    hide Spans, Arrivals, Tree.Path, Tree.Valid, Topology.Trail, Topology.Target, Full;
    SpansTree(t, tree);
    FollowsTree(t, tree, tables, home, e, id);
    EndpointArrival(t, tree, e, x);
    ArrivalsOnPath(t, tree, e, x);
    tree.LoopFree(e, x);
    var tr := Arrivals(t, tree, e, x);
    if |tr| - 1 <= hops {
      t.TrailTarget(tables, id, tr, hops);
    }
  }
}
