/** Spanning trees of a fabric and directions in them.  `up[x]` is the parent's end of the link
    to `x` and `inport[x]` is the port of `x` on that link; ranks grow from parent to child. */
module Trees {
  import opened Fabric

  ghost predicate NoRepeat(p: seq<nat>) {
    forall i, j :: 0 <= i < j < |p| ==> p[i] != p[j]
  }

  lemma {:induction false} NoRepeatCons(d: nat, p: seq<nat>)
    requires NoRepeat(p) && d !in p
    ensures NoRepeat([d] + p)
  {
  }

  datatype Tree = Tree(root: nat, up: map<nat, End>, inport: map<nat, nat>, rank: map<nat, nat>) {
    ghost predicate Valid() {
      && root !in up && (forall x: nat :: x in inport <==> x in up)
      && (forall x: nat :: x in rank <==> x in up || x == root)
      && (forall x <- up :: up[x].dev in rank && rank[up[x].dev] < rank[x])
      && (forall x, y :: x in up && y in up && up[x] == up[y] ==> x == y)
      && (forall x <- up :: up[x].dev in inport ==> inport[up[x].dev] != up[x].port)
    }

    /** `a` is `x` or an ancestor of `x`. */
    ghost predicate Anc(a: nat, x: nat)
      requires Valid() && x in rank
      decreases rank[x]
    {
      a == x || (x in up && Anc(a, up[x].dev))
    }

    /** The child of `a` on the way down to `x`. */
    ghost function Toward(a: nat, x: nat): (c: nat)
      requires Valid() && x in rank && Anc(a, x) && a != x
      ensures c in up && up[c].dev == a && Anc(c, x) && rank[c] <= rank[x]
      decreases rank[x]
    {
      if up[x].dev == a then x else Toward(a, up[x].dev)
    }

    /** The port on which `d` is left to get to `x`. */
    ghost function Dir(d: nat, x: nat): nat
      requires Valid() && d in rank && x in rank && d != x
    {
      if Anc(d, x) then up[Toward(d, x)].port
      else RootAboveAll(x); inport[d]
    }

    /** The neighbour of `d` in that direction. */
    ghost function Step(d: nat, x: nat): nat
      requires Valid() && d in rank && x in rank && d != x
    {
      if Anc(d, x) then Toward(d, x)
      else RootAboveAll(x); up[d].dev
    }

    /** The tree path from `d` to `x`: up to the first common ancestor, then down. */
    ghost function Path(d: nat, x: nat): (p: seq<nat>)
      requires Valid() && d in rank && x in rank
      ensures |p| > 0 && p[0] == d && p[|p| - 1] == x && (d == x ==> p == [d])
      decreases if Anc(d, x) then 0 else 1, Distance(d, x)
    {
      if d == x then [d] else StepCloser(d, x); [d] + Path(Step(d, x), x)
    }

    ghost function Distance(d: nat, x: nat): nat
      requires Valid() && d in rank && x in rank
    {
      AncRank(d, x);
      if Anc(d, x) then rank[x] - rank[d] else rank[d]
    }

    lemma {:induction false} StepCloser(d: nat, x: nat)
      requires Valid() && d in rank && x in rank && d != x
      ensures Step(d, x) in rank
      ensures Anc(d, x) ==> Anc(Step(d, x), x) && rank[d] < rank[Step(d, x)] <= rank[x]
      ensures !Anc(d, x) ==> rank[Step(d, x)] < rank[d]
    {
      RootAboveAll(x);
      AncRank(d, x);
    }

    lemma {:induction false} UnfoldPath(d: nat, x: nat)
      requires Valid() && d in rank && x in rank && d != x
      ensures Step(d, x) in rank && Path(d, x) == [d] + Path(Step(d, x), x)
    {
      StepCloser(d, x);
    }

    lemma {:induction false} RootAboveAll(x: nat)
      requires Valid() && x in rank
      ensures Anc(root, x)
      decreases rank[x]
    {
      if x != root { RootAboveAll(up[x].dev); }
    }

    lemma {:induction false} AncRank(a: nat, x: nat)
      requires Valid() && x in rank
      ensures Anc(a, x) ==> a in rank && rank[a] <= rank[x] && (a != x ==> rank[a] < rank[x])
      decreases rank[x]
    {
      if a != x && x in up { AncRank(a, up[x].dev); }
    }

    lemma {:induction false} AncTrans(a: nat, b: nat, x: nat)
      requires Valid() && x in rank && b in rank && Anc(b, x) && Anc(a, b)
      ensures Anc(a, x)
      decreases rank[x]
    {
      if b != x { AncTrans(a, b, up[x].dev); }
    }

    /** Two ancestors of one node lie on one branch. */
    lemma {:induction false} AncChain(a: nat, b: nat, x: nat)
      requires Valid() && x in rank && a in rank && b in rank && Anc(a, x) && Anc(b, x)
      ensures Anc(a, b) || Anc(b, a)
      decreases rank[x]
    {
      if a != x && b != x { AncChain(a, b, up[x].dev); }
    }

    /** A child that is above `x` is the child towards `x`. */
    lemma {:induction false} TowardIs(c: nat, x: nat)
      requires Valid() && x in rank && c in up && Anc(c, x)
      ensures up[c].dev != x && Anc(up[c].dev, x) && Toward(up[c].dev, x) == c
      decreases rank[x]
    {
      AncRank(c, x);
      if c != x {
        AncRank(c, up[x].dev);
        TowardIs(c, up[x].dev);
      }
    }

    /** Seen from a parent, the nodes below a child are exactly those in the child's direction. */
    lemma {:induction false} DirFromParent(c: nat, x: nat)
      requires Valid() && x in rank && c in up
      ensures (x != up[c].dev && Dir(up[c].dev, x) == up[c].port) <==> Anc(c, x)
    {
      var p := up[c].dev;
      if Anc(c, x) {
        TowardIs(c, x);
      } else if x != p && Anc(p, x) {
        var other := Toward(p, x);
        assert up[other] != up[c];
      } else if x != p {
        RootAboveAll(x);
      }
    }

    /** Seen from a child, all other nodes are in its parent's direction. */
    lemma {:induction false} DirFromChild(c: nat, x: nat)
      requires Valid() && x in rank && c in up
      ensures (x != c && Dir(c, x) == inport[c]) <==> !Anc(c, x)
    {
    }

    /** Tree paths repeat no node. */
    lemma {:induction false} LoopFree(d: nat, x: nat)
      requires Valid() && d in rank && x in rank
      ensures NoRepeat(Path(d, x))
      decreases if Anc(d, x) then 0 else 1, Distance(d, x)
    {
      if d != x {
        StepCloser(d, x);
        var rest := Path(Step(d, x), x);
        LoopFree(Step(d, x), x);
        forall y | y in rest ensures y != d {
          PathBounds(Step(d, x), x, y);
        }
        NoRepeatCons(d, rest);
      }
    }

    lemma {:induction false} PathBounds(d: nat, x: nat, y: nat)
      requires Valid() && d in rank && x in rank && y in Path(d, x)
      ensures y in rank && (Anc(y, x) || rank[y] <= rank[d])
      ensures Anc(d, x) ==> Anc(y, x) && rank[d] <= rank[y]
      decreases if Anc(d, x) then 0 else 1, Distance(d, x)
    {
      if d == x {
        assert Path(d, x) == [d];
      } else if d != y {
        StepCloser(d, x);
        assert Path(d, x) == [d] + Path(Step(d, x), x);
        PathBounds(Step(d, x), x, y);
      }
    }
  }
}
