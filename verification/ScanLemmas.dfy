/** Every step of the enumeration walk keeps the invariant. */
module ScanLemmas {
  import opened Fabric
  import opened ScanState
  import Trees

  // ----- counting

  lemma {:induction false} DistinctBound(p: seq<nat>, all: set<nat>)
    requires Trees.NoRepeat(p) && forall x <- p :: x in all
    ensures |p| <= |all|
  {
    if p != [] {
      var front, last := p[..|p| - 1], p[|p| - 1];
      assert forall i: nat :: 0 <= i < |front| ==> front[i] == p[i];
      DistinctBound(front, all - {last});
    }
  }

  ghost function Below(n: nat): (r: set<nat>)
    ensures |r| == n && forall d: nat :: d in r <==> d < n
  {
    if n == 0 then {} else Below(n - 1) + {n - 1}
  }

  /** The number of devices bounds the IDs in use. */
  lemma {:induction false} Room(c: Mport, s: State, path: seq<End>)
    requires c.Valid() && Shape(c, s) && Listed(c, s) && PathOk(c, s, path)
    ensures |s.devices| < |c.topo.kinds| && s.nextDestid <= |c.topo.kinds| && CanAlloc(c, s)
  {
    assert Trees.NoRepeat(s.devices);
    DistinctBound(s.devices, Below(|c.topo.kinds|) - {c.topo.host});
  }

  ghost function Devs(path: seq<End>): (r: seq<nat>)
    ensures |r| == |path| && forall k: nat :: 0 <= k < |path| ==> r[k] == path[k].dev
  {
    if path == [] then [] else Devs(path[..|path| - 1]) + [path[|path| - 1].dev]
  }

  /** The switches being scanned are distinct, so hop counts fit in a byte. */
  lemma {:induction false} HopsFit(c: Mport, s: State, path: seq<End>, d: nat)
    requires c.Valid() && Shape(c, s) && PathOk(c, s, path)
    ensures |path| <= 0xff
    ensures c.topo.IsSwitch(d) && d !in s.rdev ==> |path| < 0xff
  {
    var devs := Devs(path);
    var all := set d | 0 <= d < |c.topo.kinds| && c.topo.IsSwitch(d);
    assert Trees.NoRepeat(devs);
    DistinctBound(devs, all);
    if c.topo.IsSwitch(d) && d !in s.rdev {
      assert Trees.NoRepeat(devs + [d]);
      DistinctBound(devs + [d], all);
    }
  }

  // ----- a step changes the records of one unfinished device

  ghost predicate Same(s: State, t: State, x: nat)
    requires x in s.rdev && x in t.rdev && x in s.mark && x in t.mark
    requires x < |s.table| == |t.table| && x < |s.tag| == |t.tag| && x < |s.did| == |t.did|
  {
    && s.rdev[x] == t.rdev[x] && s.mark[x] == t.mark[x]
    && s.table[x] == t.table[x] && s.tag[x] == t.tag[x] && s.did[x] == t.did[x]
  }

  ghost predicate Evolves(c: Mport, s: State, t: State, f: nat) {
    && Shape(c, s) && Shape(c, t) && (forall x: nat :: x in t.rdev <==> x in s.rdev || x == f)
    && s.nextDestid <= t.nextDestid
    && (forall x <- s.rdev :: x != f ==> Same(s, t, x))
    && (f in s.rdev ==>
          && !s.mark[f].done && t.mark[f].lo == s.mark[f].lo
          && t.rdev[f].compTag == s.rdev[f].compTag && t.rdev[f].inport == s.rdev[f].inport
          && t.rdev[f].hopcount == s.rdev[f].hopcount && t.rdev[f].prev == s.rdev[f].prev)
  }

  lemma {:induction false} EvTree(c: Mport, s: State, t: State, f: nat)
    requires Evolves(c, s, t, f) && TreeOk(c, s) && (f !in s.rdev ==> TreeAt(c, t, f))
    ensures TreeOk(c, t)
  {
    forall x <- t.rdev ensures TreeAt(c, t, x) {
      if x in s.rdev { assert TreeAt(c, s, x); }
    }
  }

  lemma {:induction false} EvTables(c: Mport, s: State, t: State, f: nat)
    requires Evolves(c, s, t, f) && TablesOk(c, s) && (c.topo.IsSwitch(f) ==> TableAt(c, t, f))
    ensures TablesOk(c, t)
  {
    forall x <- t.rdev | c.topo.IsSwitch(x) ensures TableAt(c, t, x) {
      if x != f {
        assert TableAt(c, s, x);
        assert Same(s, t, x);
        EvHolds(c, s, t, f, x);
      }
    }
  }

  lemma {:induction false} EvHolds(c: Mport, s: State, t: State, f: nat, x: nat)
    requires Evolves(c, s, t, f)
    ensures forall q: nat, id: nat :: ChildHolds(c, s, x, q, id) ==> ChildHolds(c, t, x, q, id)
  {
  }

  ghost predicate ChildrenDone(c: Mport, s: State, f: nat)
    requires Shape(c, s)
  {
    forall x <- s.rdev :: TreeAt(c, s, x) && UpEnd(c, s, x).dev == f ==> s.mark[x].done
  }

  lemma {:induction false} EvSpans(c: Mport, s: State, t: State, f: nat)
    requires Evolves(c, s, t, f) && TreeOk(c, s) && TreeOk(c, t) && SpansOk(c, s) && SpanAt(c, t, f)
    requires f in s.rdev && t.mark[f].done ==> ChildrenDone(c, s, f) && s.nextDestid <= t.mark[f].cover
    ensures SpansOk(c, t)
  {
    forall x <- t.rdev ensures SpanAt(c, t, x) {
      if x != f {
        assert SpanAt(c, s, x) && Same(s, t, x) && TreeAt(c, s, x);
        var u := UpEnd(c, s, x).dev;
        if u in s.rdev && u != f { assert Same(s, t, u); }
      }
    }
  }

  lemma {:induction false} EvUnique(c: Mport, s: State, t: State, f: nat)
    requires Evolves(c, s, t, f) && Unique(c, s)
    requires Terminal(c, t, f) ==> forall e: nat :: Terminal(c, s, e) ==> s.mark[e].lo != t.mark[f].lo
    ensures Unique(c, t)
  {
  }

  lemma {:induction false} EvNexts(c: Mport, s: State, t: State, f: nat)
    requires Evolves(c, s, t, f) && NextsOk(c, s) && (c.topo.IsSwitch(f) ==> NextAt(c, t, f))
    ensures NextsOk(c, t)
  {
  }

  /** Every finished terminal lies below the next ID. */
  lemma {:induction false} TerminalsBelow(c: Mport, s: State)
    requires Shape(c, s) && TreeOk(c, s) && SpansOk(c, s)
    ensures forall e: nat :: Terminal(c, s, e) ==> s.mark[e].lo < s.nextDestid
  {
  }

  // ----- the driver's books

  /** A step that sets up `f` as the newest device. */
  ghost predicate Adds(c: Mport, s: State, t: State, f: nat) {
    && Shape(c, s) && Shape(c, t) && f !in s.rdev && f in t.rdev
    && t.rdev == s.rdev[f := t.rdev[f]] && t.rdev[f].compTag == s.nextTag
    && t.lock == s.lock[f := c.hostId] && t.tag == s.tag[f := s.nextTag]
    && t.nextTag == s.nextTag + 1 && t.devices == s.devices + [f]
    && t.switches == if c.topo.IsSwitch(f) then s.switches + [f] else s.switches
  }

  lemma {:induction false} AddsLocks(c: Mport, s: State, t: State, f: nat)
    requires Adds(c, s, t, f) && Owned(c, s)
    ensures Owned(c, t)
  {
  }

  lemma {:induction false} AddsBooks(c: Mport, s: State, t: State, f: nat)
    requires Adds(c, s, t, f) && Listed(c, s)
    ensures Listed(c, t)
  {
    forall i: nat | i < |t.devices| ensures t.devices[i] in t.rdev && t.rdev[t.devices[i]].compTag == i + 2 {
      if i < |s.devices| { assert t.devices[i] == s.devices[i]; }
    }
    forall d <- t.rdev ensures 2 <= t.rdev[d].compTag < t.nextTag && t.devices[t.rdev[d].compTag - 2] == d
                               && t.tag[d] == t.rdev[d].compTag {
      if d != f { assert d in s.rdev && t.rdev[d] == s.rdev[d]; }
    }
  }

  /** A step on the switch `f` that touches no list, lock or tag. */
  ghost predicate Updates(c: Mport, s: State, t: State, f: nat) {
    && Evolves(c, s, t, f) && f in s.rdev
    && t.lock == s.lock && t.tag == s.tag && t.nextTag == s.nextTag
    && t.devices == s.devices && t.switches == s.switches
  }

  lemma {:induction false} UpdatesFields(c: Mport, s: State, t: State, f: nat)
    requires Updates(c, s, t, f)
    ensures Shape(c, s) && Shape(c, t) && !s.mark[f].done
    ensures forall d: nat :: d in t.rdev <==> d in s.rdev
    ensures forall d <- t.rdev :: d in s.rdev && d in s.mark && d in t.mark && t.rdev[d].compTag == s.rdev[d].compTag
                                  && t.rdev[d].inport == s.rdev[d].inport
                                  && t.rdev[d].hopcount == s.rdev[d].hopcount
                                  && (d != f ==> t.mark[d].done == s.mark[d].done)
  {
    forall d <- t.rdev
      ensures t.rdev[d].compTag == s.rdev[d].compTag && t.rdev[d].inport == s.rdev[d].inport
              && t.rdev[d].hopcount == s.rdev[d].hopcount
              && (d != f ==> t.mark[d].done == s.mark[d].done)
    {
      assert d in s.rdev;
      if d != f { assert Same(s, t, d); }
    }
  }

  lemma {:induction false} SameBooks(c: Mport, s: State, t: State)
    requires Shape(c, s) && Shape(c, t) && Owned(c, s) && Listed(c, s)
    requires (forall d: nat :: d in t.rdev <==> d in s.rdev)
    requires forall d <- t.rdev :: t.rdev[d].compTag == s.rdev[d].compTag
    requires t.lock == s.lock && t.tag == s.tag && t.nextTag == s.nextTag
    requires t.devices == s.devices && t.switches == s.switches
    ensures Owned(c, t) && Listed(c, t)
  {
    forall i: nat | 0 <= i < |t.devices| ensures t.devices[i] in t.rdev && t.rdev[t.devices[i]].compTag == i + 2 {
      assert s.devices[i] in s.rdev;
    }
    forall d <- t.rdev ensures 2 <= t.rdev[d].compTag < t.nextTag && t.devices[t.rdev[d].compTag - 2] == d
                               && t.tag[d] == t.rdev[d].compTag {
      assert d in s.rdev;
    }
    forall d: nat | d < |t.lock|
      ensures t.lock[d] == if d == c.topo.host || d in t.rdev then c.hostId else FREE
    {
      assert t.lock[d] == s.lock[d];
    }
  }

  lemma {:induction false} UpdatesPath(c: Mport, s: State, t: State, f: nat, path: seq<End>)
    requires Updates(c, s, t, f) && PathOk(c, s, path) && !t.mark[f].done && t.nextDestid == s.nextDestid
    ensures PathOk(c, t, path)
  {
    hide Evolves;
    UpdatesFields(c, s, t, f);
  }

  // ----- the steps

  /** `at` is an unlocked device's end of the link that the scan is about to cross. */
  ghost predicate Fresh(c: Mport, s: State, path: seq<End>, at: End, prev: Option<nat>) {
    && Inv(c, s, path)
    && at in c.topo.links && at.dev !in s.rdev && at.dev != c.topo.host
    && c.topo.links[at].dev == (if path == [] then c.topo.host else path[|path| - 1].dev)
    && prev == if path == [] then None else Some(path[|path| - 1].dev)
  }

  lemma {:induction false} EndpointEvolves(c: Mport, s: State, path: seq<End>, at: End, prev: Option<nat>, t: State)
    requires Fresh(c, s, path, at, prev) && !c.topo.IsSwitch(at.dev) && CanAlloc(c, s)
    requires t == WithEndpoint(c, s, at, prev)
    ensures Evolves(c, s, t, at.dev) && Adds(c, s, t, at.dev) && Ids(c, t)
  {
    hide TreeOk, TablesOk, SpansOk, Unique, NextsOk, Owned, Listed, PathOk;
  }

  lemma {:induction false} EndpointPath(c: Mport, s: State, path: seq<End>, at: End, prev: Option<nat>, t: State)
    requires Fresh(c, s, path, at, prev) && !c.topo.IsSwitch(at.dev) && CanAlloc(c, s)
    requires t == WithEndpoint(c, s, at, prev) && Shape(c, t)
    ensures PathOk(c, t, path)
  {
    hide TreeOk, TablesOk, SpansOk, Unique, NextsOk, Owned, Listed;
  }

  lemma {:induction false} EndpointTree(c: Mport, s: State, path: seq<End>, at: End, prev: Option<nat>, t: State)
    requires Fresh(c, s, path, at, prev) && !c.topo.IsSwitch(at.dev) && CanAlloc(c, s)
    requires t == WithEndpoint(c, s, at, prev) && |path| <= 0xff
    ensures TreeAt(c, t, at.dev)
  {
    hide TreeOk, TablesOk, SpansOk, Unique, NextsOk, Owned, Ids;
    if path != [] { assert path[|path| - 1].dev in s.rdev; }
  }

  lemma {:induction false} EndpointSpan(c: Mport, s: State, path: seq<End>, at: End, prev: Option<nat>, t: State)
    requires Fresh(c, s, path, at, prev) && !c.topo.IsSwitch(at.dev) && CanAlloc(c, s)
    requires t == WithEndpoint(c, s, at, prev) && Shape(c, t) && TreeAt(c, t, at.dev)
    ensures SpanAt(c, t, at.dev)
  {
    hide TablesOk, Unique, NextsOk, Owned, Listed, TreeAt;
    if path != [] {
      assert TreeAt(c, s, path[|path| - 1].dev) && SpanAt(c, s, path[|path| - 1].dev);
    }
  }

  lemma {:induction false} EndpointKeeps(c: Mport, s: State, path: seq<End>, at: End, prev: Option<nat>, t: State)
    requires Fresh(c, s, path, at, prev) && !c.topo.IsSwitch(at.dev) && CanAlloc(c, s)
    requires t == WithEndpoint(c, s, at, prev)
    ensures Inv(c, t, path)
  {
    hide Owned, Listed, Ids, TreeOk, TablesOk, SpansOk, Unique, NextsOk, PathOk, TreeAt, SpanAt, Evolves, Adds;
    HopsFit(c, s, path, at.dev);
    EndpointEvolves(c, s, path, at, prev, t);
    EndpointPath(c, s, path, at, prev, t);
    EndpointTree(c, s, path, at, prev, t);
    EndpointSpan(c, s, path, at, prev, t);
    AddsLocks(c, s, t, at.dev);
    AddsBooks(c, s, t, at.dev);
    EvTree(c, s, t, at.dev);
    EvTables(c, s, t, at.dev);
    EvSpans(c, s, t, at.dev);
    TerminalsBelow(c, s);
    EvUnique(c, s, t, at.dev);
    EvNexts(c, s, t, at.dev);
  }

  lemma {:induction false} SwitchEvolves(c: Mport, s: State, path: seq<End>, at: End, prev: Option<nat>, t: State)
    requires Fresh(c, s, path, at, prev) && c.topo.IsSwitch(at.dev)
    requires t == WithSwitch(c, s, at, prev, |path|)
    ensures Evolves(c, s, t, at.dev) && Adds(c, s, t, at.dev) && Ids(c, t) && NextAt(c, t, at.dev)
  {
    hide TreeOk, TablesOk, SpansOk, Unique, NextsOk, Owned, Listed, PathOk;
  }

  lemma {:induction false} SwitchPath(c: Mport, s: State, path: seq<End>, at: End, prev: Option<nat>, t: State)
    requires Fresh(c, s, path, at, prev) && c.topo.IsSwitch(at.dev)
    requires t == WithSwitch(c, s, at, prev, |path|) && Shape(c, t)
    ensures PathOk(c, t, path + [at])
  {
    hide TreeOk, TablesOk, SpansOk, Unique, NextsOk, Owned, Listed;
  }

  lemma {:induction false} SwitchTree(c: Mport, s: State, path: seq<End>, at: End, prev: Option<nat>, t: State)
    requires Fresh(c, s, path, at, prev) && c.topo.IsSwitch(at.dev)
    requires t == WithSwitch(c, s, at, prev, |path|) && |path| < 0xff
    ensures TreeAt(c, t, at.dev)
  {
    hide TreeOk, TablesOk, SpansOk, Unique, NextsOk, Owned, Ids;
    if path != [] { assert path[|path| - 1].dev in s.rdev; }
  }

  lemma {:induction false} SwitchSpan(c: Mport, s: State, path: seq<End>, at: End, prev: Option<nat>, t: State)
    requires Fresh(c, s, path, at, prev) && c.topo.IsSwitch(at.dev)
    requires t == WithSwitch(c, s, at, prev, |path|) && Shape(c, t) && TreeAt(c, t, at.dev)
    ensures SpanAt(c, t, at.dev)
  {
    hide TablesOk, Unique, NextsOk, Owned, Listed, TreeAt;
    if path != [] {
      assert TreeAt(c, s, path[|path| - 1].dev) && SpanAt(c, s, path[|path| - 1].dev);
    }
  }

  lemma {:induction false} SwitchTable(c: Mport, s: State, path: seq<End>, at: End, prev: Option<nat>, t: State)
    requires Fresh(c, s, path, at, prev) && c.topo.IsSwitch(at.dev)
    requires t == WithSwitch(c, s, at, prev, |path|) && Shape(c, t)
    requires s.nextDestid <= |c.topo.kinds|
    ensures TableAt(c, t, at.dev)
  {
    hide TablesOk, SpansOk, TreeOk, Unique, NextsOk, Owned, Listed, Ids, PathOk;
    var r := Back(c, s, at.port);
    assert r - {c.anyId} == r;
    assert t.rdev[at.dev].route == r && t.table[at.dev] == r;
    assert t.mark[at.dev] == Mark(s.nextDestid, s.nextDestid, s.nextDestid, false);
    assert t.nextDestid == s.nextDestid;
    assert forall id: nat :: id in r <==> id < s.nextDestid || id == c.hostId;
    assert forall id <- r :: r[id] == at.port;
  }

  lemma {:induction false} SwitchKeeps(c: Mport, s: State, path: seq<End>, at: End, prev: Option<nat>, t: State)
    requires Fresh(c, s, path, at, prev) && c.topo.IsSwitch(at.dev)
    requires t == WithSwitch(c, s, at, prev, |path|)
    ensures Inv(c, t, path + [at])
  {
    hide Owned, Listed, Ids, TreeOk, TablesOk, SpansOk, Unique, NextsOk, PathOk, TreeAt, SpanAt, TableAt, NextAt,
         Evolves, Adds;
    HopsFit(c, s, path, at.dev);
    Room(c, s, path);
    SwitchEvolves(c, s, path, at, prev, t);
    SwitchPath(c, s, path, at, prev, t);
    SwitchTree(c, s, path, at, prev, t);
    SwitchSpan(c, s, path, at, prev, t);
    SwitchTable(c, s, path, at, prev, t);
    AddsLocks(c, s, t, at.dev);
    AddsBooks(c, s, t, at.dev);
    EvTree(c, s, t, at.dev);
    EvTables(c, s, t, at.dev);
    EvSpans(c, s, t, at.dev);
    EvUnique(c, s, t, at.dev);
    EvNexts(c, s, t, at.dev);
  }

  // ----- steps on an unfinished switch `f`

  ghost predicate Open(c: Mport, s: State, path: seq<End>, f: nat) {
    Inv(c, s, path) && f in s.rdev && f in s.mark && !s.mark[f].done
  }

  lemma {:induction false} ScanParts(c: Mport, s: State, path: seq<End>, f: nat)
    requires Open(c, s, path, f)
    ensures Shape(c, s) && f in s.rdev && f in s.mark && !s.mark[f].done && c.topo.IsSwitch(f)
    ensures TreeAt(c, s, f) && TableAt(c, s, f) && SpanAt(c, s, f) && NextAt(c, s, f)
  {
    hide Owned, Listed, Ids, Unique, TreeAt, TableAt, SpanAt, NextAt;
  }

  /** A step that keeps marks and routes. */
  ghost predicate KeepsRoutes(c: Mport, s: State, t: State, f: nat) {
    && Updates(c, s, t, f)
    && t.mark[f] == s.mark[f] && t.rdev[f].route == s.rdev[f].route && t.rdev[f].destid == s.rdev[f].destid
    && t.did[f] == s.did[f] && t.table[f] - {c.anyId} == s.table[f] - {c.anyId} && t.nextDestid == s.nextDestid
  }

  lemma {:induction false} OwnTable(c: Mport, s: State, t: State, f: nat)
    requires KeepsRoutes(c, s, t, f) && TableAt(c, s, f)
    ensures TableAt(c, t, f)
  {
    EvHolds(c, s, t, f, f);
  }

  lemma {:induction false} OwnSpan(c: Mport, s: State, t: State, f: nat)
    requires KeepsRoutes(c, s, t, f) && TreeAt(c, s, f) && SpanAt(c, s, f) && TreeAt(c, t, f)
    ensures SpanAt(c, t, f)
  {
    var u := UpEnd(c, s, f).dev;
    if u in s.rdev { assert Same(s, t, u); }
  }

  /** With the scanned switch's own records in order, the rest of the invariant follows. */
  lemma {:induction false} UpdatesKeep(c: Mport, s: State, path: seq<End>, f: nat, t: State)
    requires Open(c, s, path, f) && Updates(c, s, t, f) && Shape(c, t) && Ids(c, t)
    requires !t.mark[f].done && t.nextDestid == s.nextDestid
    requires TreeAt(c, t, f) && TableAt(c, t, f) && SpanAt(c, t, f) && NextAt(c, t, f)
    ensures Inv(c, t, path)
  {
    hide Owned, Listed, Ids, TreeOk, TablesOk, SpansOk, Unique, NextsOk, PathOk, TreeAt, TableAt, SpanAt, NextAt,
         Evolves;
    UpdatesFields(c, s, t, f);
    SameBooks(c, s, t);
    UpdatesPath(c, s, t, f, path);
    EvTree(c, s, t, f);
    EvTables(c, s, t, f);
    EvSpans(c, s, t, f);
    EvUnique(c, s, t, f);
    EvNexts(c, s, t, f);
  }

  lemma {:induction false} OwnTree(c: Mport, s: State, t: State, f: nat)
    requires Updates(c, s, t, f) && TreeAt(c, s, f)
    ensures TreeAt(c, t, f)
  {
    var u := UpEnd(c, s, f).dev;
    if u in s.rdev { assert Same(s, t, u); }
  }

  lemma {:induction false} KeepsRoutesKeep(c: Mport, s: State, path: seq<End>, f: nat, t: State)
    requires Open(c, s, path, f) && KeepsRoutes(c, s, t, f) && Shape(c, t) && Ids(c, t) && NextAt(c, t, f)
    ensures Inv(c, t, path)
  {
    hide Owned, Listed, Ids, TreeOk, TablesOk, SpansOk, Unique, NextsOk, PathOk, TreeAt, TableAt, SpanAt, NextAt,
         Updates;
    ScanParts(c, s, path, f);
    OwnTree(c, s, t, f);
    OwnTable(c, s, t, f);
    OwnSpan(c, s, t, f);
    UpdatesKeep(c, s, path, f, t);
  }

  lemma {:induction false} NextUpdates(c: Mport, s: State, f: nat, q: nat, child: nat, t: State)
    requires Shape(c, s) && f in s.rdev && !s.mark[f].done && t == WithNext(s, f, q, child)
    ensures KeepsRoutes(c, s, t, f) && Shape(c, t)
  {
  }

  lemma {:induction false} NextRecorded(c: Mport, s: State, f: nat, q: nat, t: State)
    requires Shape(c, s) && f in s.rdev && NextAt(c, s, f) && !s.mark[f].done
    requires End(f, q) in c.topo.links && q != s.rdev[f].inport
    requires c.topo.links[End(f, q)].dev in s.rdev && t == WithNext(s, f, q, c.topo.links[End(f, q)].dev)
    ensures NextAt(c, t, f)
  {
  }

  lemma {:induction false} NextKeeps(c: Mport, s: State, path: seq<End>, f: nat, q: nat, t: State)
    requires Open(c, s, path, f) && End(f, q) in c.topo.links && q != s.rdev[f].inport
    requires c.topo.links[End(f, q)].dev in s.rdev && t == WithNext(s, f, q, c.topo.links[End(f, q)].dev)
    ensures Inv(c, t, path)
  {
    hide Owned, Listed, Ids, TreeOk, TablesOk, SpansOk, Unique, NextsOk, PathOk, NextAt, Updates, Evolves;
    ScanParts(c, s, path, f);
    NextUpdates(c, s, f, q, c.topo.links[End(f, q)].dev, t);
    NextRecorded(c, s, f, q, t);
    KeepsIds(c, s, path, t);
    KeepsRoutesKeep(c, s, path, f, t);
  }

  lemma {:induction false} KeepsIds(c: Mport, s: State, path: seq<End>, t: State)
    requires Inv(c, s, path) && Shape(c, t) && t.used == s.used && t.nextDestid == s.nextDestid
    requires t.devices == s.devices
    ensures Ids(c, t)
  {
    hide Owned, Listed, TreeOk, TablesOk, SpansOk, Unique, NextsOk, PathOk;
  }

  lemma {:induction false} AnyRouteUpdates(c: Mport, s: State, path: seq<End>, f: nat, q: nat, t: State)
    requires Open(c, s, path, f) && t == WithAnyRoute(c, s, f, q)
    ensures KeepsRoutes(c, s, t, f) && Shape(c, t) && NextAt(c, t, f) && Ids(c, t)
  {
    hide Owned, Listed, TreeOk, TablesOk, SpansOk, Unique;
    assert NextAt(c, s, f);
    assert Put(s.table[f], c.anyId, q) - {c.anyId} == s.table[f] - {c.anyId};
  }

  lemma {:induction false} AnyRouteKeeps(c: Mport, s: State, path: seq<End>, f: nat, q: nat, t: State)
    requires Open(c, s, path, f) && t == WithAnyRoute(c, s, f, q)
    ensures Inv(c, t, path)
  {
    hide Owned, Listed, Ids, TreeOk, TablesOk, SpansOk, Unique, NextsOk, PathOk, NextAt, Updates, Evolves;
    AnyRouteUpdates(c, s, path, f, q, t);
    KeepsRoutesKeep(c, s, path, f, t);
  }

  /** The IDs in `cover..next` belong behind port `q` of `f`. */
  ghost predicate Behind(c: Mport, s: State, f: nat, q: nat)
    requires Shape(c, s) && f in s.rdev
  {
    forall id: nat :: s.mark[f].cover <= id < s.nextDestid && id != c.hostId ==> ChildHolds(c, s, f, q, id)
  }

  lemma {:induction false} RoutesUpdate(c: Mport, s: State, path: seq<End>, f: nat, q: nat, t: State)
    requires Open(c, s, path, f) && Behind(c, s, f, q) && t == WithRoutes(c, s, f, q, s.mark[f].cover)
    ensures Updates(c, s, t, f) && Shape(c, t) && NextAt(c, t, f) && Ids(c, t)
  {
    hide Owned, Listed, TreeOk, TablesOk, SpansOk, Unique, Behind;
    assert NextAt(c, s, f);
  }

  lemma {:induction false} MergeOutside(table: Table, span: Table, id: nat)
    requires id !in span
    ensures (table + span) - {id} == (table - {id}) + span
  {
  }

  lemma {:induction false} RoutesTable(c: Mport, s: State, f: nat, q: nat, t: State, span: Table)
    requires Shape(c, s) && Shape(c, t) && f in s.rdev && f in t.rdev && TableAt(c, s, f)
    requires Behind(c, s, f, q) && s.nextDestid <= c.anyId && t.nextDestid == s.nextDestid
    requires span == Span(c, s.mark[f].cover, s.nextDestid, q)
    requires t.table == s.table[f := s.table[f] + span] && t.rdev[f].route == s.rdev[f].route + span
    requires t.rdev[f].inport == s.rdev[f].inport && t.mark[f] == s.mark[f].(cover := s.nextDestid)
    requires forall p: nat, id: nat :: ChildHolds(c, s, f, p, id) ==> ChildHolds(c, t, f, p, id)
    ensures TableAt(c, t, f)
  {
    hide ChildHolds;
    MergeOutside(s.table[f], span, c.anyId);
    var r := t.rdev[f].route;
    forall id <- r | s.mark[f].lo <= id && id != c.hostId ensures ChildHolds(c, t, f, r[id], id) {
      assert ChildHolds(c, s, f, if id in span then q else s.rdev[f].route[id], id);
    }
  }

  lemma {:induction false} RoutesSpan(c: Mport, s: State, f: nat, q: nat, t: State)
    requires Evolves(c, s, t, f) && f in s.rdev && TreeAt(c, s, f) && SpanAt(c, s, f) && TreeAt(c, t, f)
    requires t == WithRoutes(c, s, f, q, s.mark[f].cover)
    ensures SpanAt(c, t, f)
  {
  }

  lemma {:induction false} RoutesKeep(c: Mport, s: State, path: seq<End>, f: nat, q: nat, t: State)
    requires Open(c, s, path, f) && Behind(c, s, f, q) && t == WithRoutes(c, s, f, q, s.mark[f].cover)
    ensures Inv(c, t, path)
  {
    hide Owned, Listed, Ids, TreeOk, TablesOk, SpansOk, Unique, NextsOk, PathOk, NextAt, TreeAt, TableAt, SpanAt,
         Evolves, Behind, ChildHolds;
    RoutesUpdate(c, s, path, f, q, t);
    ScanParts(c, s, path, f);
    Room(c, s, path);
    OwnTree(c, s, t, f);
    EvHolds(c, s, t, f, f);
    RoutesTable(c, s, f, q, t, Span(c, s.mark[f].cover, s.nextDestid, q));
    RoutesSpan(c, s, f, q, t);
    UpdatesKeep(c, s, path, f, t);
  }

  // ----- leaving a switch

  ghost predicate Scanning(c: Mport, s: State, path: seq<End>, f: nat) {
    Open(c, s, path, f) && path != [] && path[|path| - 1].dev == f
  }

  /** The scan of `f` is over: its table covers every ID and all its links are recorded. */
  ghost predicate Leaving(c: Mport, s: State, path: seq<End>, f: nat, t: State) {
    && Scanning(c, s, path, f) && s.mark[f].cover == s.nextDestid
    && (forall q: nat :: End(f, q) in c.topo.links && q != s.rdev[f].inport ==> q in s.rdev[f].nextdev)
    && CanAlloc(c, s) && t == WithDone(c, s, f)
  }

  lemma {:induction false} DoneUpdates(c: Mport, s: State, f: nat, t: State)
    requires Shape(c, s) && f in s.rdev && !s.mark[f].done && CanAlloc(c, s) && t == WithDone(c, s, f)
    ensures Updates(c, s, t, f) && Shape(c, t)
  {
  }

  lemma {:induction false} DoneIds(c: Mport, s: State, path: seq<End>, f: nat, t: State)
    requires Leaving(c, s, path, f, t) && Shape(c, t)
    ensures Ids(c, t)
  {
    hide Owned, Listed, TreeOk, TablesOk, SpansOk, Unique, NextsOk, PathOk;
  }

  lemma {:induction false} DoneTable(c: Mport, s: State, f: nat, t: State)
    requires Shape(c, s) && Shape(c, t) && f in s.rdev && f in t.rdev && TableAt(c, s, f)
    requires t.table == s.table && t.rdev[f].route == s.rdev[f].route && t.rdev[f].inport == s.rdev[f].inport
    requires t.mark[f].lo == s.mark[f].lo && t.mark[f].cover == s.mark[f].cover && s.nextDestid <= t.nextDestid
    requires forall p: nat, id: nat :: ChildHolds(c, s, f, p, id) ==> ChildHolds(c, t, f, p, id)
    ensures TableAt(c, t, f)
  {
    hide ChildHolds;
  }

  lemma {:induction false} DoneNext(c: Mport, s: State, f: nat, t: State)
    requires Shape(c, s) && Shape(c, t) && f in s.rdev && f in t.rdev && NextAt(c, s, f)
    requires t.rdev[f].nextdev == s.rdev[f].nextdev && t.rdev[f].inport == s.rdev[f].inport
    requires forall d: nat :: d in s.rdev ==> d in t.rdev
    requires forall q: nat :: End(f, q) in c.topo.links && q != s.rdev[f].inport ==> q in s.rdev[f].nextdev
    ensures NextAt(c, t, f)
  {
  }

  lemma {:induction false} DoneSpan(c: Mport, s: State, path: seq<End>, f: nat, t: State)
    requires Leaving(c, s, path, f, t) && Updates(c, s, t, f) && Shape(c, t) && TreeAt(c, t, f)
    ensures SpanAt(c, t, f)
  {
    hide Owned, Listed, TreeOk, TablesOk, SpansOk, Unique, NextsOk, PathOk, TableAt, NextAt;
    ScanParts(c, s, path, f);
    var u := UpEnd(c, s, f).dev;
    if u in s.rdev { assert Same(s, t, u); }
  }

  lemma {:induction false} AllChildrenDone(c: Mport, s: State, path: seq<End>, f: nat)
    requires Scanning(c, s, path, f)
    ensures ChildrenDone(c, s, f)
  {
    hide Owned, Listed, Ids, TablesOk, Unique, NextsOk;
    forall x <- s.rdev | TreeAt(c, s, x) && UpEnd(c, s, x).dev == f ensures s.mark[x].done {
      assert SpanAt(c, s, x) && f != c.topo.host;
    }
  }

  lemma {:induction false} DonePath(c: Mport, s: State, path: seq<End>, f: nat, t: State)
    requires Leaving(c, s, path, f, t) && Updates(c, s, t, f) && Shape(c, t)
    ensures PathOk(c, t, path[..|path| - 1])
  {
    hide Owned, Listed, Ids, TreeOk, TablesOk, SpansOk, Unique, NextsOk, Evolves;
    UpdatesFields(c, s, t, f);
  }

  lemma {:induction false} DoneOwn(c: Mport, s: State, path: seq<End>, f: nat, t: State)
    requires Leaving(c, s, path, f, t)
    ensures Shape(c, s) && Updates(c, s, t, f) && Shape(c, t) && Ids(c, t)
    ensures TreeAt(c, t, f) && TableAt(c, t, f) && SpanAt(c, t, f) && NextAt(c, t, f)
    ensures c.topo.IsSwitch(f) && t.mark[f].lo == s.mark[f].lo && s.nextDestid <= t.mark[f].cover
    ensures t.mark[f].cover == t.mark[f].lo ==> s.nextDestid == t.mark[f].lo
  {
    hide Owned, Listed, Ids, TreeOk, TablesOk, SpansOk, Unique, NextsOk, PathOk, TreeAt, TableAt, SpanAt, NextAt,
         ChildHolds;
    ScanParts(c, s, path, f);
    DoneUpdates(c, s, f, t);
    DoneIds(c, s, path, f, t);
    OwnTree(c, s, t, f);
    EvHolds(c, s, t, f, f);
    DoneTable(c, s, f, t);
    DoneNext(c, s, f, t);
    DoneSpan(c, s, path, f, t);
  }

  lemma {:induction false} DoneKeeps(c: Mport, s: State, path: seq<End>, f: nat, t: State)
    requires Leaving(c, s, path, f, t)
    ensures Inv(c, t, path[..|path| - 1])
  {
    hide Owned, Listed, Ids, TreeOk, TablesOk, SpansOk, Unique, NextsOk, PathOk, TreeAt, TableAt, SpanAt, NextAt,
         Evolves;
    hide ChildrenDone, WithDone;
    DoneOwn(c, s, path, f, t);
    UpdatesFields(c, s, t, f);
    SameBooks(c, s, t);
    DonePath(c, s, path, f, t);
    EvTree(c, s, t, f);
    EvTables(c, s, t, f);
    AllChildrenDone(c, s, path, f);
    EvSpans(c, s, t, f);
    TerminalsBelow(c, s);
    EvUnique(c, s, t, f);
    EvNexts(c, s, t, f);
  }
}
