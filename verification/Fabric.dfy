/** The RapidIO fabric as hardware: devices, ports, links, switch route tables, and the way a
    maintenance packet with a destination ID and a hop count finds its target. */
module Fabric {
  datatype Option<T> = None | Some(value: T)

  /** Value of the Host Base Device ID Lock CSR while no host owns the device. */
  const FREE: nat := 0xffff

  datatype End = End(dev: nat, port: nat)

  datatype Kind = Endpoint | Switch(ports: nat)

  /** A route table as the driver sees it: output port by destination ID. */
  type Table = map<nat, nat>
  type Tables = seq<Table>

  function Put(table: Table, id: nat, port: nat): Table {
    table[id := port]
  }

  datatype Topology = Topology(kinds: seq<Kind>, links: map<End, End>, host: nat) {
    /** Endpoints have the single port 0; links are symmetric. */
    ghost predicate Valid() {
      && host < |kinds| && kinds[host].Endpoint?
      && (forall e <- links :: OnDevice(e) && links[e] in links && links[links[e]] == e)
    }

    predicate OnDevice(e: End) {
      e.dev < |kinds| && e.port < (if kinds[e.dev].Switch? then kinds[e.dev].ports else 1)
    }

    predicate IsSwitch(d: nat) {
      d < |kinds| && kinds[d].Switch?
    }

    /** The end on which packets sent by endpoint `d` arrive. */
    function FirstHop(d: nat): End
      requires End(d, 0) in links
    {
      links[End(d, 0)]
    }

    /** Where a packet arriving at `at` is consumed: an endpoint takes every packet, a switch the
        ones whose hop count is used up, and it forwards the others by its route table. */
    function Target(tables: Tables, at: End, id: nat, hops: nat): Option<End>
      requires |tables| == |kinds|
      decreases hops
    {
      if !IsSwitch(at.dev) || hops == 0 then Some(at)
      else if id in tables[at.dev] && End(at.dev, tables[at.dev][id]) in links then
        Target(tables, links[End(at.dev, tables[at.dev][id])], id, hops - 1)
      else None
    }

    /** `trail` lists the ends on which a packet with this ID arrives, one after the other. */
    ghost predicate Trail(tables: Tables, id: nat, trail: seq<End>)
      requires |tables| == |kinds|
    {
      && trail != []
      && forall k: nat :: k < |trail| - 1 ==> Hop(tables, id, trail[k], trail[k + 1])
    }

    /** The switch at `a` forwards the ID so that it arrives at `b`. */
    ghost predicate Hop(tables: Tables, id: nat, a: End, b: End)
      requires |tables| == |kinds|
    {
      && IsSwitch(a.dev) && id in tables[a.dev]
      && End(a.dev, tables[a.dev][id]) in links && links[End(a.dev, tables[a.dev][id])] == b
    }

    /** A trail survives changes to tables elsewhere. */
    lemma {:induction false} TrailKept(before: Tables, after: Tables, id: nat, trail: seq<End>)
      requires |before| == |after| == |kinds| && Trail(before, id, trail)
      requires forall k: nat :: k < |trail| - 1 && trail[k].dev < |kinds| ==>
                 after[trail[k].dev] == before[trail[k].dev]
      ensures Trail(after, id, trail)
    {
    }

    lemma {:induction false} TrailTarget(tables: Tables, id: nat, trail: seq<End>, hops: nat)
      requires |tables| == |kinds| && Trail(tables, id, trail) && |trail| - 1 <= hops
      requires |trail| - 1 == hops || !IsSwitch(trail[|trail| - 1].dev)
      ensures Target(tables, trail[0], id, hops) == Some(trail[|trail| - 1])
      decreases |trail|
    {
      if |trail| > 1 {
        assert Hop(tables, id, trail[0], trail[1]);
        var rest := trail[1..];
        assert forall k: nat :: k < |rest| ==> rest[k] == trail[k + 1];
        TrailTarget(tables, id, rest, hops - 1);
      }
    }
  }

  /** The lock register: a write takes a free lock, the owner's own ID releases it, and every
      other write is ignored. */
  function LockWrite(current: nat, value: nat): nat {
    if current == FREE then value
    else if current == value then FREE
    else current
  }
}
