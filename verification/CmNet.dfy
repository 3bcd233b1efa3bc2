/** Channels of the RapidIO channel manager on many nodes, and the packets between them: connection
    requests, their answers, data, and closing. */
module CmNet {
  const EIO: int := -5
  const ENOMEM: int := -12
  const EINVAL: int := -22
  const ENODEV: int := -19
  const EAGAIN: int := -11

  /** A channel number on a node; nodes go by destination ID. */
  datatype Addr = Addr(node: nat, ch: nat)

  datatype ChState = Idle | Connect | Connected | Disconnect | ChanBound | Listen | Destroying

  datatype ChOp = ConnReq | ConnAck | ConnClose | DataMsg | ConnNack

  /** A packet goes to node `to`; `hdrDst` is the destination that its header names. */
  datatype Packet = Packet(op: ChOp, src: Addr, hdrDst: nat, to: nat, dstCh: nat, msg: nat)

  /** A `struct rio_channel`: `rdev` is the remote device, and `inIdr` tells if the number still finds it. */
  datatype Chan = Chan(state: ChState, inIdr: bool, rdev: nat, remDestid: nat, remChannel: nat, acceptQueue: seq<Addr>)

  /** What became of a connection request: on its way, in the accept queue of a channel, accepted by
      creating a channel, or answered with a NACK or dropped. */
  datatype Fate = Flying | Queued(l: Addr) | Accepted(n: Addr) | Refused

  ghost function Target(p: Packet): Addr { Addr(p.to, p.dstCh) }

  /** The peer that a channel's own fields name. */
  ghost function Peer(c: Chan): Addr { Addr(c.rdev, c.remChannel) }

  type Fates = map<Addr, Fate>

  /** One of the two asked for the connection and the other was created for it. */
  ghost predicate Pair(fate: Fates, a: Addr, b: Addr) {
    (a in fate && fate[a] == Accepted(b)) || (b in fate && fate[b] == Accepted(a))
  }

  ghost predicate Takes(fate: Fates, n: Addr) {
    exists c :: c in fate && fate[c] == Accepted(n)
  }

  // ----- the invariant, part by part

  /** A channel that has asked knows whom; a channel that was created for a request knows by whom. */
  ghost predicate ChanOk(chans: map<Addr, Chan>, fate: Fates, a: Addr)
    requires a in chans
  {
    var c := chans[a];
    && (c.state == Connect ==> a in fate) && (c.state == Idle ==> c.remDestid == 0)
    && (c.state == Connected ==> Pair(fate, a, Peer(c)))
    && (a in fate ==>
          c.state in {Connect, Connected, Disconnect, Destroying} && c.remDestid == 0 && c.acceptQueue == [])
    && (a in fate && fate[a].Accepted? ==> fate[a].n.node == c.rdev && fate[a].n != a)
    && (a in fate && fate[a].Queued? ==>
          fate[a].l.node == c.rdev && fate[a].l in chans && a in chans[fate[a].l].acceptQueue)
    && (c.acceptQueue != [] ==> c.state in {Listen, Disconnect, Destroying})
    && (forall r <- c.acceptQueue :: r in fate && fate[r] == Queued(a))
    && NoTwice(c.acceptQueue)
  }

  ghost predicate NoTwice(q: seq<Addr>) {
    forall i, j :: 0 <= i < j < |q| ==> q[i] != q[j]
  }

  /** The acceptor of a request exists, names the requester, and was created for it alone. */
  ghost predicate AcceptOk(chans: map<Addr, Chan>, fate: Fates, a: Addr)
    requires a in fate
  {
    && a in chans
    && (fate[a].Accepted? ==>
          var n := fate[a].n;
          n in chans && n !in fate && Peer(chans[n]) == a && chans[n].remDestid == a.node
                && chans[n].state in {Connected, Disconnect, Destroying}
          && chans[n].acceptQueue == [])
  }

  ghost predicate OneAcceptor(fate: Fates) {
    forall a, b :: a in fate && b in fate && fate[a].Accepted? && fate[a] == fate[b] ==> a == b
  }

  /** What a packet that was sent tells. */
  ghost predicate SentOk(chans: map<Addr, Chan>, fate: Fates, p: Packet) {
    match p.op
    case ConnReq => p.src in fate && p.src in chans && chans[p.src].rdev == p.to
    case ConnAck => Target(p) in fate && fate[Target(p)] == Accepted(p.src)
    case ConnNack => Target(p) in fate && fate[Target(p)] == Refused
    case ConnClose => Pair(fate, p.src, Target(p)) && p.src in chans && !chans[p.src].inIdr
          && p.hdrDst == chans[p.src].remDestid
    case DataMsg => Pair(fate, p.src, Target(p)) && p.src in chans && p.hdrDst == chans[p.src].remDestid
  }

  /** The packets sent so far: each channel asks once and closes once, and each request has one answer. */
  ghost predicate Log(sent: seq<Packet>) {
    && (forall i, j :: 0 <= i < j < |sent| && sent[i].op == sent[j].op && sent[i].op in {ConnReq, ConnClose} ==>
          sent[i].src != sent[j].src)
    && (forall i, j :: 0 <= i < j < |sent| && sent[i].op in {ConnAck, ConnNack} && sent[j].op in {ConnAck, ConnNack} ==>
          Target(sent[i]) != Target(sent[j]))
  }

  /** Only packets that were sent are on their way; a request is on its way as long as its fate says so. */
  ghost predicate FlightOk(sent: seq<Packet>, flight: set<nat>, fate: Fates) {
    && (forall i <- flight :: i < |sent|)
    && (forall i <- flight :: sent[i].op == ConnReq && sent[i].src in fate ==> fate[sent[i].src] == Flying)
  }

  /** A request that is not settled has no answer yet. */
  ghost predicate Answers(sent: seq<Packet>, fate: Fates) {
    forall i :: 0 <= i < |sent| && sent[i].op in {ConnAck, ConnNack} && Target(sent[i]) in fate ==>
          fate[Target(sent[i])].Accepted? || fate[Target(sent[i])].Refused?
  }

  /** The log holds a connection request of `a`, an ACK from `n` to `a`. */
  ghost predicate Asked(sent: seq<Packet>, a: Addr) {
    exists i :: 0 <= i < |sent| && sent[i].op == ConnReq && sent[i].src == a
  }

  ghost predicate Acknowledged(sent: seq<Packet>, n: Addr, a: Addr) {
    exists i :: 0 <= i < |sent| && sent[i].op == ConnAck && sent[i].src == n && Target(sent[i]) == a
  }

  /** Every fate is that of a request in the log, and an acceptance has its ACK there. */
  ghost predicate Backed(sent: seq<Packet>, fate: Fates) {
    forall a <- fate :: Asked(sent, a) && (fate[a].Accepted? ==> Acknowledged(sent, fate[a].n, a))
  }

  ghost predicate Closes(sent: seq<Packet>, chans: map<Addr, Chan>) {
    forall a :: a in chans && chans[a].inIdr ==> NoClose(sent, a)
  }

  ghost predicate NoClose(sent: seq<Packet>, a: Addr) {
    forall i :: 0 <= i < |sent| ==> !(sent[i].op == ConnClose && sent[i].src == a)
  }

  /** A channel's number finds it until the channel is closed. */
  ghost predicate NumberOk(c: Chan, sent: seq<Packet>, a: Addr) {
    c.inIdr || c.state in {Disconnect, Destroying} || !NoClose(sent, a)
  }

  ghost predicate NumbersOk(chans: map<Addr, Chan>, sent: seq<Packet>) {
    forall a <- chans :: NumberOk(chans[a], sent, a)
  }

  // ----- how steps keep the parts

  ghost predicate ChansOk(chans: map<Addr, Chan>, fate: Fates) {
    forall a <- chans :: ChanOk(chans, fate, a)
  }

  ghost predicate AcceptsOk(chans: map<Addr, Chan>, fate: Fates) {
    forall a <- fate :: AcceptOk(chans, fate, a)
  }

  ghost predicate AllSentOk(chans: map<Addr, Chan>, fate: Fates, sent: seq<Packet>) {
    forall i :: 0 <= i < |sent| ==> SentOk(chans, fate, sent[i])
  }

  /** A channel changes its state or its number is given up; who it is connected with stays. */
  ghost predicate SameLinks(c: Chan, d: Chan) {
    d.rdev == c.rdev && d.remDestid == c.remDestid && (d.inIdr ==> c.inIdr)
  }

  lemma {:induction false} ChanChanges(chans: map<Addr, Chan>, fate: Fates, sent: seq<Packet>, a: Addr, d: Chan)
    requires ChansOk(chans, fate) && AcceptsOk(chans, fate) && AllSentOk(chans, fate, sent) && Closes(sent, chans)
    requires a in chans && SameLinks(chans[a], d) && d.acceptQueue == chans[a].acceptQueue
    requires a in fate || d.remChannel == chans[a].remChannel
    requires a !in fate && Takes(fate, a) ==> d.state in {Connected, Disconnect, Destroying}
    requires ChanOk(chans[a := d], fate, a)
    ensures ChansOk(chans[a := d], fate) && AcceptsOk(chans[a := d], fate) && AllSentOk(chans[a := d], fate, sent)
    ensures Closes(sent, chans[a := d])
  {
    var now := chans[a := d];
    forall b <- now | b != a ensures ChanOk(now, fate, b) {
      assert ChanOk(chans, fate, b);
    }
    forall b <- fate ensures AcceptOk(now, fate, b) {
      assert AcceptOk(chans, fate, b);
      if fate[b].Accepted? && fate[b].n == a { assert Takes(fate, a); }
    }
    forall i | 0 <= i < |sent| ensures SentOk(now, fate, sent[i]) {
      assert SentOk(chans, fate, sent[i]);
    }
  }

  lemma {:induction false} ChanAdded(chans: map<Addr, Chan>, fate: Fates, sent: seq<Packet>, a: Addr, d: Chan)
    requires ChansOk(chans, fate) && AcceptsOk(chans, fate) && AllSentOk(chans, fate, sent) && Closes(sent, chans)
    requires a !in chans && d == Chan(Idle, true, 0, 0, 0, [])
    ensures ChansOk(chans[a := d], fate) && AcceptsOk(chans[a := d], fate) && AllSentOk(chans[a := d], fate, sent)
    ensures Closes(sent, chans[a := d])
    ensures a !in fate && !Takes(fate, a)
  {
    var now := chans[a := d];
    assert a in fate ==> AcceptOk(chans, fate, a);
    assert forall c :: c in fate && fate[c] == Accepted(a) ==> AcceptOk(chans, fate, c);
    forall b <- now ensures ChanOk(now, fate, b) {
      assert b != a ==> ChanOk(chans, fate, b);
    }
    forall b <- fate ensures AcceptOk(now, fate, b) {
      assert AcceptOk(chans, fate, b);
    }
    forall i | 0 <= i < |sent| ensures SentOk(now, fate, sent[i]) && sent[i].src == a ==> sent[i].op !in {ConnClose} {
      assert SentOk(chans, fate, sent[i]);
    }
  }

  /** One more packet on its way. */
  lemma {:induction false} PacketSent(sent: seq<Packet>, flight: set<nat>, fate: Fates, p: Packet)
    requires Log(sent) && FlightOk(sent, flight, fate) && Answers(sent, fate)
    requires p.op in {ConnReq, ConnClose} ==>
               forall i :: 0 <= i < |sent| ==> !(sent[i].op == p.op && sent[i].src == p.src)
    requires p.op in {ConnAck, ConnNack} ==>
               forall i :: 0 <= i < |sent| && sent[i].op in {ConnAck, ConnNack} ==> Target(sent[i]) != Target(p)
    requires p.op in {ConnAck, ConnNack} && Target(p) in fate ==> fate[Target(p)].Accepted? || fate[Target(p)].Refused?
    requires p.op == ConnReq && p.src in fate ==> fate[p.src] == Flying
    ensures Log(sent + [p]) && FlightOk(sent + [p], flight + {|sent|}, fate) && Answers(sent + [p], fate)
  {
  }

  /** An unsettled request moves on. */
  ghost predicate MovesOn(fate: Fates, a: Addr) {
    a in fate && (fate[a].Flying? || fate[a].Queued?)
  }

  lemma {:induction false} PairsStay(fate: Fates, a: Addr, f: Fate, x: Addr, y: Addr)
    requires MovesOn(fate, a) && Pair(fate, x, y)
    ensures Pair(fate[a := f], x, y)
  {
  }

  lemma {:induction false} FateSent(chans: map<Addr, Chan>, fate: Fates, sent: seq<Packet>, a: Addr, f: Fate)
    requires AllSentOk(chans, fate, sent) && Answers(sent, fate) && MovesOn(fate, a)
    ensures AllSentOk(chans, fate[a := f], sent) && Answers(sent, fate[a := f])
    ensures forall i :: 0 <= i < |sent| && sent[i].op in {ConnAck, ConnNack} ==> Target(sent[i]) != a
  {
  }

  /** A request is made by an idle channel. */
  lemma {:induction false} Asks(chans: map<Addr, Chan>, fate: Fates, sent: seq<Packet>, flight: set<nat>, a: Addr,
        d: Chan, p: Packet)
    requires ChansOk(chans, fate) && AcceptsOk(chans, fate) && AllSentOk(chans, fate, sent) && Closes(sent, chans)
    requires OneAcceptor(fate) && Log(sent) && FlightOk(sent, flight, fate) && Answers(sent, fate)
    requires a in chans && chans[a].state == Idle
    requires d == chans[a].(state := Connect, rdev := d.rdev, remChannel := d.remChannel)
    requires p.op == ConnReq && p.src == a && p.to == d.rdev && chans[a].remDestid == 0
    ensures var now, f := chans[a := d], fate[a := Flying];
            && ChansOk(now, f) && AcceptsOk(now, f) && AllSentOk(now, f, sent + [p]) && Closes(sent + [p], now)
            && OneAcceptor(f)
            && Log(sent + [p]) && FlightOk(sent + [p], flight + {|sent|}, f) && Answers(sent + [p], f)
    ensures a !in fate
  {
    var now, f := chans[a := d], fate[a := Flying];
    assert ChanOk(chans, fate, a);
    forall b <- fate ensures AcceptOk(now, f, b) {
      assert AcceptOk(chans, fate, b);
    }
    forall b <- now ensures ChanOk(now, f, b) {
      assert ChanOk(chans, fate, b);
    }
    forall i | 0 <= i < |sent| ensures SentOk(now, f, sent[i]) && (sent[i].op == ConnReq ==> sent[i].src != a)
      ensures sent[i].op in {ConnAck, ConnNack} ==> Target(sent[i]) != a
    {
      assert SentOk(chans, fate, sent[i]);
    }
    PacketSent(sent, flight, f, p);
  }

  /** A request arrives at a listening channel. */
  lemma {:induction false} Queues(chans: map<Addr, Chan>, fate: Fates, sent: seq<Packet>, flight: set<nat>, l: Addr,
        i: nat)
    requires ChansOk(chans, fate) && AcceptsOk(chans, fate) && AllSentOk(chans, fate, sent) && Closes(sent, chans)
    requires OneAcceptor(fate) && Log(sent) && FlightOk(sent, flight, fate) && Answers(sent, fate)
    requires i in flight && i < |sent| && sent[i].op == ConnReq && l == Target(sent[i]) && l in chans
    requires chans[l].state == Listen
    ensures var a := sent[i].src;
            var now, f := chans[l := chans[l].(acceptQueue := chans[l].acceptQueue + [a])], fate[a := Queued(l)];
            && a in fate && fate[a] == Flying
            && ChansOk(now, f) && AcceptsOk(now, f) && AllSentOk(now, f, sent) && Closes(sent, now) && OneAcceptor(f)
            && FlightOk(sent, flight - {i}, f) && Answers(sent, f)
  {
    var a := sent[i].src;
    assert SentOk(chans, fate, sent[i]);
    var now, f := chans[l := chans[l].(acceptQueue := chans[l].acceptQueue + [a])], fate[a := Queued(l)];
    FateSent(chans, fate, sent, a, Queued(l));
    assert ChanOk(chans, fate, l) && ChanOk(chans, fate, a);
    forall b <- fate ensures AcceptOk(now, f, b) {
      assert AcceptOk(chans, fate, b);
    }
    forall b <- now ensures ChanOk(now, f, b) {
      assert ChanOk(chans, fate, b);
      if chans[b].state == Connected { PairsStay(fate, a, Queued(l), b, Peer(chans[b])); }
    }
    forall k | 0 <= k < |sent| ensures SentOk(now, f, sent[k]) {
      assert SentOk(chans, f, sent[k]);
    }
  }

  /** A request is not taken up. */
  lemma {:induction false} Refuses(chans: map<Addr, Chan>, fate: Fates, sent: seq<Packet>, flight: set<nat>, i: nat)
    requires ChansOk(chans, fate) && AcceptsOk(chans, fate) && AllSentOk(chans, fate, sent)
    requires OneAcceptor(fate) && Log(sent) && FlightOk(sent, flight, fate) && Answers(sent, fate)
    requires i in flight && i < |sent| && sent[i].op == ConnReq
    ensures var a := sent[i].src;
            var f := fate[a := Refused];
            && a in fate && fate[a] == Flying
            && ChansOk(chans, f) && AcceptsOk(chans, f) && AllSentOk(chans, f, sent) && OneAcceptor(f)
            && FlightOk(sent, flight - {i}, f) && Answers(sent, f)
            && forall k :: 0 <= k < |sent| && sent[k].op in {ConnAck, ConnNack} ==> Target(sent[k]) != a
  {
    var a := sent[i].src;
    var f := fate[a := Refused];
    assert SentOk(chans, fate, sent[i]);
    FateSent(chans, fate, sent, a, Refused);
    forall b <- fate ensures AcceptOk(chans, f, b) {
      assert AcceptOk(chans, fate, b);
    }
    forall b <- chans ensures ChanOk(chans, f, b) {
      assert ChanOk(chans, fate, b);
      if chans[b].state == Connected { PairsStay(fate, a, Refused, b, Peer(chans[b])); }
    }
  }

  /** The first request of an accept queue leaves it, for a new channel or for nothing. */
  ghost function Popped(chans: map<Addr, Chan>, l: Addr): map<Addr, Chan>
    requires l in chans && chans[l].acceptQueue != []
  {
    chans[l := chans[l].(acceptQueue := chans[l].acceptQueue[1..])]
  }

  /** The request waits behind the others of the channel it names. */
  ghost function Queueing(chans: map<Addr, Chan>, p: Packet): map<Addr, Chan> {
    if Target(p) !in chans then chans
    else chans[Target(p) := chans[Target(p)].(acceptQueue := chans[Target(p)].acceptQueue + [p.src])]
  }

  function NewChan(a: Addr): Chan { Chan(Connected, true, a.node, a.node, a.ch, []) }

  lemma {:induction false} PopKeeps(chans: map<Addr, Chan>, fate: Fates, sent: seq<Packet>, flight: set<nat>, l: Addr)
    requires ChansOk(chans, fate) && AcceptsOk(chans, fate) && AllSentOk(chans, fate, sent) && Closes(sent, chans)
    requires OneAcceptor(fate) && FlightOk(sent, flight, fate) && Answers(sent, fate)
    requires l in chans && chans[l].acceptQueue != []
    ensures var a := chans[l].acceptQueue[0];
            var now, f := Popped(chans, l), fate[a := Refused];
            && MovesOn(fate, a) && a in chans && a != l && chans[a].rdev == l.node
            && ChansOk(now, f) && AcceptsOk(now, f) && AllSentOk(now, f, sent) && Closes(sent, now) && OneAcceptor(f)
            && FlightOk(sent, flight, f) && Answers(sent, f)
            && forall k :: 0 <= k < |sent| && sent[k].op in {ConnAck, ConnNack} ==> Target(sent[k]) != a
  {
    hide ChansOk, AcceptsOk;
    var a := chans[l].acceptQueue[0];
    var now, f := Popped(chans, l), fate[a := Refused];
    PopChans(chans, fate, l);
    FateSent(chans, fate, sent, a, Refused);
    forall k | 0 <= k < |sent| ensures SentOk(now, f, sent[k]) {
      assert SentOk(chans, f, sent[k]);
    }
  }

  lemma {:induction false} PopChans(chans: map<Addr, Chan>, fate: Fates, l: Addr)
    requires ChansOk(chans, fate) && AcceptsOk(chans, fate) && l in chans && chans[l].acceptQueue != []
    ensures var a := chans[l].acceptQueue[0];
            var now, f := Popped(chans, l), fate[a := Refused];
            && a in fate && fate[a] == Queued(l) && a in chans && a != l && chans[a].rdev == l.node
            && ChansOk(now, f) && AcceptsOk(now, f)
  {
    var q := chans[l].acceptQueue;
    var a := q[0];
    var now, f := Popped(chans, l), fate[a := Refused];
    assert ChanOk(chans, fate, l) && q[0] in q;
    assert AcceptOk(chans, fate, a) && ChanOk(chans, fate, a);
    assert forall b :: b in q ==> b == a || b in q[1..];
    forall b <- fate ensures AcceptOk(now, f, b) {
      assert AcceptOk(chans, fate, b);
    }
    forall b <- now ensures ChanOk(now, f, b) {
      assert ChanOk(chans, fate, b);
      if chans[b].state == Connected { PairsStay(fate, a, Refused, b, Peer(chans[b])); }
    }
  }

  /** The new channel stands for a request that is with no one else. */
  lemma {:induction false} NewKeeps(chans: map<Addr, Chan>, fate: Fates, sent: seq<Packet>, flight: set<nat>, a: Addr,
        n: Addr)
    requires ChansOk(chans, fate) && AcceptsOk(chans, fate) && AllSentOk(chans, fate, sent) && Closes(sent, chans)
    requires OneAcceptor(fate) && FlightOk(sent, flight, fate) && Answers(sent, fate)
    requires a in fate && fate[a] == Refused && n !in chans && a in chans && n.node == chans[a].rdev
    requires forall k :: 0 <= k < |sent| && sent[k].op in {ConnAck, ConnNack} ==> Target(sent[k]) != a
    ensures var now, f := chans[n := NewChan(a)], fate[a := Accepted(n)];
            && ChansOk(now, f) && AcceptsOk(now, f) && AllSentOk(now, f, sent) && Closes(sent, now) && OneAcceptor(f)
            && FlightOk(sent, flight, f) && Answers(sent, f)
  {
    var now, f := chans[n := NewChan(a)], fate[a := Accepted(n)];
    assert ChanOk(chans, fate, a);
    forall b <- fate ensures AcceptOk(now, f, b) && (fate[b].Accepted? ==> fate[b].n != n) && b != n {
      assert AcceptOk(chans, fate, b);
    }
    forall b <- now ensures ChanOk(now, f, b) {
      assert b != n ==> ChanOk(chans, fate, b);
    }
    forall k | 0 <= k < |sent| ensures SentOk(now, f, sent[k]) && (sent[k].op == ConnClose ==> sent[k].src != n) {
      assert SentOk(chans, fate, sent[k]);
    }
  }

  /** An answer to a settled request. */
  lemma {:induction false} AnswerSent(chans: map<Addr, Chan>, fate: Fates, sent: seq<Packet>, p: Packet)
    requires AllSentOk(chans, fate, sent) && Closes(sent, chans) && SentOk(chans, fate, p) && p.op != ConnClose
    ensures AllSentOk(chans, fate, sent + [p]) && Closes(sent + [p], chans)
  {
    hide SentOk;
  }

  lemma {:induction false} LogGrows(sent: seq<Packet>, p: Packet)
    ensures forall a :: Asked(sent, a) ==> Asked(sent + [p], a)
    ensures forall n, a :: Acknowledged(sent, n, a) ==> Acknowledged(sent + [p], n, a)
    ensures p.op == ConnReq ==> Asked(sent + [p], p.src)
    ensures p.op == ConnAck ==> Acknowledged(sent + [p], p.src, Target(p))
  {
    var now := sent + [p];
    assert now[|sent|] == p;
    forall a | Asked(sent, a) ensures Asked(now, a) {
      var i :| 0 <= i < |sent| && sent[i].op == ConnReq && sent[i].src == a;
      assert now[i] == sent[i];
    }
    forall n, a | Acknowledged(sent, n, a) ensures Acknowledged(now, n, a) {
      var i :| 0 <= i < |sent| && sent[i].op == ConnAck && sent[i].src == n && Target(sent[i]) == a;
      assert now[i] == sent[i];
    }
  }

  lemma {:induction false} ClosesGrow(sent: seq<Packet>, p: Packet)
    ensures forall a :: (p.op == ConnClose && p.src == a) || !NoClose(sent, a) ==> !NoClose(sent + [p], a)
  {
    var now := sent + [p];
    forall a | (p.op == ConnClose && p.src == a) || !NoClose(sent, a) ensures !NoClose(now, a) {
      if NoClose(now, a) {
        assert now[|sent|] == p;
        forall i | 0 <= i < |sent| ensures !(sent[i].op == ConnClose && sent[i].src == a) { assert now[i] == sent[i]; }
      }
    }
  }

  /** What a step does to one request, with the packet that it sends about it. */
  lemma {:induction false} BackedBy(sent: seq<Packet>, fate: Fates, p: Packet, a: Addr, f: Fate)
    requires Backed(sent, fate)
    requires a in fate || (p.op == ConnReq && p.src == a)
    requires f.Accepted? ==> p.op == ConnAck && p.src == f.n && Target(p) == a
    ensures Backed(sent + [p], fate) && Backed(sent + [p], fate[a := f])
    ensures a in fate && !f.Accepted? ==> Backed(sent, fate[a := f])
  {
    hide Asked, Acknowledged;
    LogGrows(sent, p);
  }

  // ----- the nodes

  class Net {
    var chans: map<Addr, Chan>
    /** All packets ever sent; `flight` holds the positions of those that may still arrive. */
    ghost var sent: seq<Packet>
    ghost var flight: set<nat>
    ghost var fate: Fates
    /** Data messages taken in, with the channels that took them. */
    ghost var taken: seq<(Addr, Packet)>

    ghost predicate Valid()
      reads this
    {
      Steady() && NumbersOk(chans, sent)
    }

    ghost predicate Steady()
      reads this
    {
      && ChansOk(chans, fate) && AcceptsOk(chans, fate) && AllSentOk(chans, fate, sent) && Closes(sent, chans)
      && OneAcceptor(fate) && Log(sent) && FlightOk(sent, flight, fate) && Answers(sent, fate)
      && Backed(sent, fate) && TakenOk(taken, fate)
    }

    constructor ()
      ensures Valid() && chans == map[] && sent == [] && flight == {} && taken == []
    {
      chans, sent, flight, fate, taken := map[], [], {}, map[], [];
    }

    ghost method Send(p: Packet)
      modifies this`sent, this`flight
      ensures sent == old(sent) + [p] && flight == old(flight) + {|old(sent)|}
      ensures old(Backed(sent, fate)) ==> Backed(sent, fate)
      ensures old(NumbersOk(chans, sent)) ==> NumbersOk(chans, sent)
      ensures forall a :: (p.op == ConnClose && p.src == a) || !NoClose(old(sent), a) ==> !NoClose(sent, a)
    {
      hide Asked, Acknowledged;
      LogGrows(sent, p);
      ClosesGrow(sent, p);
      flight := flight + {|sent|};
      sent := sent + [p];
    }

    /** `riocm_ch_create`, with a number that no channel of the node had before. */
    method Create(a: Addr)
      requires Valid() && a !in chans
      modifies this`chans
      ensures Valid() && chans == old(chans)[a := Chan(Idle, true, 0, 0, 0, [])]
    {
      hide ChansOk, AcceptsOk, AllSentOk, Closes, OneAcceptor, Log, FlightOk, Answers, TakenOk, Backed, NoClose;
      ChanAdded(chans, fate, sent, a, Chan(Idle, true, 0, 0, 0, []));
      chans := chans[a := Chan(Idle, true, 0, 0, 0, [])];
    }

    /** The channel that a number finds. */
    predicate Found(a: Addr)
      reads this`chans
    {
      a in chans && chans[a].inIdr
    }

    /** `riocm_ch_bind` and `riocm_ch_listen`: on the way from IDLE to LISTEN. */
    method Bind(a: Addr) returns (rc: int)
      requires Valid()
      modifies this`chans
      ensures Valid() && (rc == 0 <==> old(Found(a) && chans[a].state == Idle))
      ensures if rc == 0 then chans == old(chans)[a := old(chans)[a].(state := ChanBound)]
            else rc == EINVAL && chans == old(chans)
    {
      hide ChansOk, AcceptsOk, AllSentOk, Closes, OneAcceptor, Log, FlightOk, Answers, TakenOk, Backed, NoClose;
      if !Found(a) || chans[a].state != Idle {
        return EINVAL;
      }
      EarlyState(a, ChanBound);
      chans := chans[a := chans[a].(state := ChanBound)];
      rc := 0;
    }

    method Listen(a: Addr) returns (rc: int)
      requires Valid()
      modifies this`chans
      ensures Valid() && (rc == 0 <==> old(Found(a) && chans[a].state == ChanBound))
      ensures if rc == 0 then chans == old(chans)[a := old(chans)[a].(state := ChState.Listen)]
            else rc == EINVAL && chans == old(chans)
    {
      hide ChansOk, AcceptsOk, AllSentOk, Closes, OneAcceptor, Log, FlightOk, Answers, TakenOk, Backed, NoClose;
      if !Found(a) || chans[a].state != ChanBound {
        return EINVAL;
      }
      EarlyState(a, ChState.Listen);
      chans := chans[a := chans[a].(state := ChState.Listen)];
      rc := 0;
    }

    lemma {:induction false} EarlyState(a: Addr, to: ChState)
      requires Valid() && a in chans && chans[a].state in {Idle, ChanBound} && to in {ChanBound, ChState.Listen}
      ensures var now := chans[a := chans[a].(state := to)];
              ChansOk(now, fate) && AcceptsOk(now, fate) && AllSentOk(now, fate, sent) && Closes(sent, now)
    {
      hide AllSentOk, Closes, OneAcceptor, Log, FlightOk, Answers, TakenOk, Backed, NoClose;
      assert ChanOk(chans, fate, a);
      NotTaken(a);
      ChanChanges(chans, fate, sent, a, chans[a].(state := to));
    }

    lemma {:induction false} NotTaken(a: Addr)
      requires AcceptsOk(chans, fate) && a in chans && chans[a].state !in {Connected, Disconnect, Destroying}
      ensures !Takes(fate, a)
    {
      assert forall c :: c in fate && fate[c] == Accepted(a) ==> AcceptOk(chans, fate, c);
    }

    /** `riocm_ch_connect`, up to the wait: an idle channel asks once. */
    method Connect(a: Addr, rdev: nat, remCh: nat) returns (rc: int)
      requires Valid()
      modifies this`chans, this`sent, this`flight, this`fate
      ensures Valid()
      ensures rc == if !old(Found(a)) then ENODEV else if old(chans)[a].state != Idle then EINVAL else 0
      ensures if rc == 0 then a in old(chans) && sent == old(sent) + [Packet(ConnReq, a, rdev, rdev, remCh, 0)]
                              && chans == old(chans)[a := old(chans)[a].(state := ChState.Connect, rdev := rdev,
                                    remChannel := remCh)]
                              && flight == old(flight) + {|old(sent)|}
              else sent == old(sent) && chans == old(chans) && flight == old(flight)
    {
      hide ChansOk, AcceptsOk, AllSentOk, Closes, OneAcceptor, Log, FlightOk, Answers, Backed, NoClose;
      if !Found(a) {
        return ENODEV;
      }
      if chans[a].state != Idle {
        return EINVAL;
      }
      var d := chans[a].(state := ChState.Connect, rdev := rdev, remChannel := remCh);
      ghost var p := Packet(ConnReq, a, rdev, rdev, remCh, 0);
      IdleFields(a);
      Asks(chans, fate, sent, flight, a, d, p);
      BackedBy(sent, fate, p, a, Flying);
      chans := chans[a := d];
      fate := fate[a := Flying];
      Send(p);
      rc := 0;
    }

    lemma {:induction false} IdleFields(a: Addr)
      requires ChansOk(chans, fate) && a in chans && chans[a].state == Idle
      ensures chans[a].remDestid == 0
    {
      assert ChanOk(chans, fate, a);
    }

    /** `riocm_req_handler`: a listening channel queues the request, any other case is refused with a
        NACK, if the requester is a known peer. */
    method ReqHandler(ghost i: nat, p: Packet, known: bool) returns (rc: int)
      requires Valid() && i in flight && i < |sent| && sent[i] == p && p.op == ConnReq
      modifies this`chans, this`sent, this`flight, this`fate
      ensures Valid()
      ensures rc == (if !old(Found(Addr(p.to, p.dstCh))) then ENODEV
                     else if old(chans)[Addr(p.to, p.dstCh)].state != ChState.Listen then EINVAL else 0)
      ensures if rc == 0 then sent == old(sent) && flight == old(flight) - {i} && chans == Queueing(old(chans), p)
              else chans == old(chans) && flight == old(flight) - {i} + (if known then {|old(sent)|} else {})
                   && sent == old(sent)
                   + if known then [Packet(ConnNack, Addr(p.to, p.dstCh), p.src.node, p.src.node, p.src.ch, 0)] else []
    {
      hide ChansOk, AcceptsOk, AllSentOk, Closes, OneAcceptor, Log, FlightOk, Answers, TakenOk, Backed, NoClose;
      var l := Addr(p.to, p.dstCh);
      if Found(l) && chans[l].state == ChState.Listen {
        Queues(chans, fate, sent, flight, l, i);
        FateTaken(p.src, Queued(l));
        BackedBy(sent, fate, p, p.src, Queued(l));
        chans := chans[l := chans[l].(acceptQueue := chans[l].acceptQueue + [p.src])];
        fate, flight := fate[p.src := Queued(l)], flight - {i};
        return 0;
      }
      rc := if !Found(l) then ENODEV else EINVAL;
      Refuses(chans, fate, sent, flight, i);
      FateTaken(p.src, Refused);
      BackedBy(sent, fate, p, p.src, Refused);
      fate, flight := fate[p.src := Refused], flight - {i};
      if known {
        NackOk(p);
        AnswerSent(chans, fate, sent, Nack(p));
        PacketSent(sent, flight, fate, Nack(p));
        Send(Nack(p));
      }
    }

    lemma {:induction false} NackOk(p: Packet)
      requires p.src in fate && fate[p.src] == Refused
      ensures SentOk(chans, fate, Nack(p)) && Target(Nack(p)) == p.src
    {
    }

    lemma {:induction false} FateTaken(a: Addr, f: Fate)
      requires TakenOk(taken, fate) && (a in fate ==> MovesOn(fate, a))
      ensures TakenOk(taken, fate[a := f])
    {
    }

    /** `riocm_ch_accept` once woken: the first request of the queue gets a new channel and an answer;
        a request from an unknown peer is dropped. */
    method Accept(l: Addr, n: Addr, found: bool) returns (rc: int)
      requires Valid() && n !in chans && n.node == l.node
      modifies this`chans, this`sent, this`flight, this`fate
      ensures Valid()
      ensures rc == (if !old(Found(l) && chans[l].state == ChState.Listen && chans[l].acceptQueue != []) then EINVAL
                     else if !found then ENODEV else 0)
      ensures rc == EINVAL ==> chans == old(chans) && sent == old(sent) && flight == old(flight)
      ensures rc != EINVAL ==> l in old(chans) && old(chans)[l].acceptQueue != []
      ensures rc == ENODEV ==> chans == Popped(old(chans), l) && sent == old(sent) && flight == old(flight)
      ensures rc == 0 ==>
                var a := old(chans)[l].acceptQueue[0];
                && chans == Popped(old(chans), l)[n := Chan(Connected, true, a.node, a.node, a.ch, [])] && Found(n)
                && flight == old(flight) + {|old(sent)|}
                && sent == old(sent) + [Packet(ConnAck, n, a.node, a.node, a.ch, 0)]
    {
      hide ChansOk, AcceptsOk, AllSentOk, Closes, OneAcceptor, Log, FlightOk, Answers, TakenOk, Backed, NoClose;
      if !Found(l) || chans[l].state != ChState.Listen || chans[l].acceptQueue == [] {
        return EINVAL;
      }
      var a := chans[l].acceptQueue[0];
      PopKeeps(chans, fate, sent, flight, l);
      FateTaken(a, Refused);
      ghost var ack := Packet(ConnAck, n, a.node, a.node, a.ch, 0);
      BackedBy(sent, fate, ack, a, Refused);
      assert Backed(sent, fate[a := Refused]);
      chans := chans[l := chans[l].(acceptQueue := chans[l].acceptQueue[1..])];
      fate := fate[a := Refused];
      if !found {
        return ENODEV;
      }
      NewKeeps(chans, fate, sent, flight, a, n);
      TakenMore(a, n);
      BackedBy(sent, fate, ack, a, Accepted(n));
      chans := chans[n := NewChan(a)];
      fate := fate[a := Accepted(n)];
      AnswerSent(chans, fate, sent, ack);
      PacketSent(sent, flight, fate, ack);
      Send(ack);
      rc := 0;
    }

    lemma {:induction false} TakenMore(a: Addr, n: Addr)
      requires TakenOk(taken, fate) && a in fate && !fate[a].Accepted?
      ensures TakenOk(taken, fate[a := Accepted(n)])
    {
    }

    /** `riocm_resp_handler`. */
    method RespHandler(ghost i: nat, p: Packet) returns (rc: int)
      requires Valid() && i in flight && i < |sent| && sent[i] == p && (p.op == ConnAck || p.op == ConnNack)
      modifies this`chans, this`flight
      ensures Valid()
      ensures rc == (if !old(Found(Addr(p.to, p.dstCh))) then ENODEV
                     else if old(chans)[Addr(p.to, p.dstCh)].state != ChState.Connect then EINVAL else 0)
      ensures flight == old(flight) - {i}
      ensures chans == if rc == 0 && p.op == ConnAck
                       then old(chans)[Addr(p.to, p.dstCh) := old(chans)[Addr(p.to, p.dstCh)].(state := Connected,
                             remChannel := p.src.ch)]
                       else old(chans)
    {
      hide ChansOk, AcceptsOk, AllSentOk, Closes, OneAcceptor, Log, FlightOk, Answers, TakenOk, Backed, NoClose;
      Arrived(i);
      flight := flight - {i};
      var a := Addr(p.to, p.dstCh);
      if !Found(a) {
        return ENODEV;
      }
      if chans[a].state != ChState.Connect {
        return EINVAL;
      }
      if p.op == ConnAck {
        Acked(i, p, a);
        chans := chans[a := chans[a].(state := Connected, remChannel := p.src.ch)];
      }
      rc := 0;
    }

    lemma {:induction false} Arrived(i: nat)
      requires FlightOk(sent, flight, fate)
      ensures FlightOk(sent, flight - {i}, fate)
    {
    }

    lemma {:induction false} Acked(i: nat, p: Packet, a: Addr)
      requires ChansOk(chans, fate) && AcceptsOk(chans, fate) && AllSentOk(chans, fate, sent) && Closes(sent, chans)
      requires i < |sent| && sent[i] == p && p.op == ConnAck && a == Target(p) && a in chans
      requires chans[a].state == ChState.Connect
      ensures var now := chans[a := chans[a].(state := Connected, remChannel := p.src.ch)];
              ChansOk(now, fate) && AcceptsOk(now, fate) && AllSentOk(now, fate, sent) && Closes(sent, now)
    {
      hide AllSentOk, Closes;
      assert SentOk(chans, fate, p) by { SentFact(i); }
      assert ChanOk(chans, fate, a);
      ChanChanges(chans, fate, sent, a, chans[a].(state := Connected, remChannel := p.src.ch));
    }

    lemma {:induction false} SentFact(i: nat)
      requires AllSentOk(chans, fate, sent) && i < |sent|
      ensures SentOk(chans, fate, sent[i])
    {
    }

    /** Closing by local request: the number is given up, then the channel is closed. */
    method Close(a: Addr) returns (rc: int)
      requires Valid()
      modifies this`chans, this`sent, this`flight
      ensures Valid() && rc == if old(Found(a)) then 0 else EINVAL
      ensures if rc != 0 then chans == old(chans) && sent == old(sent)
              else var c := old(chans)[a];
                   && chans == old(chans)[a := c.(inIdr := false, state := Destroying)]
                   && sent == old(sent) + if c.state == Connected
                                          then [Packet(ConnClose, a, c.remDestid, c.rdev, c.remChannel, 0)] else []
    {
      hide ChansOk, AcceptsOk, AllSentOk, Closes, OneAcceptor, Log, FlightOk, Answers, TakenOk, Backed, NoClose;
      if !Found(a) {
        return EINVAL;
      }
      GivesUp(a, chans[a].state);
      chans := chans[a := chans[a].(inIdr := false)];
      ChClose(a);
      rc := 0;
    }

    /** `riocm_ch_close`: only a channel that is still connected tells its peer. */
    method ChClose(a: Addr)
      requires Steady() && a in chans && !chans[a].inIdr && NoClose(sent, a)
      requires forall b <- chans :: b != a ==> NumberOk(chans[b], sent, b)
      modifies this`chans, this`sent, this`flight
      ensures Valid() && chans == old(chans)[a := old(chans)[a].(state := Destroying)]
      ensures sent == old(sent) + if old(chans)[a].state == Connected then [CloseOf(a, old(chans)[a])] else []
      ensures flight == old(flight) + if old(chans)[a].state == Connected then {|old(sent)|} else {}
    {
      hide ChansOk, AcceptsOk, AllSentOk, Closes, OneAcceptor, Log, FlightOk, Answers, TakenOk, Backed, NoClose;
      var c := chans[a];
      GivesUp(a, Destroying);
      chans := chans[a := c.(state := Destroying)];
      if c.state == Connected {
        CloseSent(a, CloseOf(a, c));
        Send(CloseOf(a, c));
      }
    }

    /** One channel in `rio_cm_shutdown`. */
    method Shutdown(a: Addr)
      requires Valid()
      modifies this`chans, this`sent, this`flight
      ensures Valid()
      ensures if old(Found(a) && chans[a].state == Connected)
              then chans == old(chans)[a := old(chans)[a].(inIdr := false)]
                    && sent == old(sent) + [Packet(ConnClose, a, old(chans)[a].remDestid, old(chans)[a].rdev,
                          old(chans)[a].remChannel, 0)]
              else chans == old(chans) && sent == old(sent)
    {
      hide ChansOk, AcceptsOk, AllSentOk, Closes, OneAcceptor, Log, FlightOk, Answers, TakenOk, Backed, NoClose;
      if Found(a) && chans[a].state == Connected {
        GivesUp(a, Connected);
        chans := chans[a := chans[a].(inIdr := false)];
        CloseSent(a, CloseOf(a, chans[a]));
        Send(CloseOf(a, chans[a]));
      }
    }

    /** `riocm_close_handler`: the channel goes away, and nothing is sent in reply. */
    method CloseHandler(ghost i: nat, p: Packet) returns (rc: int)
      requires Valid() && i in flight && i < |sent| && sent[i] == p && p.op == ConnClose
      modifies this`chans, this`sent, this`flight
      ensures Valid() && rc == (if old(Found(Addr(p.to, p.dstCh))) then 0 else ENODEV) && sent == old(sent)
      ensures flight == old(flight) - {i}
      ensures chans == if rc == 0 then old(chans)[Addr(p.to,
            p.dstCh) := old(chans)[Addr(p.to, p.dstCh)].(inIdr := false, state := Destroying)]
                       else old(chans)
    {
      hide ChansOk, AcceptsOk, AllSentOk, Closes, OneAcceptor, Log, FlightOk, Answers, TakenOk, Backed, NoClose;
      Arrived(i);
      flight := flight - {i};
      var a := Addr(p.to, p.dstCh);
      if !Found(a) {
        return ENODEV;
      }
      GivesUp(a, Disconnect);
      chans := chans[a := chans[a].(inIdr := false, state := Disconnect)];
      ChClose(a);
      rc := 0;
    }

    /** A channel without its number, on its way out. */
    lemma {:induction false} GivesUp(a: Addr, to: ChState)
      requires Steady() && a in chans && (to == Disconnect || to == Destroying || to == chans[a].state)
      ensures var now := chans[a := chans[a].(inIdr := false, state := to)];
              && ChansOk(now, fate) && AcceptsOk(now, fate) && AllSentOk(now, fate, sent) && Closes(sent, now)
      ensures chans[a].inIdr ==> NoClose(sent, a)
      ensures chans[a].state == Connected ==> Pair(fate, a, Peer(chans[a]))
    {
      hide AllSentOk, OneAcceptor, Log, FlightOk, Answers, TakenOk, Backed, NoClose;
      assert ChanOk(chans, fate, a);
      if Takes(fate, a) { AcceptorState(a); }
      ChanChanges(chans, fate, sent, a, chans[a].(inIdr := false, state := to));
    }

    lemma {:induction false} AcceptorState(a: Addr)
      requires AcceptsOk(chans, fate) && Takes(fate, a) && a in chans
      ensures chans[a].state in {Connected, Disconnect, Destroying}
    {
    }

    /** A first and only CLOSE, to the peer. */
    lemma {:induction false} CloseSent(a: Addr, p: Packet)
      requires a in chans && !chans[a].inIdr && AllSentOk(chans, fate, sent) && Closes(sent, chans)
      requires Log(sent) && FlightOk(sent, flight, fate) && Answers(sent, fate) && NoClose(sent, a)
      requires p == CloseOf(a, chans[a]) && Pair(fate, a, Peer(chans[a]))
      ensures AllSentOk(chans, fate, sent + [p]) && Closes(sent + [p], chans)
      ensures Log(sent + [p]) && FlightOk(sent + [p], flight + {|sent|}, fate) && Answers(sent + [p], fate)
    {
    }

    /** `riocm_ch_send`. */
    method SendData(a: Addr, msg: nat) returns (rc: int)
      requires Valid()
      modifies this`sent, this`flight
      ensures Valid() && rc == (if !Found(a) then ENODEV else if chans[a].state != Connected then EAGAIN else 0)
      ensures if rc == 0 then a in chans
            && sent == old(sent) + [Packet(DataMsg, a, chans[a].remDestid, chans[a].rdev, chans[a].remChannel, msg)]
              else sent == old(sent)
    {
      hide ChansOk, AcceptsOk, AllSentOk, Closes, OneAcceptor, Log, FlightOk, Answers, TakenOk, Backed, NoClose;
      if !Found(a) {
        return ENODEV;
      }
      if chans[a].state != Connected {
        return EAGAIN;
      }
      ghost var p := Packet(DataMsg, a, chans[a].remDestid, chans[a].rdev, chans[a].remChannel, msg);
      assert SentOk(chans, fate, p) by { Talks(a); }
      AnswerSent(chans, fate, sent, p);
      PacketSent(sent, flight, fate, p);
      Send(p);
      rc := 0;
    }

    lemma {:induction false} Talks(a: Addr)
      requires ChansOk(chans, fate) && a in chans && chans[a].state == Connected
      ensures Pair(fate, a, Peer(chans[a]))
    {
      assert ChanOk(chans, fate, a);
    }

    /** `rio_rx_data_handler`, as far as it finds the channel; a full ring drops the message. */
    method DataHandler(ghost i: nat, p: Packet, full: bool) returns (rc: int)
      requires Valid() && i in flight && i < |sent| && sent[i] == p && p.op == DataMsg
      modifies this`flight, this`taken
      ensures Valid()
      ensures rc == (if !Found(Addr(p.to, p.dstCh)) then ENODEV
                     else if chans[Addr(p.to, p.dstCh)].state != Connected then EIO else if full then ENOMEM else 0)
      ensures flight == old(flight) - {i}
      ensures taken == old(taken) + if rc == 0 then [(Addr(p.to, p.dstCh), p)] else []
    {
      hide ChansOk, AcceptsOk, AllSentOk, Closes, OneAcceptor, Log, FlightOk, Answers, TakenOk, Backed, NoClose;
      Arrived(i);
      flight := flight - {i};
      var a := Addr(p.to, p.dstCh);
      if !Found(a) {
        return ENODEV;
      }
      if chans[a].state != Connected {
        return EIO;
      }
      if full {
        return ENOMEM;
      }
      assert Pair(fate, p.src, a) by { SentFact(i); }
      TakenAlso(a, p);
      taken := taken + [(a, p)];
      rc := 0;
    }

    lemma {:induction false} TakenAlso(a: Addr, p: Packet)
      requires TakenOk(taken, fate) && Pair(fate, p.src, a)
      ensures TakenOk(taken + [(a, p)], fate)
    {
    }

    // ----- what holds over every run

    /** The log tells all about requests and their acceptors. */
    lemma {:induction false} Logged(a: Addr, n: Addr)
      requires Valid()
      ensures a in fate <==> Asked(sent, a)
      ensures a in fate && fate[a] == Accepted(n) <==> Acknowledged(sent, n, a)
      ensures Asked(sent, n) ==> !Acknowledged(sent, n, a)
    {
      hide ChansOk, Closes, OneAcceptor, Log, FlightOk, Answers, TakenOk;
      if Asked(sent, a) {
        var i :| 0 <= i < |sent| && sent[i].op == ConnReq && sent[i].src == a;
        assert SentOk(chans, fate, sent[i]);
      }
      if Asked(sent, n) {
        var i :| 0 <= i < |sent| && sent[i].op == ConnReq && sent[i].src == n;
        assert SentOk(chans, fate, sent[i]);
      }
      if Acknowledged(sent, n, a) {
        var i :| 0 <= i < |sent| && sent[i].op == ConnAck && sent[i].src == n && Target(sent[i]) == a;
        assert SentOk(chans, fate, sent[i]);
        assert AcceptOk(chans, fate, a);
      }
    }

    /** Agreement: a connected channel has a peer at the address its fields name.  If it asked, the peer
        sent it the ACK and names it; if not, the peer asked and this channel sent it the ACK, and once
        the peer is connected too the two name each other. */
    lemma {:induction false} Agreement(a: Addr)
      requires Valid() && a in chans && chans[a].state == Connected
      ensures var b := Peer(chans[a]);
              && b in chans
              && (Asked(sent, a) ==>
                    && Acknowledged(sent, b, a) && Peer(chans[b]) == a
                    && chans[b].state in {Connected, Disconnect, Destroying})
              && (!Asked(sent, a) ==> Asked(sent, b) && Acknowledged(sent, a, b))
              && (chans[b].state == Connected ==> Peer(chans[b]) == a)
    {
      hide AllSentOk, Closes, OneAcceptor, Log, FlightOk, Answers, TakenOk, Backed, Asked, Acknowledged;
      var b := Peer(chans[a]);
      Logged(a, b);
      Logged(b, a);
      assert ChanOk(chans, fate, a);
      assert a in fate ==> AcceptOk(chans, fate, a);
      assert b in fate ==> AcceptOk(chans, fate, b);
      if chans[b].state == Connected { assert ChanOk(chans, fate, b); }
    }

    /** A connected channel is found by its number exactly until it has sent a CLOSE. */
    lemma {:induction false} FoundUntilClose(a: Addr)
      requires Valid() && a in chans && chans[a].state == Connected
      ensures Found(a) <==> NoClose(sent, a)
    {
      hide ChansOk, AcceptsOk, AllSentOk, OneAcceptor, Log, FlightOk, Answers, TakenOk, Backed, NoClose;
      assert NumberOk(chans[a], sent, a);
    }

    /** The ACKs in the log: no two go to one request, no two come from one channel, and each comes from
        a channel that was created for the request it answers. */
    lemma {:induction false} OneForOne(i: nat, j: nat)
      requires Valid() && i < |sent| && j < |sent| && sent[i].op == ConnAck && sent[j].op == ConnAck
      ensures sent[i].src == sent[j].src ==> i == j
      ensures Target(sent[i]) == Target(sent[j]) ==> i == j
      ensures sent[i].src in chans && Peer(chans[sent[i].src]) == Target(sent[i])
    {
      hide Closes, FlightOk, TakenOk, ChansOk;
      assert SentOk(chans, fate, sent[i]) && SentOk(chans, fate, sent[j]);
      assert AcceptOk(chans, fate, Target(sent[i]));
    }

    /** Each channel asks at most once and closes at most once, and gets at most one answer, be it an ACK
        or a NACK. */
    lemma {:induction false} AtMostOnce(i: nat, j: nat)
      requires Valid() && i < |sent| && j < |sent|
      ensures sent[i].op == sent[j].op && sent[i].op in {ConnReq, ConnClose} && sent[i].src == sent[j].src ==> i == j
      ensures sent[i].op in {ConnAck, ConnNack} && sent[j].op in {ConnAck, ConnNack} ==>
                Target(sent[i]) == Target(sent[j]) ==> i == j
    {
    }

    /** Data and CLOSE packets only pass between the two ends of a connection, one of which asked and got
        the other's ACK; the header names the right node exactly if the sender did not ask, or the right
        node is 0. */
    lemma {:induction false} BetweenPeers(i: nat)
      requires Valid() && i < |sent| && sent[i].op in {ConnClose, DataMsg}
      ensures var a, b := sent[i].src, Target(sent[i]); Acknowledged(sent, a, b) || Acknowledged(sent, b, a)
      ensures sent[i].hdrDst == sent[i].to <==> sent[i].to == 0 || !Asked(sent, sent[i].src)
    {
      hide Closes, OneAcceptor, Log, FlightOk, Answers, TakenOk, Backed, Asked, Acknowledged;
      var a, b := sent[i].src, Target(sent[i]);
      Logged(a, b);
      Logged(b, a);
      assert SentOk(chans, fate, sent[i]);
      assert ChanOk(chans, fate, a);
      assert b in fate ==> AcceptOk(chans, fate, b);
    }
  }

  /** Node 1 asks node 2 for a connection, gets it, and sends a message: its header names node 0. */
  method WrongHeader() returns (net: Net)
    ensures net.Valid() && |net.sent| == 3 && net.sent[2] == Packet(DataMsg, Addr(1, 5), 0, 2, 11, 7)
  {
    hide ChansOk, AcceptsOk, AllSentOk, Closes, OneAcceptor, Log, FlightOk, Answers, TakenOk, Backed, Net.Valid;
    var l, a, n := Addr(2, 10), Addr(1, 5), Addr(2, 11);
    net := Asking(l, a);
    var rc := net.ReqHandler(0, Packet(ConnReq, a, 2, 2, 10, 0), true);
    assert net.chans[l].acceptQueue == [a];
    rc := net.Accept(l, n, true);
    assert net.chans[a].state == ChState.Connect;
    rc := net.RespHandler(1, Packet(ConnAck, n, 1, 1, 5, 0));
    rc := net.SendData(a, 7);
  }

  /** A listening channel, and another one that has asked it. */
  method Asking(l: Addr, a: Addr) returns (net: Net)
    requires l != a
    ensures fresh(net) && net.Valid() && net.sent == [Packet(ConnReq, a, l.node, l.node, l.ch, 0)] && net.flight == {0}
    ensures net.chans == map[l := Chan(ChState.Listen, true, 0, 0, 0, []),
                             a := Chan(ChState.Connect, true, l.node, 0, l.ch, [])]
  {
    hide ChansOk, AcceptsOk, AllSentOk, Closes, OneAcceptor, Log, FlightOk, Answers, TakenOk, Backed, Net.Valid;
    net := new Net();
    net.Create(l);
    var rc := net.Bind(l);
    rc := net.Listen(l);
    net.Create(a);
    rc := net.Connect(a, l.node, l.ch);
  }

  /** The CLOSE of a channel, and the NACK to a request. */
  function CloseOf(a: Addr, c: Chan): Packet { Packet(ConnClose, a, c.remDestid, c.rdev, c.remChannel, 0) }

  function Nack(p: Packet): Packet { Packet(ConnNack, Addr(p.to, p.dstCh), p.src.node, p.src.node, p.src.ch, 0) }

  ghost predicate TakenOk(taken: seq<(Addr, Packet)>, fate: Fates) {
    forall t <- taken :: Pair(fate, t.1.src, t.0)
  }
}
