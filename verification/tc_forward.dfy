/** The forwarding loops of a transparent clock, over ports whose queues share the messages they hold. */
module TcForward {
  import opened Options
  import opened PtpDataset
  import opened MsgLayout
  import opened PtpFsm
  import opened TcQueue

  /** A message in memory.  The queues of several ports may hold the same one. */
  class PtpMessage {
    const kind: Kind
    const sequenceId: UInt16
    const source: PortIdentity
    const requesting: PortIdentity
    const domain: Byte
    var correction: int
    var twoStep: bool

    constructor (kind: Kind, sequenceId: UInt16, source: PortIdentity, requesting: PortIdentity, domain: Byte,
                 correction: int, twoStep: bool)
      ensures this.kind == kind && this.domain == domain && this.twoStep == twoStep
      ensures Value() == Message(kind, sequenceId, source, requesting, correction)
    {
      this.kind, this.sequenceId, this.source, this.requesting := kind, sequenceId, source, requesting;
      this.domain, this.correction, this.twoStep := domain, correction, twoStep;
    }

    function Value(): Message
      reads this`correction
    {
      Message(kind, sequenceId, source, requesting, correction)
    }
  }

  datatype Record = Record(msg: PtpMessage, residence: int, ingress: nat)

  ghost function Held(queue: seq<Record>): set<PtpMessage> {
    set r | r in queue :: r.msg
  }

  function Entry(r: Record): Txd
    reads r.msg`correction
  {
    Txd(r.msg.Value(), r.residence, r.ingress)
  }

  function View(queue: seq<Record>): seq<Txd>
    reads Held(queue)`correction
  {
    if queue == [] then []
    else
      assert Held(queue) == Held(queue[..|queue| - 1]) + {queue[|queue| - 1].msg};
      View(queue[..|queue| - 1]) + [Entry(queue[|queue| - 1])]
  }

  lemma {:induction false} ViewAt(queue: seq<Record>)
    ensures |View(queue)| == |queue|
    ensures forall i :: 0 <= i < |queue| ==> View(queue)[i] == Entry(queue[i])
  {
    if queue != [] {
      ViewAt(queue[..|queue| - 1]);
    }
  }

  /** The messages of one kind among some messages. */
  function OfKind(s: seq<Message>, kind: Kind): seq<Message> {
    if s == [] then []
    else OfKind(s[..|s| - 1], kind) + if s[|s| - 1].kind == kind then [s[|s| - 1]] else []
  }

  /** What was sent one way among what was sent. */
  function Through(s: seq<Sent>, via: Option<nat>): seq<Message> {
    if s == [] then []
    else Through(s[..|s| - 1], via) + if s[|s| - 1].via == via then [s[|s| - 1].msg] else []
  }

  class TcPort {
    const number: UInt16
    const domain: Byte
    const spanningTree: bool
    var state: State
    var peerDelay: int
    var asymmetry: int
    var transmitted: seq<Record>
    /** What has been put on the network through this port. */
    var wire: seq<Message>
    /** The messages sent because an exchange on this queue was completed. */
    ghost var completed: seq<Sent>
    /** All that has happened to this queue. */
    ghost var ops: seq<Op>

    constructor (number: UInt16, domain: Byte, spanningTree: bool, state: State)
      ensures this.number == number && this.domain == domain && this.spanningTree == spanningTree
      ensures Valid() && ops == [] && wire == [] && transmitted == []
    {
      this.number, this.domain, this.spanningTree, this.state := number, domain, spanningTree, state;
      peerDelay, asymmetry, transmitted, wire, completed, ops := 0, 0, [], [], [], [];
    }

    /** The queue accounts for its whole history, and the Follow_Ups sent through this port are those its queue
        completed. */
    ghost predicate Valid()
      reads this, Held(transmitted)`correction
    {
      && Run(ops, |ops|) == Account(View(transmitted), completed)
      && OfKind(wire, FollowUp) == Through(completed, None)
    }

    function AsIngress(): Ingress
      reads `peerDelay, `asymmetry
    {
      Ingress(number, peerDelay, asymmetry)
    }
  }

  /** Whether a message that came in on `q` must not go out through `p`. */
  predicate Blocked(q: TcPort, p: TcPort, m: PtpMessage)
    reads q`state, p`state
  {
    || q == p
    || p.number == 0
    || (q.spanningTree && m.domain == p.domain
        && (BlockedIn(q.state, m.kind) || BlockedOut(p.state, m.kind)))
  }

  predicate BlockedIn(s: State, kind: Kind) {
    match s
    case Master | GrandMaster => !kind.DelayReq?
    case Uncalibrated | Slave => false
    case _ => true
  }

  predicate BlockedOut(s: State, kind: Kind) {
    match s
    case Master | GrandMaster => kind.DelayReq?
    case Uncalibrated | Slave => !kind.DelayReq?
    case _ => true
  }

  /** Down the tree: within the clock's own domain, and with the spanning tree in force, a Delay_Req goes up, out
      through a port that follows a master, and anything else comes from such a port and goes down, out through a
      master. */
  lemma DownTheTree(q: TcPort, p: TcPort, m: PtpMessage)
    requires q != p && p.number != 0
    ensures !q.spanningTree || m.domain != p.domain ==> !Blocked(q, p, m)
    ensures q.spanningTree && m.domain == p.domain ==>
      (!Blocked(q, p, m) <==>
        if m.kind.DelayReq? then Tracking(p.state) && (Tracking(q.state) || q.state.Master? || q.state.GrandMaster?)
        else Tracking(q.state) && (p.state.Master? || p.state.GrandMaster?))
  {
  }

  /** So with one port that follows a master, what is not a Delay_Req never comes back up, and a Delay_Req goes out
      through one port at most. */
  lemma NoLoops(ports: seq<TcPort>, a: nat, b: nat, c: nat, d: nat, m: PtpMessage)
    requires a < |ports| && b < |ports| && c < |ports| && d < |ports|
    requires forall i, j :: 0 <= i < j < |ports| ==> !(Tracking(ports[i].state) && Tracking(ports[j].state))
    requires ports[a].spanningTree && ports[c].spanningTree && m.domain == ports[b].domain == ports[d].domain
    requires !Blocked(ports[a], ports[b], m) && !Blocked(ports[c], ports[d], m)
    ensures if m.kind.DelayReq? then b == d else a == c && b != a && d != a
  {
  }

  lemma {:induction false} RunExtends(ops: seq<Op>, op: Op, n: nat)
    requires n <= |ops|
    ensures Run(ops + [op], n) == Run(ops, n)
    ensures Run(ops + [op], |ops| + 1) == Step(Run(ops + [op], |ops|), op)
  {
    hide Step;
    if n > 0 {
      RunExtends(ops, op, n - 1);
    }
  }

  /** Every message has the correction it had. */
  twostate predicate CorrectionsKept(new S: set<PtpMessage>)
    reads S`correction
  {
    forall m :: m in S ==> old(allocated(m)) && m.correction == old(m.correction)
  }

  lemma OfKindAdd(s: seq<Message>, m: Message, kind: Kind)
    ensures OfKind(s + [m], kind) == OfKind(s, kind) + if m.kind == kind then [m] else []
  {
    assert (s + [m])[..|s|] == s;
  }

  lemma ThroughAdd(s: seq<Sent>, x: Sent, via: Option<nat>)
    ensures Through(s + [x], via) == Through(s, via) + if x.via == via then [x.msg] else []
  {
    assert (s + [x])[..|s|] == s;
  }

  lemma ViewAppend(queue: seq<Record>, r: Record)
    ensures View(queue + [r]) == View(queue) + [Entry(r)]
  {
    assert (queue + [r])[..|queue|] == queue;
  }

  lemma ViewRemove(queue: seq<Record>, i: nat)
    requires i < |queue|
    ensures |View(queue)| == |queue|
    ensures View(queue[..i] + queue[i + 1..]) == View(queue)[..i] + View(queue)[i + 1..]
  {
    hide View;
    ViewAt(queue);
    ViewAt(queue[..i] + queue[i + 1..]);
  }

  lemma FirstMatchIs(queue: seq<Txd>, op: Op, i: nat)
    requires i <= |queue| && (i < |queue| ==> Matches(queue[i], op))
    requires forall j :: 0 <= j < i ==> !Matches(queue[j], op)
    ensures FirstMatch(queue, op) == if i < |queue| then Some(i) else None
  {
  }

  /** Looks for the entry of a queue that `op` completes. */
  method Search(queue: seq<Record>, op: Op) returns (i: nat)
    ensures i <= |queue| == |View(queue)|
    ensures FirstMatch(View(queue), op) == if i < |queue| then Some(i) else None
    ensures i < |queue| ==> View(queue)[i] == Entry(queue[i])
  {
    ViewAt(queue);
    i := 0;
    while i < |queue| && !Matches(Entry(queue[i]), op)
      invariant i <= |queue|
      invariant forall j :: 0 <= j < i ==> !Matches(View(queue)[j], op)
    {
      i := i + 1;
    }
    FirstMatchIs(View(queue), op, i);
  }

  /** Sends a message with another correction, and restores it for the next port. */
  method SendCorrected(p: TcPort, m: PtpMessage, correction: int)
    modifies p`wire, m`correction
    ensures p.wire == old(p.wire) + [m.Value().(correction := correction)]
    ensures m.correction == old(m.correction)
  {
    var c1 := m.correction;
    m.correction := correction;
    p.wire := p.wire + [m.Value()];
    m.correction := c1;
  }

  /** Keeps a message until its partner comes. */
  method Stash(p: TcPort, r: Record, ghost op: Op)
    requires p.Valid() && FirstMatch(View(p.transmitted), op).None?
    requires !op.Response? && Entry(r) == Stashed(op)
    modifies p`transmitted, p`ops
    ensures p.Valid() && p.ops == old(p.ops) + [op] && p.transmitted == old(p.transmitted) + [r]
  {
    hide Run, View, FirstMatch, OfKind, Through;
    RunExtends(p.ops, op, |p.ops|);
    ViewAppend(p.transmitted, r);
    p.transmitted := p.transmitted + [r];
    p.ops := p.ops + [op];
  }

  /** Drops the entry that `op` completed, once the message that completes it has been sent. */
  method Drop(p: TcPort, i: nat, ghost op: Op)
    requires i < |p.transmitted| == |View(p.transmitted)|
    requires FirstMatch(View(p.transmitted), op) == Some(i)
    requires Run(p.ops, |p.ops|) == Account(View(p.transmitted), p.completed)
    modifies p`transmitted, p`completed, p`ops
    ensures Run(p.ops, |p.ops|) == Account(View(p.transmitted), p.completed)
    ensures p.completed == old(p.completed) + [Completed(old(View(p.transmitted))[i], op)]
    ensures p.ops == old(p.ops) + [op]
    ensures p.transmitted == old(p.transmitted[..i] + p.transmitted[i + 1..])
  {
    hide Run, View, FirstMatch, Matches, Completed;
    RunExtends(p.ops, op, |p.ops|);
    ViewRemove(p.transmitted, i);
    p.completed := p.completed + [Completed(View(p.transmitted)[i], op)];
    p.transmitted := p.transmitted[..i] + p.transmitted[i + 1..];
    p.ops := p.ops + [op];
  }

  /** A Sync or a Follow_Up that came in on `q` goes out through `p`.  If it completes an exchange, `m` is sent. */
  method CompleteSyfup(q: TcPort, p: TcPort, msg: PtpMessage, residence: int) returns (ghost m: Option<Message>)
    requires p.Valid() && q != p
    requires msg.kind.Sync? || msg.kind.FollowUp?
    modifies p`transmitted, p`wire, p`completed, p`ops
    modifies ({msg} + Held(p.transmitted))`correction
    ensures p.Valid() && p.ops == old(p.ops) + [Syfup(q.AsIngress(), msg.Value(), residence)]
    ensures CorrectionsKept({msg} + old(Held(p.transmitted)))
    ensures Held(p.transmitted) <= {msg} + old(Held(p.transmitted))
    ensures m.None? ==> p.wire == old(p.wire) && p.completed == old(p.completed)
    ensures m.Some? ==>
              && m.value.kind.FollowUp?
              && p.wire == old(p.wire) + [m.value] && p.completed == old(p.completed) + [Sent(None, m.value)]
  {
    hide Run, View, FirstMatch, OfKind, Through;
    var op := Syfup(q.AsIngress(), msg.Value(), residence);
    var i := Search(p.transmitted, op);
    if i == |p.transmitted| {
      m := None;
      Stash(p, Record(msg, residence, q.number), op);
    } else {
      var txd := p.transmitted[i];
      var fup, stay := msg, txd.residence;
      if msg.kind.Sync? {
        fup, stay := txd.msg, residence;
      }
      ghost var x := Completed(Entry(txd), op);
      m := Some(x.msg);
      OfKindAdd(p.wire, x.msg, FollowUp);
      ThroughAdd(p.completed, x, None);
      SendCorrected(p, fup, fup.correction + Interval(stay) + Interval(q.peerDelay) + q.asymmetry);
      assert p.wire == old(p.wire) + [x.msg];
      Drop(p, i, op);
    }
  }

  /** A Delay_Req that came in on `q` goes out through `p`. */
  method CompleteRequest(q: TcPort, p: TcPort, req: PtpMessage, residence: int)
    requires p.Valid() && req.kind.DelayReq?
    modifies p`transmitted, p`ops
    ensures p.Valid() && p.ops == old(p.ops) + [Request(q.number, req.Value(), residence)]
    ensures p.transmitted == old(p.transmitted) + [Record(req, residence, q.number)]
    ensures Held(p.transmitted) == old(Held(p.transmitted)) + {req}
  {
    ghost var op := Request(q.number, req.Value(), residence);
    assert FirstMatch(View(p.transmitted), op).None?;
    Stash(p, Record(req, residence, q.number), op);
  }

  /** A Delay_Resp that came in on `q` goes out through `p`, as `m`, if the request it answers came in there. */
  method CompleteResponse(q: TcPort, p: TcPort, resp: PtpMessage) returns (ghost m: Option<Message>)
    requires q.Valid() && p.Valid() && q != p && resp.kind.DelayResp?
    modifies q`transmitted, q`completed, q`ops, p`wire, resp`correction
    ensures q.Valid() && q.ops == old(q.ops) + [Response(p.number, resp.Value())]
    ensures resp.correction == old(resp.correction)
    ensures Held(q.transmitted) <= old(Held(q.transmitted))
    ensures m.None? ==> p.wire == old(p.wire) && q.completed == old(q.completed)
    ensures m.Some? ==>
              && m.value.kind.DelayResp?
              && p.wire == old(p.wire) + [m.value]
              && q.completed == old(q.completed) + [Sent(Some(p.number), m.value)]
    ensures OfKind(p.wire, FollowUp) == Through(p.completed, None)
  {
    hide Run, View, FirstMatch, OfKind, Through;
    var op := Response(p.number, resp.Value());
    assert forall m :: m in Held(q.transmitted) ==> allocated(m);
    var i := Search(q.transmitted, op);
    if i == |q.transmitted| {
      m := None;
      RunExtends(q.ops, op, |q.ops|);
      q.ops := q.ops + [op];
    } else {
      ghost var x := Completed(Entry(q.transmitted[i]), op);
      m := Some(x.msg);
      OfKindAdd(p.wire, x.msg, FollowUp);
      ThroughAdd(q.completed, x, None);
      SendCorrected(p, resp, resp.correction + Interval(q.transmitted[i].residence));
      assert p.wire == old(p.wire) + [x.msg];
      Drop(q, i, op);
    }
  }
}
