/** What a transparent clock does to a delay request and its response. */
module TcDelay {
  import opened Options
  import opened PtpDataset
  import opened MsgLayout
  import opened TcQueue
  import opened TcForward
  import opened TcClock
  import opened TcExchange

  /** A queue holds no Delay_Req with this identity. */
  predicate NoneAsked(queue: seq<Txd>, sequenceId: UInt16, source: PortIdentity) {
    forall j :: 0 <= j < |queue| ==>
      !(queue[j].msg.sequenceId == sequenceId && queue[j].msg.source == source && queue[j].msg.kind.DelayReq?)
  }

  /** A response answers the request in a queue entry. */
  predicate Replies(resp: Message, t: Txd) {
    && resp.kind.DelayResp? && t.msg.kind.DelayReq?
    && resp.sequenceId == t.msg.sequenceId && resp.requesting == t.msg.source
  }

  /** The response, with the time its request spent in the clock. */
  function Corrected(resp: Message, residence: int): Message {
    resp.(correction := resp.correction + 0x1_0000 * residence)
  }

  /** The history of a queue with some operations more. */
  lemma OneMore(ops: seq<Op>, more: seq<Op>, op: Op)
    ensures var all := ops + (more + [op]);
            Run(all, |all|) == Step(Run(ops + more, |ops + more|), op)
  {
    hide Step;
    assert ops + (more + [op]) == (ops + more) + [op];
    RunExtends(ops + more, op, |ops + more|);
  }

  /** Whether the last entry of a queue has been answered by the time the first `n` ports have been tried. */
  function Tried(queue: seq<Txd>, t: Txd, done: seq<Sent>, via: nat, resp: Message, answered: bool): Account {
    if answered then Account(queue, done + [Sent(Some(via), Corrected(resp, t.residence))])
    else Account(queue + [t], done)
  }

  /** Trying one port: only the one the request came in on answers it. */
  lemma TryOne(queue: seq<Txd>, t: Txd, done: seq<Sent>, via: nat, resp: Message, answered: bool, number: nat)
    requires Replies(resp, t) && NoneAsked(queue, resp.sequenceId, resp.requesting) && t.ingress == via
    requires answered ==> number != via
    ensures Step(Tried(queue, t, done, via, resp, answered), Response(number, resp))
         == Tried(queue, t, done, via, resp, answered || number == via)
  {
    var a, op := Tried(queue, t, done, via, resp, answered), Response(number, resp);
    assert forall j :: 0 <= j < |queue| ==> a.queue[j] == queue[j] && !Matches(queue[j], op);
    if number == via {
      assert a.queue[|queue|] == t && Matches(t, op);
      FirstMatchIs(a.queue, op, |queue|);
      assert a.queue[..|queue|] == queue && a.queue[|queue| + 1..] == [];
    } else {
      assert forall j :: 0 <= j < |a.queue| ==> !Matches(a.queue[j], op);
    }
  }

  /** Trying all ports in turn: the response goes out once, through the port its request came in on, unless that port is
      blocked. */
  lemma {:induction false} TryEach(c: TransparentClock, i: nat, k: nat, resp: PtpMessage, m: Message, ops: seq<Op>,
                                   queue: seq<Txd>, t: Txd, done: seq<Sent>, n: nat)
    requires c.NumberedApart() && i < |c.ports| && k < |c.ports| && n <= |c.ports|
    requires Replies(m, t) && NoneAsked(queue, m.sequenceId, m.requesting) && t.ingress == c.ports[k].number
    requires Run(ops, |ops|) == Account(queue + [t], done)
    ensures var all := ops + c.Responses(i, resp, m, n);
            Run(all, |all|) == Tried(queue, t, done, c.ports[k].number, m,
                                     k < n && !Blocked(c.ports[i], c.ports[k], resp))
  {
    hide Run, Step, Replies, NoneAsked, Tried, Blocked;
    if n == 0 {
      assert ops + [] == ops;
      Untried(queue, t, done, c.ports[k].number, m);
    } else {
      TryEach(c, i, k, resp, m, ops, queue, t, done, n - 1);
      if Blocked(c.ports[i], c.ports[n - 1], resp) {
        assert c.Responses(i, resp, m, n - 1) + [] == c.Responses(i, resp, m, n - 1);
      } else {
        OneMore(ops, c.Responses(i, resp, m, n - 1), Response(c.ports[n - 1].number, m));
        TryOne(queue, t, done, c.ports[k].number, m, k < n - 1 && !Blocked(c.ports[i], c.ports[k], resp),
               c.ports[n - 1].number);
      }
    }
  }

  lemma Untried(queue: seq<Txd>, t: Txd, done: seq<Sent>, via: nat, resp: Message)
    ensures Tried(queue, t, done, via, resp, false) == Account(queue + [t], done)
  {
  }

  lemma ClockFacts(c: TransparentClock, i: nat)
    requires c.Valid() && i < |c.ports|
    ensures c.NumberedApart() && Sound(PortAt(c.ports[i])) && c.Logs()[i] == PortAt(c.ports[i]).done
    ensures forall l, m :: 0 <= l < m < |c.ports| ==> c.ports[l] != c.ports[m]
    ensures Answered(c.Wires(), c.Logs(), c.Numbers())
  {
    assert c.ports[i].Valid();
  }

  lemma AtMostOne(s: seq<Message>, t: seq<Message>)
    requires multiset(s) == multiset(t) && |t| <= 1
    ensures s == t
  {
    assert |s| == |multiset(s)| == |multiset(t)| == |t|;
    if |t| == 1 {
      assert s[0] in multiset(s) && s[0] in t;
    }
  }

  /** One message more among the responses of a port. */
  lemma OneAdded(a: seq<Message>, b: seq<Message>, more: seq<Message>)
    requires GrownBy(DelayResp, a, b) && |more| <= 1
    requires multiset(OfKind(b, DelayResp)) == multiset(OfKind(a, DelayResp)) + multiset(more)
    ensures b == a + more
  {
    hide OfKind;
    OfKindGrown(DelayResp, a, b);
    Cancelled(multiset(OfKind(a, DelayResp)), multiset(b[|a|..]), multiset(more));
    AtMostOne(b[|a|..], more);
  }

  lemma Cancelled(a: multiset<Message>, b: multiset<Message>, c: multiset<Message>)
    requires a + b == a + c
    ensures b == c
  {
    assert b == a + b - a == a + c - a == c;
  }

  /** What a wire gains when queue `i` sends `x`, if it does. */
  lemma WireGains(wires: seq<seq<Message>>, logs: seq<seq<Sent>>, numbers: seq<nat>, wires': seq<seq<Message>>,
                  i: nat, j: nat, x: Option<Sent>)
    requires i < |logs| && j < |logs| && AllGrownBy(DelayResp, wires, wires') && Answered(wires, logs, numbers)
    requires Answered(wires', if x.None? then logs else logs[i := logs[i] + [x.value]], numbers)
    ensures wires'[j] == wires[j] + if x.Some? && x.value.via == Some(numbers[j]) then [x.value.msg] else []
  {
    hide OfKind, TcClock.Answers;
    GrownAt(DelayResp, wires, wires', j);
    if x.Some? {
      AnswersAdd(logs, i, x.value, numbers[j]);
    }
    OneAdded(wires[j], wires'[j], if x.Some? && x.value.via == Some(numbers[j]) then [x.value.msg] else []);
  }

  /** Forwarding a request, seen at a port: it waits in the queue if its transmit time stamp can be had. */
  lemma RequestWaits(s: Snapshot, t: Snapshot, blocked: bool, from: Ingress, req: Message, stay: Option<int>)
    requires Led(s, if blocked then [] else [req], Forwarded(blocked, from, req, stay), t) && req.kind.DelayReq?
    ensures t.wire == s.wire + if blocked then [] else [req]
    ensures t.queue == s.queue + if blocked || stay.None? then [] else [Txd(req, stay.value, from.port)]
  {
    hide Run, OfKind, Through;
    var sent: seq<Message> := if blocked then [] else [req];
    if blocked || stay.None? {
      Idle(s, sent, t);
    } else {
      var op := Request(from.port, req, stay.value);
      Waits(s, op);
      assert Through(s.done, None) + [] == Through(s.done, None);
      WireIs(s, sent, [op], t, []);
      assert s.wire + sent + [] == s.wire + sent;
    }
  }

  /** Forwarding a request, seen at ports `i` and `j`. */
  method RequestAt(c: TransparentClock, k: nat, ghost i: nat, ghost j: nat, req: PtpMessage, rx: int,
                   tx: seq<Option<int>>, rate: int -> int)
    requires c.Valid() && k < |c.ports| == |tx| && i < |c.ports| && j < |c.ports| && req.kind.DelayReq?
    modifies c`corrections, c.ports`transmitted, c.ports`wire, c.ports`completed, c.ports`ops
    modifies {req}`correction, c.corrections.Keys`correction
    ensures c.Valid() && c.corrections == old(c.corrections)[req := old(req.correction)]
    ensures PortAt(c.ports[j]).wire == old(PortAt(c.ports[j])).wire
              + if Blocked(c.ports[k], c.ports[j], req) then [] else [old(req.Value())]
    ensures var stay := Stay(rx, tx[i], rate);
            PortAt(c.ports[i]).queue == old(PortAt(c.ports[i])).queue
              + if Blocked(c.ports[k], c.ports[i], req) || stay.None? then []
                else [Txd(old(req.Value()), stay.value, c.ports[k].AsIngress().port)]
  {
    hide *;
    PortsSound(c, i);
    PortsSound(c, j);
    PortIn(c, i);
    PortIn(c, j);
    ValueIs(req);
    ghost var s, u, m, h, w := PortAt(c.ports[i]), PortAt(c.ports[j]), req.Value(), c.Histories(), c.Wires();
    ghost var from, blocked := c.ports[k].AsIngress(), c.Blocks(k, req, |c.ports|);
    c.BlocksAt(k, req, |c.ports|, i);
    c.BlocksAt(k, req, |c.ports|, j);
    c.FwdEvent(k, req, rx, tx, rate);
    PortsSound(c, i);
    PortsSound(c, j);
    PortIn(c, i);
    PortIn(c, j);
    EventLeads(h, w, c.Histories(), c.Wires(), blocked, from, m, rx, tx, rate, i, s, PortAt(c.ports[i]));
    EventLeads(h, w, c.Histories(), c.Wires(), blocked, from, m, rx, tx, rate, j, u, PortAt(c.ports[j]));
    RequestWaits(s, PortAt(c.ports[i]), blocked[i], from, m, Stay(rx, tx[i], rate));
    RequestWaits(u, PortAt(c.ports[j]), blocked[j], from, m, Stay(rx, tx[j], rate));
  }

  /** Forwarding the response that came in on port `i` to a request that waits in its queue, seen at port `j`. */
  method ResponseAt(c: TransparentClock, i: nat, ghost k: nat, ghost j: nat, resp: PtpMessage, ghost queue: seq<Txd>,
                    ghost t: Txd)
    requires c.Valid() && i < |c.ports| && k < |c.ports| && j < |c.ports| && resp.kind.DelayResp?
    requires PortAt(c.ports[i]).queue == queue + [t] && Replies(resp.Value(), t) && t.ingress == c.ports[k].number
    requires NoneAsked(queue, resp.Value().sequenceId, resp.Value().requesting)
    modifies c`corrections, {c.ports[i]}`transmitted, {c.ports[i]}`completed, {c.ports[i]}`ops, c.ports`wire
    modifies {resp}`correction
    ensures c.Valid()
    ensures var answered := !Blocked(c.ports[i], c.ports[k], resp);
            && PortAt(c.ports[i]).queue == (if answered then queue else queue + [t])
            && c.ports[j].wire == old(c.ports[j].wire)
                 + if answered && j == k then [Corrected(old(resp.Value()), t.residence)] else []
  {
    hide TransparentClock.Valid, Run, Answered, AllGrownBy, Replies, NoneAsked, Blocked, Corrected;
    ClockFacts(c, i);
    ghost var s, m, wires, logs := PortAt(c.ports[i]), resp.Value(), c.Wires(), c.Logs();
    ghost var number, answered := c.ports[k].number, !Blocked(c.ports[i], c.ports[k], resp);
    TryEach(c, i, k, resp, m, s.ops, queue, t, s.done, |c.ports|);
    c.FwdResponse(i, resp);
    ClockFacts(c, i);
    ghost var x := if answered then Some(Sent(Some(number), Corrected(m, t.residence))) else None;
    assert c.Logs() == if x.None? then logs else logs[i := logs[i] + [x.value]];
    WireGains(wires, logs, c.Numbers(), c.Wires(), i, j, x);
  }

  /** Forwarding a request leaves the response to it as it is. */
  method RequestBefore(c: TransparentClock, k: nat, ghost i: nat, ghost j: nat, req: PtpMessage, ghost resp: PtpMessage,
                       rx: int, tx: seq<Option<int>>, rate: int -> int)
    requires c.Valid() && k < |c.ports| == |tx| && i < |c.ports| && j < |c.ports|
    requires req.kind.DelayReq? && resp.kind.DelayResp?
    modifies c`corrections, c.ports`transmitted, c.ports`wire, c.ports`completed, c.ports`ops
    modifies {req, resp}`correction, c.corrections.Keys`correction
    ensures c.Valid() && resp.Value() == old(resp.Value())
    ensures PortAt(c.ports[j]).wire == old(PortAt(c.ports[j])).wire
              + if Blocked(c.ports[k], c.ports[j], req) then [] else [old(req.Value())]
    ensures var stay := Stay(rx, tx[i], rate);
            PortAt(c.ports[i]).queue == old(PortAt(c.ports[i])).queue
              + if Blocked(c.ports[k], c.ports[i], req) || stay.None? then []
                else [Txd(old(req.Value()), stay.value, c.ports[k].AsIngress().port)]
  {
    hide *;
    ValueIs(resp);
    c.Use(resp);
    RequestAt(c, k, i, j, req, rx, tx, rate);
    KeptAt(c, resp);
    ValueIs(resp);
  }

  /** A Delay_Req that came in on port `k` goes out through port `i`, among others; then its Delay_Resp comes in there.
      The response goes out through port `k` and no other, its correction increased by the time the request spent in the
      clock on its way to port `i`; and nothing of them stays behind there. */
  method ForwardDelay(c: TransparentClock, k: nat, i: nat, ghost j: nat, req: PtpMessage, resp: PtpMessage, rx: int,
                      tx: seq<Option<int>>, rate: int -> int)
    requires c.Valid() && k < |c.ports| == |tx| && i < |c.ports| && j < |c.ports|
    requires req.kind.DelayReq? && resp.kind.DelayResp?
    requires resp.sequenceId == req.sequenceId && resp.requesting == req.source
    requires NoneAsked(View(c.ports[i].transmitted), req.sequenceId, req.source)
    requires !Blocked(c.ports[k], c.ports[i], req) && tx[i].Some? && !Blocked(c.ports[i], c.ports[k], resp)
    modifies c`corrections, c.ports`transmitted, c.ports`wire, c.ports`completed, c.ports`ops
    modifies {req, resp}`correction, c.corrections.Keys`correction
    ensures c.Valid() && View(c.ports[i].transmitted) == old(View(c.ports[i].transmitted))
    ensures c.ports[j].wire == old(c.ports[j].wire)
              + (if Blocked(c.ports[k], c.ports[j], req) then [] else [old(req.Value())])
              + if j != k then []
                else [Message(DelayResp, resp.sequenceId, resp.source, resp.requesting,
                              old(resp.correction) + 0x1_0000 * rate(tx[i].value - rx))]
  {
    hide TransparentClock.Valid, View, Blocked, NoneAsked;
    ghost var queue := View(c.ports[i].transmitted);
    ghost var t := Txd(req.Value(), rate(tx[i].value - rx), c.ports[k].number);
    RequestBefore(c, k, i, j, req, resp, rx, tx, rate);
    ResponseAt(c, i, k, j, resp, queue, t);
  }
}
