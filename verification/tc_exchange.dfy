/** What a transparent clock does to whole exchanges: what goes out through a port, and with which correction. */
module TcExchange {
  import opened Options
  import opened PtpDataset
  import opened MsgLayout
  import opened TcQueue
  import opened TcForward
  import opened TcClock

  /** One port, as far as exchanges go: the history of its queue, what the queue holds and has sent, and its wire. */
  datatype Snapshot = Snapshot(ops: seq<Op>, queue: seq<Txd>, done: seq<Sent>, wire: seq<Message>)

  ghost function PortAt(p: TcPort): Snapshot
    reads p, Held(p.transmitted)`correction
  {
    Snapshot(p.ops, View(p.transmitted), p.completed, p.wire)
  }

  ghost predicate Sound(s: Snapshot) {
    Run(s.ops, |s.ops|) == Account(s.queue, s.done) && OfKind(s.wire, FollowUp) == Through(s.done, None)
  }

  lemma PortsSound(c: TransparentClock, i: nat)
    requires c.Valid() && i < |c.ports|
    ensures Sound(PortAt(c.ports[i]))
  {
    assert c.ports[i].Valid();
  }

  /** A queue holds no Sync or Follow_Up that came in on port `port` with this identity. */
  predicate NonePending(queue: seq<Txd>, port: nat, sequenceId: UInt16, source: PortIdentity) {
    forall j :: 0 <= j < |queue| ==>
      !(queue[j].ingress == port && queue[j].msg.sequenceId == sequenceId && queue[j].msg.source == source
        && (queue[j].msg.kind.Sync? || queue[j].msg.kind.FollowUp?))
  }

  /** A Sync and its Follow_Up. */
  predicate Partners(sync: Message, fup: Message) {
    sync.kind.Sync? && fup.kind.FollowUp? && sync.sequenceId == fup.sequenceId && sync.source == fup.source
  }

  /** An operation that completes nothing. */
  lemma Waits(s: Snapshot, op: Op)
    requires Sound(s) && !op.Response? && forall j :: 0 <= j < |s.queue| ==> !Matches(s.queue[j], op)
    ensures Run(s.ops + [op], |s.ops + [op]|) == Account(s.queue + [Stashed(op)], s.done)
  {
    hide Run, Matches;
    RunExtends(s.ops, op, |s.ops|);
  }

  /** An operation that completes what the last entry of the queue began. */
  lemma Completes(s: Snapshot, queue: seq<Txd>, t: Txd, op: Op)
    requires Sound(s) && s.queue == queue + [t] && Matches(t, op)
    requires forall j :: 0 <= j < |queue| ==> !Matches(queue[j], op)
    ensures Run(s.ops + [op], |s.ops + [op]|) == Account(queue, s.done + [Completed(t, op)])
  {
    hide Run, Matches, Completed, FirstMatch;
    RunExtends(s.ops, op, |s.ops|);
    assert s.queue[|queue|] == t && forall j :: 0 <= j < |queue| ==> s.queue[j] == queue[j];
    FirstMatchIs(s.queue, op, |queue|);
    assert s.queue[..|queue|] == queue && s.queue[|queue| + 1..] == [];
  }

  lemma {:induction false} OfKindGrown(kind: Kind, a: seq<Message>, b: seq<Message>)
    requires GrownBy(kind, a, b)
    ensures OfKind(b, kind) == OfKind(a, kind) + b[|a|..]
  {
    if |b| > |a| {
      var c := b[..|b| - 1];
      OfKindGrown(kind, a, c);
      assert b[|a|..] == c[|a|..] + [b[|b| - 1]];
    } else {
      assert a == b && b[|a|..] == [];
    }
  }

  /** Between two states of a port, `sent` went out, then Follow_Ups only, and its queue took in `ops`. */
  ghost predicate Led(s: Snapshot, sent: seq<Message>, ops: seq<Op>, t: Snapshot) {
    && Sound(s) && Sound(t) && t.ops == s.ops + ops && GrownBy(FollowUp, s.wire + sent, t.wire)
    && OfKind(s.wire + sent, FollowUp) == OfKind(s.wire, FollowUp)
  }

  /** The Follow_Ups that went out are those the queue sent. */
  lemma WireIs(s: Snapshot, sent: seq<Message>, ops: seq<Op>, t: Snapshot, more: seq<Message>)
    requires Led(s, sent, ops, t) && Through(t.done, None) == Through(s.done, None) + more
    ensures t.wire == s.wire + sent + more
  {
    hide Run, OfKind, Through;
    var w := s.wire + sent;
    OfKindGrown(FollowUp, w, t.wire);
    assert OfKind(s.wire, FollowUp) + t.wire[|w|..] == OfKind(s.wire, FollowUp) + more;
    assert t.wire[|w|..] == (OfKind(s.wire, FollowUp) + more)[|OfKind(s.wire, FollowUp)|..] == more;
    assert t.wire == w + t.wire[|w|..];
  }

  /** The first of two partners to come waits. */
  lemma FirstComes(s: Snapshot, sent: seq<Message>, op: Op, t: Snapshot)
    requires Led(s, sent, [op], t) && op.Syfup? && (op.msg.kind.Sync? || op.msg.kind.FollowUp?)
    requires NonePending(s.queue, op.from.port, op.msg.sequenceId, op.msg.source)
    ensures t.wire == s.wire + sent && t.queue == s.queue + [Stashed(op)] && t.done == s.done
  {
    hide Run, OfKind, Through;
    Waits(s, op);
    WireIs(s, sent, [op], t, []);
  }

  /** The second sends the Follow_Up on. */
  lemma SecondComes(s: Snapshot, queue: seq<Txd>, first: Op, sent: seq<Message>, op: Op, t: Snapshot)
    requires Led(s, sent, [op], t) && first.Syfup? && op.Syfup? && first.from == op.from
    requires Partners(first.msg, op.msg) || Partners(op.msg, first.msg)
    requires s.queue == queue + [Stashed(first)]
    requires NonePending(queue, op.from.port, op.msg.sequenceId, op.msg.source)
    ensures var (sync, fup) := if op.msg.kind.Sync? then (op, first) else (first, op);
            t.queue == queue && t.wire == s.wire + sent + [fup.msg.(correction :=
              fup.msg.correction + 0x1_0000 * (sync.residence + op.from.peerDelay) + op.from.asymmetry)]
  {
    hide Run, OfKind, Through;
    EitherOrder(first, op);
    Completes(s, queue, Stashed(first), op);
    var x := Completed(Stashed(first), op);
    ThroughAdd(s.done, x, None);
    WireIs(s, sent, [op], t, [x.msg]);
  }

  lemma PortIn(c: TransparentClock, i: nat)
    requires i < |c.ports|
    ensures c.Histories()[i] == c.ports[i].ops == PortAt(c.ports[i]).ops
    ensures c.Wires()[i] == c.ports[i].wire == PortAt(c.ports[i]).wire
  {
  }

  lemma LongerAt<A>(h: seq<seq<A>>, adds: seq<seq<A>>, i: nat)
    requires i < |h| == |adds|
    ensures Longer(h, adds)[i] == h[i] + adds[i]
  {
  }

  lemma GrownAt(kind: Kind, a: seq<seq<Message>>, b: seq<seq<Message>>, i: nat)
    requires AllGrownBy(kind, a, b) && i < |a|
    ensures GrownBy(kind, a[i], b[i])
  {
  }

  lemma ValueIs(m: PtpMessage)
    ensures m.Value() == Message(m.kind, m.sequenceId, m.source, m.requesting, m.correction)
  {
  }

  lemma LedIf(s: Snapshot, sent: seq<Message>, ops: seq<Op>, t: Snapshot)
    requires Sound(s) && Sound(t) && t.ops == s.ops + ops && GrownBy(FollowUp, s.wire + sent, t.wire)
    requires OfKind(s.wire + sent, FollowUp) == OfKind(s.wire, FollowUp)
    ensures Led(s, sent, ops, t)
  {
  }

  lemma OthersSent(wire: seq<Message>, blocked: bool, m: Message)
    requires !m.kind.FollowUp?
    ensures OfKind(wire + if blocked then [] else [m], FollowUp) == OfKind(wire, FollowUp)
  {
    OfKindAdd(wire, m, FollowUp);
    assert wire + [] == wire;
  }

  /** Forwarding an event, seen at one port. */
  lemma EventLeads(h: seq<seq<Op>>, w: seq<seq<Message>>, h': seq<seq<Op>>, w': seq<seq<Message>>, blocked: seq<bool>,
                   from: Ingress, m: Message, rx: int, tx: seq<Option<int>>, rate: int -> int, i: nat, s: Snapshot,
                   t: Snapshot)
    requires |h| == |w| == |h'| == |w'| == |blocked| == |tx| && i < |h| && !m.kind.FollowUp?
    requires h' == Longer(h, Additions(blocked, from, m, Stays(rx, tx, rate)))
    requires AllGrownBy(FollowUp, Longer(w, Emissions(blocked, m)), w')
    requires Sound(s) && Sound(t) && s.ops == h[i] && s.wire == w[i] && t.ops == h'[i] && t.wire == w'[i]
    ensures Led(s, if blocked[i] then [] else [m], Forwarded(blocked[i], from, m, Stay(rx, tx[i], rate)), t)
  {
    hide *;
    AdditionsAt(blocked, from, m, Stays(rx, tx, rate), i);
    StaysAt(rx, tx, rate, i);
    EmissionsAt(blocked, m, i);
    LongerAt(h, Additions(blocked, from, m, Stays(rx, tx, rate)), i);
    LongerAt(w, Emissions(blocked, m), i);
    GrownAt(FollowUp, Longer(w, Emissions(blocked, m)), w', i);
    OthersSent(w[i], blocked[i], m);
    LedIf(s, if blocked[i] then [] else [m], Forwarded(blocked[i], from, m, Stay(rx, tx[i], rate)), t);
  }

  /** Forwarding a two-step Sync, seen at port `i`. */
  method SyncAt(c: TransparentClock, k: nat, ghost i: nat, sync: PtpMessage, rx: int, tx: seq<Option<int>>,
                rate: int -> int)
    requires c.Valid() && k < |c.ports| == |tx| && i < |c.ports| && sync.kind.Sync? && sync.twoStep
    modifies c`corrections, c.ports`transmitted, c.ports`wire, c.ports`completed, c.ports`ops
    modifies {sync}`correction, {sync}`twoStep, c.corrections.Keys`correction
    ensures c.Valid() && c.corrections == old(c.corrections)[sync := old(sync.correction)]
    ensures var blocked, m := Blocked(c.ports[k], c.ports[i], sync), old(sync.Value());
            Led(old(PortAt(c.ports[i])), if blocked then [] else [m],
                Forwarded(blocked, old(c.ports[k].AsIngress()), m, Stay(rx, tx[i], rate)), PortAt(c.ports[i]))
  {
    hide *;
    PortsSound(c, i);
    PortIn(c, i);
    ValueIs(sync);
    ghost var s, m, h, w := PortAt(c.ports[i]), sync.Value(), c.Histories(), c.Wires();
    ghost var from, blocked := c.ports[k].AsIngress(), c.Blocks(k, sync, |c.ports|);
    c.BlocksAt(k, sync, |c.ports|, i);
    c.FwdSync(k, sync, rx, tx, rate);
    PortsSound(c, i);
    PortIn(c, i);
    EventLeads(h, w, c.Histories(), c.Wires(), blocked, from, m, rx, tx, rate, i, s, PortAt(c.ports[i]));
  }

  /** Forwarding a Follow_Up, seen at port `i`. */
  method FolupAt(c: TransparentClock, k: nat, ghost i: nat, fup: PtpMessage)
    requires c.Valid() && k < |c.ports| && i < |c.ports| && fup.kind.FollowUp?
    modifies c`corrections, c.ports`transmitted, c.ports`wire, c.ports`completed, c.ports`ops
    modifies {fup}`correction, c.corrections.Keys`correction
    ensures c.Valid() && c.corrections == old(c.corrections)[fup := old(fup.correction)]
    ensures Led(old(PortAt(c.ports[i])), [],
                Forwarded(Blocked(c.ports[k], c.ports[i], fup), old(c.ports[k].AsIngress()), old(fup.Value()), Some(0)),
                PortAt(c.ports[i]))
  {
    hide *;
    PortsSound(c, i);
    PortIn(c, i);
    ghost var s, m, h, w, n := PortAt(c.ports[i]), fup.Value(), c.Histories(), c.Wires(), |c.ports|;
    ghost var from, blocked := c.ports[k].AsIngress(), c.Blocks(k, fup, n);
    c.BlocksAt(k, fup, n, i);
    AdditionsAt(blocked, from, m, NoStays(n), i);
    NoStaysAt(n, i);
    LongerAt(h, Additions(blocked, from, m, NoStays(n)), i);
    c.FwdFolup(k, fup);
    GrownAt(FollowUp, w, c.Wires(), i);
    PortsSound(c, i);
    PortIn(c, i);
    assert w[i] + [] == w[i];
    LedIf(s, [], Forwarded(blocked[i], from, m, Some(0)), PortAt(c.ports[i]));
  }

  /** What goes out through a port, for a Sync and its Follow_Up. */
  function Delivered(blocked: bool, from: Ingress, sync: Message, fup: Message, stay: Option<int>): seq<Message> {
    if blocked then []
    else if stay.None? then [sync]
    else [sync, fup.(correction := fup.correction + 0x1_0000 * (stay.value + from.peerDelay) + from.asymmetry)]
  }

  /** The Sync first. */
  lemma SyncThenFollowUp(s: Snapshot, t: Snapshot, u: Snapshot, blocked: bool, from: Ingress, sync: Message,
                         fup: Message, stay: Option<int>)
    requires Partners(sync, fup) && NonePending(s.queue, from.port, sync.sequenceId, sync.source)
    requires Led(s, if blocked then [] else [sync], Forwarded(blocked, from, sync, stay), t)
    requires Led(t, [], Forwarded(blocked, from, fup, Some(0)), u)
    ensures u.wire == s.wire + Delivered(blocked, from, sync, fup, stay)
    ensures blocked || stay.Some? ==> u.queue == s.queue
  {
    hide Run, OfKind, Through, NonePending;
    var a, b := Syfup(from, sync, if stay.None? then 0 else stay.value), Syfup(from, fup, 0);
    if blocked {
      Idle(s, [], t);
      Idle(t, [], u);
    } else if stay.None? {
      Idle(s, [sync], t);
      FirstComes(t, [], b, u);
    } else {
      FirstComes(s, [sync], a, t);
      SecondComes(t, s.queue, a, [], b, u);
    }
  }

  /** The Follow_Up first. */
  lemma FollowUpThenSync(s: Snapshot, t: Snapshot, u: Snapshot, blocked: bool, from: Ingress, sync: Message,
                         fup: Message, stay: Option<int>)
    requires Partners(sync, fup) && NonePending(s.queue, from.port, sync.sequenceId, sync.source)
    requires Led(s, [], Forwarded(blocked, from, fup, Some(0)), t)
    requires Led(t, if blocked then [] else [sync], Forwarded(blocked, from, sync, stay), u)
    ensures u.wire == s.wire + Delivered(blocked, from, sync, fup, stay)
    ensures blocked || stay.Some? ==> u.queue == s.queue
  {
    hide Run, OfKind, Through, NonePending;
    var a, b := Syfup(from, sync, if stay.None? then 0 else stay.value), Syfup(from, fup, 0);
    if blocked {
      Idle(s, [], t);
      Idle(t, [], u);
    } else {
      FirstComes(s, [], b, t);
      if stay.None? {
        Idle(t, [sync], u);
      } else {
        SecondComes(t, s.queue, b, [sync], a, u);
      }
    }
  }

  /** Nothing happens to the queue. */
  lemma Idle(s: Snapshot, sent: seq<Message>, t: Snapshot)
    requires Led(s, sent, [], t)
    ensures t.wire == s.wire + sent && t.queue == s.queue && t.done == s.done
  {
    hide Run, OfKind, Through;
    assert s.ops + [] == s.ops;
    assert Through(s.done, None) + [] == Through(s.done, None);
    WireIs(s, sent, [], t, []);
    assert s.wire + sent + [] == s.wire + sent;
  }

  lemma BlockedAlike(q: TcPort, p: TcPort, m: PtpMessage, n: PtpMessage)
    requires m.domain == n.domain && !m.kind.DelayReq? && !n.kind.DelayReq?
    ensures Blocked(q, p, m) == Blocked(q, p, n)
  {
  }

  lemma KeptAt(c: TransparentClock, m: PtpMessage)
    requires c.Valid() && m in c.corrections
    ensures m.correction == c.corrections[m]
  {
  }

  /** Both messages of an exchange, seen at port `i`. */
  method BothAt(c: TransparentClock, k: nat, ghost i: nat, sync: PtpMessage, fup: PtpMessage, rx: int,
                tx: seq<Option<int>>, rate: int -> int, syncFirst: bool)
    requires c.Valid() && k < |c.ports| == |tx| && i < |c.ports| && sync.kind.Sync? && fup.kind.FollowUp?
    requires sync in c.corrections && fup in c.corrections
    requires Partners(sync.Value(), fup.Value()) && sync.domain == fup.domain && sync.twoStep
    requires NonePending(PortAt(c.ports[i]).queue, c.ports[k].AsIngress().port, sync.Value().sequenceId,
                         sync.Value().source)
    modifies c`corrections, c.ports`transmitted, c.ports`wire, c.ports`completed, c.ports`ops
    modifies {sync}`twoStep, {sync, fup}`correction, c.corrections.Keys`correction
    ensures c.Valid()
    ensures var blocked, stay := Blocked(c.ports[k], c.ports[i], sync), Stay(rx, tx[i], rate);
            && PortAt(c.ports[i]).wire == old(PortAt(c.ports[i])).wire
                 + Delivered(blocked, c.ports[k].AsIngress(), old(sync.Value()), old(fup.Value()), stay)
            && (blocked || stay.Some? ==> PortAt(c.ports[i]).queue == old(PortAt(c.ports[i])).queue)
  {
    hide *;
    ghost var s, from, blocked := PortAt(c.ports[i]), c.ports[k].AsIngress(), Blocked(c.ports[k], c.ports[i], sync);
    ghost var m, n := sync.Value(), fup.Value();
    KeptAt(c, sync);
    KeptAt(c, fup);
    BlockedAlike(c.ports[k], c.ports[i], sync, fup);
    ValueIs(sync);
    ValueIs(fup);
    if syncFirst {
      SyncAt(c, k, i, sync, rx, tx, rate);
      KeptAt(c, fup);
      ValueIs(fup);
      ghost var t := PortAt(c.ports[i]);
      FolupAt(c, k, i, fup);
      SyncThenFollowUp(s, t, PortAt(c.ports[i]), blocked, from, m, n, Stay(rx, tx[i], rate));
    } else {
      FolupAt(c, k, i, fup);
      KeptAt(c, sync);
      ValueIs(sync);
      ghost var t := PortAt(c.ports[i]);
      SyncAt(c, k, i, sync, rx, tx, rate);
      FollowUpThenSync(s, t, PortAt(c.ports[i]), blocked, from, m, n, Stay(rx, tx[i], rate));
    }
  }

  /** A two-step Sync that came in on port `k` and its Follow_Up, in either order, seen at any port `i` whose queue
      holds nothing of theirs.  If the port is not blocked the Sync goes out; if its transmit time stamp can be had the
      Follow_Up goes out behind it, its correction increased by the time the Sync spent in the clock, the delay of the
      link it came in on, and that link's asymmetry; and nothing of them stays behind. */
  method ForwardExchange(c: TransparentClock, k: nat, ghost i: nat, sync: PtpMessage, fup: PtpMessage, rx: int,
                         tx: seq<Option<int>>, rate: int -> int, syncFirst: bool)
    requires c.Valid() && k < |c.ports| == |tx| && i < |c.ports|
    requires Partners(sync.Value(), fup.Value()) && sync.domain == fup.domain && sync.twoStep
    requires NonePending(View(c.ports[i].transmitted), c.ports[k].number, sync.sequenceId, sync.source)
    modifies c`corrections, c.ports`transmitted, c.ports`wire, c.ports`completed, c.ports`ops
    modifies {sync}`twoStep, {sync, fup}`correction, c.corrections.Keys`correction
    ensures c.Valid()
    ensures var p, q := c.ports[i], c.ports[k];
            p.wire == old(p.wire) +
              if Blocked(q, p, sync) then []
              else if tx[i].None? then [old(sync.Value())]
              else [old(sync.Value()),
                    Message(FollowUp, fup.sequenceId, fup.source, fup.requesting,
                            old(fup.correction) + 0x1_0000 * (rate(tx[i].value - rx) + q.peerDelay) + q.asymmetry)]
    ensures Blocked(c.ports[k], c.ports[i], sync) || tx[i].Some? ==>
              View(c.ports[i].transmitted) == old(View(c.ports[i].transmitted))
  {
    hide TransparentClock.Valid, NonePending, View, Blocked;
    c.Use(sync);
    c.Use(fup);
    BothAt(c, k, i, sync, fup, rx, tx, rate, syncFirst);
  }

  /** A Sync and the Follow_Up made for it, in one go. */
  lemma SyncWithFollowUp(s: Snapshot, u: Snapshot, blocked: bool, from: Ingress, sync: Message, fup: Message,
                         stay: Option<int>)
    requires Partners(sync, fup) && NonePending(s.queue, from.port, sync.sequenceId, sync.source)
    requires Sound(s) && Sound(u)
    requires u.ops == s.ops + Forwarded(blocked, from, sync, stay) + Forwarded(blocked, from, fup, Some(0))
    requires GrownBy(FollowUp, s.wire + if blocked then [] else [sync], u.wire)
    ensures u.wire == s.wire + Delivered(blocked, from, sync, fup, stay)
    ensures blocked || stay.Some? ==> u.queue == s.queue
  {
    hide Run, OfKind, Through, Delivered;
    var a, sent: seq<Message> := Forwarded(blocked, from, sync, stay), if blocked then [] else [sync];
    var t := Snapshot(s.ops + a, s.queue + if a == [] then [] else [Stashed(a[0])], s.done, s.wire + sent);
    OthersSent(s.wire, blocked, sync);
    if a == [] {
      assert s.ops + a == s.ops && t.queue == s.queue;
    } else {
      Waits(s, a[0]);
    }
    LedIf(s, sent, a, t);
    assert t.wire + [] == t.wire;
    LedIf(t, [], Forwarded(blocked, from, fup, Some(0)), u);
    SyncThenFollowUp(s, t, u, blocked, from, sync, fup, stay);
  }

  /** A one-step Sync, seen at port `i`. */
  method OneStepAt(c: TransparentClock, k: nat, ghost i: nat, sync: PtpMessage, rx: int, tx: seq<Option<int>>,
                   rate: int -> int)
    requires c.Valid() && k < |c.ports| == |tx| && i < |c.ports| && sync.kind.Sync? && !sync.twoStep
    requires NonePending(PortAt(c.ports[i]).queue, c.ports[k].AsIngress().port, sync.Value().sequenceId,
                         sync.Value().source)
    modifies c`corrections, c.ports`transmitted, c.ports`wire, c.ports`completed, c.ports`ops
    modifies {sync}`correction, {sync}`twoStep, c.corrections.Keys`correction
    ensures c.Valid() && sync.twoStep
    ensures var blocked, m, stay := Blocked(c.ports[k], c.ports[i], sync), old(sync.Value()), Stay(rx, tx[i], rate);
            && PortAt(c.ports[i]).wire == old(PortAt(c.ports[i])).wire
                 + Delivered(blocked, c.ports[k].AsIngress(), m, m.(kind := FollowUp, correction := 0), stay)
            && (blocked || stay.Some? ==> PortAt(c.ports[i]).queue == old(PortAt(c.ports[i])).queue)
  {
    hide *;
    PortsSound(c, i);
    PortIn(c, i);
    ValueIs(sync);
    ghost var s, m, h, w, n := PortAt(c.ports[i]), sync.Value(), c.Histories(), c.Wires(), |c.ports|;
    ghost var from, blocked, fup := c.ports[k].AsIngress(), c.Blocks(k, sync, n), m.(kind := FollowUp, correction := 0);
    ghost var adds, sent := Additions(blocked, from, m, Stays(rx, tx, rate)), Emissions(blocked, m);
    ghost var more := Additions(blocked, from, fup, NoStays(n));
    c.BlocksAt(k, sync, n, i);
    AdditionsAt(blocked, from, m, Stays(rx, tx, rate), i);
    AdditionsAt(blocked, from, fup, NoStays(n), i);
    StaysAt(rx, tx, rate, i);
    NoStaysAt(n, i);
    EmissionsAt(blocked, m, i);
    LongerAt(h, adds, i);
    LongerAt(Longer(h, adds), more, i);
    LongerAt(w, sent, i);
    c.FwdSync(k, sync, rx, tx, rate);
    GrownAt(FollowUp, Longer(w, sent), c.Wires(), i);
    PortsSound(c, i);
    PortIn(c, i);
    PartnersIf(m, fup);
    SyncWithFollowUp(s, PortAt(c.ports[i]), blocked[i], from, m, fup, Stay(rx, tx[i], rate));
  }

  lemma PartnersIf(sync: Message, fup: Message)
    requires sync.kind.Sync? && fup.kind.FollowUp? && sync.sequenceId == fup.sequenceId && sync.source == fup.source
    ensures Partners(sync, fup)
  {
  }

  /** A one-step Sync becomes a two-step Sync and a Follow_Up, whose correction is the time the Sync spent in the clock,
      the delay of the link it came in on, and that link's asymmetry. */
  method ForwardOneStep(c: TransparentClock, k: nat, ghost i: nat, sync: PtpMessage, rx: int, tx: seq<Option<int>>,
                        rate: int -> int)
    requires c.Valid() && k < |c.ports| == |tx| && i < |c.ports| && sync.kind.Sync? && !sync.twoStep
    requires NonePending(View(c.ports[i].transmitted), c.ports[k].number, sync.sequenceId, sync.source)
    modifies c`corrections, c.ports`transmitted, c.ports`wire, c.ports`completed, c.ports`ops
    modifies {sync}`correction, {sync}`twoStep, c.corrections.Keys`correction
    ensures c.Valid() && sync.twoStep
    ensures var p, q := c.ports[i], c.ports[k];
            p.wire == old(p.wire) +
              if Blocked(q, p, sync) then []
              else if tx[i].None? then [old(sync.Value())]
              else [old(sync.Value()),
                    Message(FollowUp, sync.sequenceId, sync.source, sync.requesting,
                            0x1_0000 * (rate(tx[i].value - rx) + q.peerDelay) + q.asymmetry)]
  {
    hide TransparentClock.Valid, NonePending, View, Blocked;
    OneStepAt(c, k, i, sync, rx, tx, rate);
  }
}
