/** A transparent clock: its ports, and the forwarding of event, Follow_Up and response messages through them. */
module TcClock {
  import opened Options
  import opened PtpDataset
  import opened MsgLayout
  import opened PtpFsm
  import opened TcQueue
  import opened TcForward

  /** What forwarding a message with residence time `stay` adds to the history of a queue. */
  function OpFor(from: Ingress, msg: Message, stay: int): Op {
    if msg.kind.DelayReq? then Request(from.port, msg, stay) else Syfup(from, msg, stay)
  }

  /** What it adds if the port may be blocked, or its transmit time stamp may be missing. */
  function Forwarded(blocked: bool, from: Ingress, msg: Message, stay: Option<int>): seq<Op> {
    if blocked || stay.None? then [] else [OpFor(from, msg, stay.value)]
  }

  /** The residence time of an event message, when its transmit time stamp can be had. */
  function Stay(rx: int, tx: Option<int>, rate: int -> int): Option<int> {
    if tx.None? then None else Some(rate(tx.value - rx))
  }

  /** The same for all ports. */
  function Additions(blocked: seq<bool>, from: Ingress, msg: Message, stays: seq<Option<int>>): (s: seq<seq<Op>>)
    requires |blocked| == |stays|
    ensures |s| == |stays|
  {
    seq(|stays|, i requires 0 <= i < |stays| => Forwarded(blocked[i], from, msg, stays[i]))
  }

  lemma AdditionsAt(blocked: seq<bool>, from: Ingress, msg: Message, stays: seq<Option<int>>, i: nat)
    requires i < |blocked| == |stays|
    ensures Additions(blocked, from, msg, stays)[i] == Forwarded(blocked[i], from, msg, stays[i])
  {
  }

  function NoStays(n: nat): (s: seq<Option<int>>)
    ensures |s| == n
  {
    seq(n, _ => Some(0))
  }

  lemma NoStaysAt(n: nat, i: nat)
    requires i < n
    ensures NoStays(n)[i] == Some(0)
  {
  }

  function Stays(rx: int, tx: seq<Option<int>>, rate: int -> int): (s: seq<Option<int>>)
    ensures |s| == |tx|
  {
    seq(|tx|, i requires 0 <= i < |tx| => Stay(rx, tx[i], rate))
  }

  lemma StaysAt(rx: int, tx: seq<Option<int>>, rate: int -> int, i: nat)
    requires i < |tx|
    ensures Stays(rx, tx, rate)[i] == Stay(rx, tx[i], rate)
  {
  }

  /** What sending a message puts on the wires of all ports. */
  function Emissions(blocked: seq<bool>, msg: Message): (s: seq<seq<Message>>)
    ensures |s| == |blocked|
  {
    seq(|blocked|, i requires 0 <= i < |blocked| => if blocked[i] then [] else [msg])
  }

  lemma EmissionsAt(blocked: seq<bool>, msg: Message, i: nat)
    requires i < |blocked|
    ensures Emissions(blocked, msg)[i] == if blocked[i] then [] else [msg]
  {
  }

  /** Sequences of which the first ones are made longer. */
  function Longer<A>(h: seq<seq<A>>, adds: seq<seq<A>>): (r: seq<seq<A>>)
    requires |adds| <= |h|
    ensures |r| == |h|
  {
    seq(|h|, i requires 0 <= i < |h| => if i < |adds| then h[i] + adds[i] else h[i])
  }

  lemma LongerOne<A>(h: seq<seq<A>>, adds: seq<seq<A>>, n: nat)
    requires n < |adds| <= |h|
    ensures var r := Longer(h, adds[..n]);
            && r[n] == h[n] && Longer(h, adds[..n + 1]) == r[n := r[n] + adds[n]]
            && (adds[n] == [] ==> Longer(h, adds[..n + 1]) == r)
  {
    assert adds[n] == [] ==> h[n] + adds[n] == h[n];
  }

  lemma LongerEnds<A>(h: seq<seq<A>>, adds: seq<seq<A>>)
    requires |adds| == |h|
    ensures Longer(h, adds[..0]) == h && adds[..|h|] == adds
  {
  }

  /** What is on a wire goes on from what was, with messages of one kind only. */
  ghost predicate GrownBy(kind: Kind, a: seq<Message>, b: seq<Message>) {
    a <= b && forall j :: |a| <= j < |b| ==> b[j].kind == kind
  }

  ghost predicate AllGrownBy(kind: Kind, a: seq<seq<Message>>, b: seq<seq<Message>>) {
    |a| == |b| && forall i :: 0 <= i < |a| ==> GrownBy(kind, a[i], b[i])
  }

  lemma GrownOn(kind: Kind, a: seq<seq<Message>>, b: seq<seq<Message>>, c: seq<seq<Message>>)
    ensures AllGrownBy(kind, a, a) && (AllGrownBy(kind, a, b) && AllGrownBy(kind, b, c) ==> AllGrownBy(kind, a, c))
  {
    if AllGrownBy(kind, a, b) && AllGrownBy(kind, b, c) {
      forall i | 0 <= i < |a|
        ensures GrownBy(kind, a[i], c[i])
      {
        assert GrownBy(kind, a[i], b[i]) && GrownBy(kind, b[i], c[i]);
        assert forall j :: |a[i]| <= j < |b[i]| ==> c[i][j] == b[i][j];
      }
    }
  }

  /** Every message has the correction noted for it. */
  ghost predicate Kept(was: map<PtpMessage, int>)
    reads was.Keys`correction
  {
    forall m :: m in was ==> m.correction == was[m]
  }

  /** What the queues of all ports have sent through the port of number `n`. */
  function Answers(logs: seq<seq<Sent>>, n: nat): multiset<Message> {
    if logs == [] then multiset{}
    else Answers(logs[..|logs| - 1], n) + multiset(Through(logs[|logs| - 1], Some(n)))
  }

  lemma {:induction false} AnswersAdd(logs: seq<seq<Sent>>, k: nat, x: Sent, n: nat)
    requires k < |logs|
    ensures Answers(logs[k := logs[k] + [x]], n)
         == Answers(logs, n) + if x.via == Some(n) then multiset{x.msg} else multiset{}
  {
    hide Through;
    var t, last := logs[k := logs[k] + [x]], |logs| - 1;
    ThroughAdd(logs[k], x, Some(n));
    if k == last {
      assert t[..last] == logs[..last];
    } else {
      AnswersAdd(logs[..last], k, x, n);
      assert t[..last] == logs[..last][k := logs[k] + [x]];
    }
  }

  lemma {:induction false} AnswersNone(logs: seq<seq<Sent>>, n: nat)
    requires forall i :: 0 <= i < |logs| ==> logs[i] == []
    ensures Answers(logs, n) == multiset{}
  {
    if logs != [] {
      AnswersNone(logs[..|logs| - 1], n);
    }
  }

  /** The responses on the wire of each port are those the queues sent through it. */
  ghost predicate Answered(wires: seq<seq<Message>>, logs: seq<seq<Sent>>, numbers: seq<nat>) {
    && |wires| == |logs| == |numbers|
    && forall i :: 0 <= i < |wires| ==> multiset(OfKind(wires[i], DelayResp)) == Answers(logs, numbers[i])
  }

  /** Another message changes nothing about that. */
  lemma AnsweredEvent(wires: seq<seq<Message>>, logs: seq<seq<Sent>>, numbers: seq<nat>, i: nat, m: Message)
    requires Answered(wires, logs, numbers) && i < |wires| && !m.kind.DelayResp?
    ensures Answered(wires[i := wires[i] + [m]], logs, numbers)
  {
    hide OfKind, Answers;
    OfKindAdd(wires[i], m, DelayResp);
  }

  /** Nor does one that a queue sends through its own port. */
  lemma AnsweredOwn(wires: seq<seq<Message>>, logs: seq<seq<Sent>>, numbers: seq<nat>, i: nat, m: Message)
    requires Answered(wires, logs, numbers) && i < |wires| && !m.kind.DelayResp?
    ensures Answered(wires[i := wires[i] + [m]], logs[i := logs[i] + [Sent(None, m)]], numbers)
  {
    hide OfKind, Answers;
    AnsweredEvent(wires, logs, numbers, i, m);
    forall j | 0 <= j < |wires|
      ensures Answers(logs[i := logs[i] + [Sent(None, m)]], numbers[j]) == Answers(logs, numbers[j])
    {
      AnswersAdd(logs, i, Sent(None, m), numbers[j]);
    }
  }

  /** A response that queue `k` sends through port `i` counts there. */
  lemma AnsweredOther(wires: seq<seq<Message>>, logs: seq<seq<Sent>>, numbers: seq<nat>, k: nat, i: nat, m: Message)
    requires Answered(wires, logs, numbers) && i < |wires| && k < |wires| && m.kind.DelayResp?
    requires forall i, j :: 0 <= i < j < |numbers| ==> numbers[i] != numbers[j]
    ensures Answered(wires[i := wires[i] + [m]], logs[k := logs[k] + [Sent(Some(numbers[i]), m)]], numbers)
  {
    hide OfKind, Answers;
    var w, l := wires[i := wires[i] + [m]], logs[k := logs[k] + [Sent(Some(numbers[i]), m)]];
    OfKindAdd(wires[i], m, DelayResp);
    forall j | 0 <= j < |wires|
      ensures multiset(OfKind(w[j], DelayResp)) == Answers(l, numbers[j])
    {
      AnswersAdd(logs, k, Sent(Some(numbers[i]), m), numbers[j]);
    }
  }

  /** A Sync, Follow_Up or Delay_Req that came in on `q` goes out through `p`.  If it completes an exchange, `m` is
      sent. */
  method Complete(q: TcPort, p: TcPort, msg: PtpMessage, residence: int) returns (ghost m: Option<Message>)
    requires p.Valid() && q != p
    requires msg.kind.Sync? || msg.kind.FollowUp? || msg.kind.DelayReq?
    modifies p`transmitted, p`wire, p`completed, p`ops
    modifies ({msg} + Held(p.transmitted))`correction
    ensures p.Valid() && p.ops == old(p.ops) + [OpFor(q.AsIngress(), msg.Value(), residence)]
    ensures CorrectionsKept({msg} + old(Held(p.transmitted)))
    ensures Held(p.transmitted) <= {msg} + old(Held(p.transmitted))
    ensures m.None? ==> p.wire == old(p.wire) && p.completed == old(p.completed)
    ensures m.Some? ==>
              && m.value.kind.FollowUp?
              && p.wire == old(p.wire) + [m.value] && p.completed == old(p.completed) + [Sent(None, m.value)]
  {
    hide TcPort.Valid, Held;
    if msg.kind.DelayReq? {
      HeldAllocated(p);
      CompleteRequest(q, p, msg, residence);
      m := None;
    } else {
      m := CompleteSyfup(q, p, msg, residence);
    }
  }

  lemma HeldAllocated(p: TcPort)
    ensures forall m :: m in Held(p.transmitted) ==> allocated(m)
  {
  }

  /** Puts a message that is no Follow_Up on the network. */
  method Put(p: TcPort, msg: PtpMessage)
    requires p.Valid() && !msg.kind.FollowUp?
    modifies p`wire
    ensures p.Valid() && p.wire == old(p.wire) + [msg.Value()]
  {
    hide OfKind, Through, Run, View;
    OfKindAdd(p.wire, msg.Value(), FollowUp);
    p.wire := p.wire + [msg.Value()];
  }

  class TransparentClock {
    const ports: seq<TcPort>
    /** The messages in use, and their corrections. */
    ghost var corrections: map<PtpMessage, int>

    constructor (ports: seq<TcPort>)
      requires forall i, j :: 0 <= i < j < |ports| ==> ports[i].number != ports[j].number
      requires forall i :: 0 <= i < |ports| ==>
        ports[i].Valid() && ports[i].transmitted == [] && ports[i].wire == [] && ports[i].completed == []
      ensures this.ports == ports && Valid()
    {
      this.ports, corrections := ports, map[];
      new;
      forall n: nat { AnswersNone(Logs(), n); }
    }

    /** The history of each queue, what it has sent, what has gone out through each port, and the ports' numbers. */
    ghost function Histories(): (s: seq<seq<Op>>)
      reads ports
      ensures |s| == |ports|
    {
      seq(|ports|, i requires 0 <= i < |ports| reads ports => ports[i].ops)
    }

    ghost function Logs(): (s: seq<seq<Sent>>)
      reads ports
      ensures |s| == |ports|
    {
      seq(|ports|, i requires 0 <= i < |ports| reads ports => ports[i].completed)
    }

    ghost function Wires(): (s: seq<seq<Message>>)
      reads ports
      ensures |s| == |ports|
    {
      seq(|ports|, i requires 0 <= i < |ports| reads ports => ports[i].wire)
    }

    ghost function Numbers(): (s: seq<nat>)
      ensures |s| == |ports|
    {
      seq(|ports|, i requires 0 <= i < |ports| => ports[i].number)
    }

    /** Which of the first `n` ports a message that came in on port `k` must not go out through. */
    ghost function Blocks(k: nat, msg: PtpMessage, n: nat): (s: seq<bool>)
      requires k < |ports| && n <= |ports|
      reads ports`state
      ensures |s| == n
    {
      if n == 0 then [] else Blocks(k, msg, n - 1) + [Blocked(ports[k], ports[n - 1], msg)]
    }

    lemma {:induction false} BlocksAt(k: nat, msg: PtpMessage, n: nat, i: nat)
      requires k < |ports| && i < n <= |ports|
      ensures Blocks(k, msg, n)[i] == Blocked(ports[k], ports[i], msg)
    {
      hide Blocked;
      if i < n - 1 {
        BlocksAt(k, msg, n - 1, i);
      }
    }

    /** Messages of one domain are blocked alike, unless one is a Delay_Req. */
    lemma {:induction false} BlocksAlike(k: nat, m: PtpMessage, m': PtpMessage, n: nat)
      requires k < |ports| && n <= |ports|
      requires m.domain == m'.domain && !m.kind.DelayReq? && !m'.kind.DelayReq?
      ensures Blocks(k, m, n) == Blocks(k, m', n)
    {
      if n > 0 {
        BlocksAlike(k, m, m', n - 1);
      }
    }

    ghost predicate NumberedApart() {
      forall i, j :: 0 <= i < j < |ports| ==> ports[i].number != ports[j].number
    }

    /** The ports are numbered apart; each accounts for its history, and for the responses sent through it. */
    ghost predicate Valid()
      reads this, ports, corrections.Keys`correction
    {
      && (forall i, j :: 0 <= i < j < |ports| ==> ports[i] != ports[j]) && NumberedApart()
      && Answered(Wires(), Logs(), Numbers())
      && (forall i :: 0 <= i < |ports| ==> Held(ports[i].transmitted) <= corrections.Keys && ports[i].Valid())
      && Kept(corrections)
    }

    lemma Separate()
      requires Valid()
      ensures forall i, j :: 0 <= i < j < |ports| ==> ports[i] != ports[j]
    {
    }

    /** A message comes into use. */
    ghost method Use(msg: PtpMessage)
      requires Valid()
      modifies `corrections
      ensures Valid() && corrections == old(corrections)[msg := msg.correction]
    {
      hide TcPort.Valid, Answered;
      corrections := corrections[msg := msg.correction];
      assert forall i :: 0 <= i < |ports| ==> ports[i].Valid();
    }

    /** One port's share of taking an event or a Follow_Up through the queues. */
    method CompleteOn(k: nat, i: nat, msg: PtpMessage, stay: Option<int>)
      requires Valid() && k < |ports| && i < |ports| && msg in corrections
      requires msg.kind.Sync? || msg.kind.FollowUp? || msg.kind.DelayReq?
      modifies {ports[i]}`transmitted, {ports[i]}`wire, {ports[i]}`completed, {ports[i]}`ops
      modifies corrections.Keys`correction
      ensures Valid() && GrownBy(FollowUp, old(ports[i].wire), ports[i].wire) && msg.Value() == old(msg.Value())
      ensures ports[i].ops == old(ports[i].ops)
        + Forwarded(Blocked(ports[k], ports[i], msg), old(ports[k].AsIngress()), old(msg.Value()), stay)
    {
      hide TcPort.Valid, Held, Answered, NumberedApart;
      ghost var wires, logs := Wires(), Logs();
      if !Blocked(ports[k], ports[i], msg) && stay.Some? {
        ghost var m := Complete(ports[k], ports[i], msg, stay.value);
        if m.Some? {
          AnsweredOwn(wires, logs, Numbers(), i, m.value);
          assert Wires() == wires[i := wires[i] + [m.value]] && Logs() == logs[i := logs[i] + [Sent(None, m.value)]];
        }
      }
      assert ports[i].wire == wires[i] ==> Wires() == wires;
      assert ports[i].completed == logs[i] ==> Logs() == logs;
      assert forall j :: 0 <= j < |ports| && j != i ==> Held(ports[j].transmitted) <= corrections.Keys;
    }

    /** The same, seen over all ports. */
    method CompleteAmong(k: nat, i: nat, msg: PtpMessage, stay: Option<int>)
      requires Valid() && k < |ports| && i < |ports| && msg in corrections
      requires msg.kind.Sync? || msg.kind.FollowUp? || msg.kind.DelayReq?
      modifies {ports[i]}`transmitted, {ports[i]}`wire, {ports[i]}`completed, {ports[i]}`ops
      modifies corrections.Keys`correction
      ensures Valid() && AllGrownBy(FollowUp, old(Wires()), Wires()) && msg.Value() == old(msg.Value())
      ensures var h := old(Histories());
              var blocked, from := Blocks(k, msg, |ports|)[i], old(ports[k].AsIngress());
              Histories() == h[i := h[i] + Forwarded(blocked, from, msg.Value(), stay)]
    {
      hide Valid, Blocks, Blocked, Forwarded, TcPort.AsIngress;
      Separate();
      BlocksAt(k, msg, |ports|, i);
      CompleteOn(k, i, msg, stay);
    }

    /** The loop that takes a message through the queues of all ports that are not blocked and have a residence time. */
    method CompleteEach(k: nat, msg: PtpMessage, stays: seq<Option<int>>)
      requires Valid() && k < |ports| == |stays| && msg in corrections
      requires msg.kind.Sync? || msg.kind.FollowUp? || msg.kind.DelayReq?
      modifies ports`transmitted, ports`wire, ports`completed, ports`ops, corrections.Keys`correction
      ensures Valid() && AllGrownBy(FollowUp, old(Wires()), Wires())
      ensures Histories() == Longer(old(Histories()),
        Additions(Blocks(k, msg, |ports|), old(ports[k].AsIngress()), old(msg.Value()), stays))
    {
      hide *;
      ghost var h, w, from := Histories(), Wires(), ports[k].AsIngress();
      ghost var adds := Additions(Blocks(k, msg, |ports|), from, msg.Value(), stays);
      LongerEnds(h, adds);
      GrownOn(FollowUp, w, w, w);
      for i := 0 to |ports|
        invariant Valid() && msg.Value() == old(msg.Value()) && AllGrownBy(FollowUp, w, Wires())
        invariant Histories() == Longer(h, adds[..i])
      {
        ghost var v := Wires();
        CompleteAmong(k, i, msg, stays[i]);
        GrownOn(FollowUp, w, v, Wires());
        AdditionsAt(Blocks(k, msg, |ports|), from, msg.Value(), stays, i);
        LongerOne(h, adds, i);
      }
    }

    method Send(i: nat, msg: PtpMessage)
      requires Valid() && i < |ports| && !msg.kind.FollowUp? && !msg.kind.DelayResp?
      modifies {ports[i]}`wire
      ensures Valid() && Histories() == old(Histories())
      ensures Wires() == old(Wires())[i := old(Wires())[i] + [msg.Value()]]
    {
      hide Answered, NumberedApart, Held, TcPort.Valid;
      ghost var wires, logs := Wires(), Logs();
      AnsweredEvent(wires, logs, Numbers(), i, msg.Value());
      Put(ports[i], msg);
      assert Wires() == wires[i := wires[i] + [msg.Value()]] && Logs() == logs;
    }

    /** The first loop of forwarding an event: it goes out through every port that is not blocked. */
    method SendEvent(k: nat, msg: PtpMessage)
      requires Valid() && k < |ports| && !msg.kind.FollowUp? && !msg.kind.DelayResp?
      modifies ports`wire
      ensures Valid() && Histories() == old(Histories())
      ensures Wires() == Longer(old(Wires()), Emissions(Blocks(k, msg, |ports|), msg.Value()))
    {
      hide *;
      ghost var w, adds := Wires(), Emissions(Blocks(k, msg, |ports|), msg.Value());
      LongerEnds(w, adds);
      for i := 0 to |ports|
        invariant Valid() && Wires() == Longer(w, adds[..i]) && Histories() == old(Histories())
      {
        BlocksAt(k, msg, |ports|, i);
        EmissionsAt(Blocks(k, msg, |ports|), msg.Value(), i);
        LongerOne(w, adds, i);
        if !Blocked(ports[k], ports[i], msg) {
          Send(i, msg);
        }
      }
    }

    /** A Follow_Up that came in on port `k` goes through the queue of every port that is not blocked. */
    method FwdFolup(k: nat, msg: PtpMessage)
      requires Valid() && k < |ports| && msg.kind.FollowUp?
      modifies `corrections, ports`transmitted, ports`wire, ports`completed, ports`ops
      modifies {msg}`correction, corrections.Keys`correction
      ensures Valid() && corrections == old(corrections)[msg := old(msg.correction)]
      ensures AllGrownBy(FollowUp, old(Wires()), Wires())
      ensures Histories() == Longer(old(Histories()),
        Additions(Blocks(k, msg, |ports|), old(ports[k].AsIngress()), old(msg.Value()), NoStays(|ports|)))
    {
      hide *;
      Use(msg);
      CompleteEach(k, msg, NoStays(|ports|));
    }

    /** An event message that came in on port `k` at time `rx` goes out through every port that is not blocked; those
        whose transmit time stamp can be had account for the time between, in the master's time scale. */
    method FwdEvent(k: nat, msg: PtpMessage, rx: int, tx: seq<Option<int>>, rate: int -> int)
      requires Valid() && k < |ports| == |tx| && (msg.kind.Sync? || msg.kind.DelayReq?)
      modifies `corrections, ports`transmitted, ports`wire, ports`completed, ports`ops
      modifies {msg}`correction, corrections.Keys`correction
      ensures Valid() && corrections == old(corrections)[msg := old(msg.correction)]
      ensures AllGrownBy(FollowUp, Longer(old(Wires()), Emissions(Blocks(k, msg, |ports|), old(msg.Value()))), Wires())
      ensures Histories() == Longer(old(Histories()),
        Additions(Blocks(k, msg, |ports|), old(ports[k].AsIngress()), old(msg.Value()), Stays(rx, tx, rate)))
    {
      hide *;
      Use(msg);
      SendEvent(k, msg);
      CompleteEach(k, msg, Stays(rx, tx, rate));
    }

    /** A Sync that came in on port `k`.  If it is a one-step Sync, the clock makes it two-step: it forwards a Follow_Up
        of its own, which carries no correction yet. */
    method FwdSync(k: nat, msg: PtpMessage, rx: int, tx: seq<Option<int>>, rate: int -> int)
      requires Valid() && k < |ports| == |tx| && msg.kind.Sync?
      modifies `corrections, ports`transmitted, ports`wire, ports`completed, ports`ops
      modifies {msg}`correction, {msg}`twoStep, corrections.Keys`correction
      ensures Valid() && msg.twoStep
      ensures old(msg.twoStep) ==> corrections == old(corrections)[msg := old(msg.correction)]
      ensures AllGrownBy(FollowUp, Longer(old(Wires()), Emissions(Blocks(k, msg, |ports|), old(msg.Value()))), Wires())
      ensures
        var blocked, from, m := Blocks(k, msg, |ports|), old(ports[k].AsIngress()), old(msg.Value());
        var h := Longer(old(Histories()), Additions(blocked, from, m, Stays(rx, tx, rate)));
        var fup := Additions(blocked, from, m.(kind := FollowUp, correction := 0), NoStays(|ports|));
        Histories() == if old(msg.twoStep) then h else Longer(h, fup)
    {
      hide Valid, Histories, Wires, Blocks, Stays, NoStays, Additions, Emissions, Longer, AllGrownBy, TcPort.AsIngress;
      if msg.twoStep {
        FwdEvent(k, msg, rx, tx, rate);
      } else {
        var fup := new PtpMessage(FollowUp, msg.sequenceId, msg.source, msg.requesting, msg.domain, 0, true);
        msg.twoStep := true;
        BlocksAlike(k, msg, fup, |ports|);
        FwdEvent(k, msg, rx, tx, rate);
        ghost var w := Wires();
        FwdFolup(k, fup);
        GrownOn(FollowUp, Longer(old(Wires()), Emissions(Blocks(k, msg, |ports|), old(msg.Value()))), w, Wires());
      }
    }

    /** One port's share of forwarding a response: the queue of the port it came in on looks for a request that came in
        on that port. */
    method RespondOn(k: nat, i: nat, resp: PtpMessage)
      requires Valid() && k < |ports| && i < |ports| && resp in corrections && resp.kind.DelayResp?
      modifies {ports[k]}`transmitted, {ports[k]}`completed, {ports[k]}`ops, {ports[i]}`wire, {resp}`correction
      ensures Valid() && resp.Value() == old(resp.Value()) && GrownBy(DelayResp, old(ports[i].wire), ports[i].wire)
      ensures ports[k].ops == old(ports[k].ops)
        + if Blocked(ports[k], ports[i], resp) then [] else [Response(ports[i].number, resp.Value())]
    {
      hide Held, View, Run, OfKind, Through, Answered;
      ghost var wires, logs := Wires(), Logs();
      if !Blocked(ports[k], ports[i], resp) {
        ghost var m := CompleteResponse(ports[k], ports[i], resp);
        if m.Some? {
          AnsweredOther(wires, logs, Numbers(), k, i, m.value);
          assert Wires() == wires[i := wires[i] + [m.value]];
          assert Logs() == logs[k := logs[k] + [Sent(Some(ports[i].number), m.value)]];
        }
      }
      assert ports[i].wire == wires[i] ==> Wires() == wires;
      assert ports[k].completed == logs[k] ==> Logs() == logs;
      assert forall j :: 0 <= j < |ports| && j != k ==> Held(ports[j].transmitted) <= corrections.Keys;
    }

    /** The same, seen over all ports. */
    method RespondAmong(k: nat, i: nat, resp: PtpMessage)
      requires Valid() && k < |ports| && i < |ports| && resp in corrections && resp.kind.DelayResp?
      modifies {ports[k]}`transmitted, {ports[k]}`completed, {ports[k]}`ops, {ports[i]}`wire, {resp}`correction
      ensures Valid() && resp.Value() == old(resp.Value()) && AllGrownBy(DelayResp, old(Wires()), Wires())
      ensures ports[k].ops == old(ports[k].ops)
        + if Blocked(ports[k], ports[i], resp) then [] else [Response(ports[i].number, resp.Value())]
    {
      hide Valid, Blocked;
      Separate();
      RespondOn(k, i, resp);
    }

    /** What forwarding a response through the first `n` ports adds to the history of the queue of port `k`. */
    function Responses(k: nat, resp: PtpMessage, m: Message, n: nat): seq<Op>
      requires k < |ports| && n <= |ports|
      reads ports`state
    {
      if n == 0 then []
      else
        Responses(k, resp, m, n - 1)
        + if Blocked(ports[k], ports[n - 1], resp) then [] else [Response(ports[n - 1].number, m)]
    }

    /** A Delay_Resp that came in on port `k` goes to the ports its request may have come from. */
    method FwdResponse(k: nat, resp: PtpMessage)
      requires Valid() && k < |ports| && resp.kind.DelayResp?
      modifies `corrections, {ports[k]}`transmitted, {ports[k]}`completed, {ports[k]}`ops, ports`wire, {resp}`correction
      ensures Valid() && resp.Value() == old(resp.Value()) && AllGrownBy(DelayResp, old(Wires()), Wires())
      ensures ports[k].ops == old(ports[k].ops) + Responses(k, resp, resp.Value(), |ports|)
    {
      hide Valid, Blocked, Wires, AllGrownBy, PtpMessage.Value;
      Use(resp);
      ghost var w := Wires();
      GrownOn(DelayResp, w, w, w);
      for i := 0 to |ports|
        invariant Valid() && resp in corrections && resp.Value() == old(resp.Value())
        invariant ports[k].ops == old(ports[k].ops) + Responses(k, resp, resp.Value(), i)
        invariant AllGrownBy(DelayResp, w, Wires())
      {
        ghost var v := Wires();
        RespondAmong(k, i, resp);
        GrownOn(DelayResp, w, v, Wires());
      }
    }

    /** Whatever has been forwarded, in whatever order: if no queue has seen two messages with one identity, the
        Follow_Ups sent through a port are the ones due for the exchanges that are complete, each with its residence
        time, and its queue holds the messages that wait for their partner. */
    lemma FollowUpsSent(i: nat)
      requires Valid() && i < |ports| && DistinctKeys(ports[i].ops)
      ensures var ops := ports[i].ops;
              && OfKind(ports[i].wire, FollowUp) == Through(Due(ops, |ops|), None)
              && View(ports[i].transmitted) == Open(ops, |ops|, |ops|)
    {
      hide Answered;
      var ops := ports[i].ops;
      assert ports[i].Valid();
      DistinctKeysSuffice(ops);
      EveryExchangeIsCompletedOnce(ops, |ops|);
    }

    /** What is due from each queue. */
    ghost function Dues(): (s: seq<seq<Sent>>)
      reads ports
      ensures |s| == |ports|
    {
      seq(|ports|, k requires 0 <= k < |ports| reads ports => Due(ports[k].ops, |ports[k].ops|))
    }

    /** And the Delay_Resps sent through a port are exactly the ones due to it for the exchanges that are complete on
        the queues of all ports, each with the residence time of its request. */
    lemma ResponsesSent(i: nat)
      requires Valid() && i < |ports|
      requires forall k :: 0 <= k < |ports| ==> DistinctKeys(ports[k].ops)
      ensures multiset(OfKind(ports[i].wire, DelayResp)) == Answers(Dues(), ports[i].number)
    {
      hide Due, Run, OfKind, Answers, DistinctKeys, Unambiguous;
      forall k | 0 <= k < |ports|
        ensures Dues()[k] == Logs()[k]
      {
        assert ports[k].Valid();
        DistinctKeysSuffice(ports[k].ops);
        EveryExchangeIsCompletedOnce(ports[k].ops, |ports[k].ops|);
      }
      assert Dues() == Logs() && Wires()[i] == ports[i].wire && Numbers()[i] == ports[i].number;
    }
  }
}
