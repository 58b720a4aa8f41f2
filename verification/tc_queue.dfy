/** The bookkeeping of a transparent clock, for one port: what it has transmitted and not yet accounted for. */
module TcQueue {
  import opened Options
  import opened PtpDataset
  import opened MsgLayout

  /** What the bookkeeping looks at in a message.  `requesting` matters only in a delay response. */
  datatype Message = Message(
    kind: Kind, sequenceId: UInt16, source: PortIdentity, requesting: PortIdentity, correction: int)

  /** A transmitted message, how long it stayed in the clock, and the port it came in on. */
  datatype Txd = Txd(msg: Message, residence: int, ingress: nat)

  /** The port a message came in on. */
  datatype Ingress = Ingress(port: nat, peerDelay: int, asymmetry: int)

  /** Nanoseconds as a TimeInterval. */
  function Interval(ns: int): int {
    ns * 0x1_0000
  }

  predicate Complementary(k: Kind, l: Kind) {
    (k.Sync? && l.FollowUp?) || (k.FollowUp? && l.Sync?)
  }

  predicate MatchSyfup(ingress: nat, msg: Message, txd: Txd) {
    && ingress == txd.ingress && msg.sequenceId == txd.msg.sequenceId && msg.source == txd.msg.source
    && Complementary(txd.msg.kind, msg.kind)
  }

  predicate MatchDelay(egress: nat, resp: Message, txd: Txd) {
    && egress == txd.ingress && txd.msg.sequenceId == resp.sequenceId && txd.msg.source == resp.requesting
    && txd.msg.kind.DelayReq? && resp.kind.DelayResp?
  }

  /** What happens to the queue of a port: a Sync or Follow_Up goes out through it, a Delay_Req goes out through it,
      or a Delay_Resp that came in on it goes out through port `egress`. */
  datatype Op =
    | Syfup(from: Ingress, msg: Message, residence: int)
    | Request(ingress: nat, req: Message, stay: int)
    | Response(egress: nat, resp: Message)

  /** What a queue entry was before it was stashed. */
  function Stashed(op: Op): Txd
    requires !op.Response?
  {
    match op
    case Syfup(from, msg, residence) => Txd(msg, residence, from.port)
    case Request(ingress, req, stay) => Txd(req, stay, ingress)
  }

  predicate Matches(txd: Txd, op: Op) {
    match op
    case Syfup(from, msg, _) => MatchSyfup(from.port, msg, txd)
    case Request(_, _, _) => false
    case Response(egress, resp) => MatchDelay(egress, resp, txd)
  }

  /** A message that was sent: through the queue's own port, or through the port of the given number. */
  datatype Sent = Sent(via: Option<nat>, msg: Message)

  /** What is sent when `op` completes the exchange begun by `txd`: a Follow_Up, or a Delay_Resp through the port its
      request came in on, with a corrected correction field. */
  function Completed(txd: Txd, op: Op): Sent
    requires Matches(txd, op)
  {
    match op
    case Syfup(from, msg, residence) =>
      var fup := if msg.kind.FollowUp? then msg else txd.msg;
      var stay := if msg.kind.FollowUp? then txd.residence else residence;
      Sent(None, fup.(correction := fup.correction + Interval(stay) + Interval(from.peerDelay) + from.asymmetry))
    case Response(egress, resp) =>
      Sent(Some(egress), resp.(correction := resp.correction + Interval(txd.residence)))
  }

  /** The first entry that matches. */
  function FirstMatch(queue: seq<Txd>, op: Op): (k: Option<nat>)
    ensures k.Some? ==> k.value < |queue| && Matches(queue[k.value], op)
    ensures k.Some? ==> forall i :: 0 <= i < k.value ==> !Matches(queue[i], op)
    ensures k.None? ==> forall i :: 0 <= i < |queue| ==> !Matches(queue[i], op)
  {
    if queue == [] then None
    else if Matches(queue[0], op) then Some(0)
    else
      var k := FirstMatch(queue[1..], op);
      if k.None? then None else Some(k.value + 1)
  }

  datatype Account = Account(queue: seq<Txd>, sent: seq<Sent>)

  /** One operation on the queue. */
  function Step(a: Account, op: Op): Account {
    var k := FirstMatch(a.queue, op);
    if k.Some? then
      Account(a.queue[..k.value] + a.queue[k.value + 1..], a.sent + [Completed(a.queue[k.value], op)])
    else if op.Response? then a
    else a.(queue := a.queue + [Stashed(op)])
  }

  /** The first `n` operations, from an empty queue. */
  function Run(ops: seq<Op>, n: nat): Account
    requires n <= |ops|
  {
    if n == 0 then Account([], []) else Step(Run(ops, n - 1), ops[n - 1])
  }

  // ---- an independent account of the same run ----

  /** Operation `i` begins an exchange that operation `j` completes. */
  predicate Pair(ops: seq<Op>, i: nat, j: nat)
    requires i < |ops| && j < |ops|
  {
    i < j && !ops[i].Response? && Matches(Stashed(ops[i]), ops[j])
  }

  /** No operation belongs to two exchanges. */
  ghost predicate Unambiguous(ops: seq<Op>) {
    && (forall i, j, k :: 0 <= i < j < k < |ops| ==> !(Pair(ops, i, j) && Pair(ops, i, k)))
    && (forall i, j, k :: 0 <= i < j < k < |ops| ==> !(Pair(ops, i, k) && Pair(ops, j, k)))
    && (forall i, j, k :: 0 <= i < j < k < |ops| ==> !(Pair(ops, i, j) && Pair(ops, j, k)))
  }

  /** What identifies a message on this queue. */
  datatype Key = Key(kind: Kind, port: nat, sequenceId: UInt16, identity: PortIdentity)

  function KeyOf(op: Op): Key {
    match op
    case Syfup(from, msg, _) => Key(msg.kind, from.port, msg.sequenceId, msg.source)
    case Request(ingress, req, _) => Key(DelayReq, ingress, req.sequenceId, req.source)
    case Response(egress, resp) => Key(DelayResp, egress, resp.sequenceId, resp.requesting)
  }

  /** Each operation carries a message of its own kind. */
  predicate WellFormed(op: Op) {
    match op
    case Syfup(_, msg, _) => msg.kind.Sync? || msg.kind.FollowUp?
    case Request(_, req, _) => req.kind.DelayReq?
    case Response(_, resp) => resp.kind.DelayResp?
  }

  /** No message is identified like another. */
  ghost predicate DistinctKeys(ops: seq<Op>) {
    && (forall i :: 0 <= i < |ops| ==> WellFormed(ops[i]))
    && (forall i, j :: 0 <= i < j < |ops| ==> KeyOf(ops[i]) != KeyOf(ops[j]))
  }

  /** The identity of the message that completes the exchange an operation opens. */
  function Answer(k: Key): Key {
    match k.kind
    case Sync => k.(kind := FollowUp)
    case FollowUp => k.(kind := Sync)
    case DelayReq => k.(kind := DelayResp)
    case _ => k
  }

  lemma PairKeys(ops: seq<Op>, i: nat, j: nat)
    requires DistinctKeys(ops) && i < |ops| && j < |ops| && Pair(ops, i, j)
    ensures KeyOf(ops[j]) == Answer(KeyOf(ops[i]))
    ensures ops[j].Syfup? ==> KeyOf(ops[i]) == Answer(KeyOf(ops[j]))
    ensures ops[j].Response? ==> KeyOf(ops[i]) == KeyOf(ops[j]).(kind := DelayReq)
  {
    assert WellFormed(ops[i]) && WellFormed(ops[j]);
  }

  /** Two operations belong together exactly if the identity of the later one answers the earlier one's. */
  lemma PairIff(ops: seq<Op>, i: nat, j: nat)
    requires i < j < |ops| && WellFormed(ops[i]) && WellFormed(ops[j])
    ensures Pair(ops, i, j) <==> !ops[i].Response? && KeyOf(ops[j]) == Answer(KeyOf(ops[i]))
  {
  }

  lemma DistinctKeysSuffice(ops: seq<Op>)
    requires DistinctKeys(ops)
    ensures Unambiguous(ops)
  {
    forall i, j, k | 0 <= i < j < k < |ops|
      ensures !(Pair(ops, i, j) && Pair(ops, i, k))
      ensures !(Pair(ops, i, k) && Pair(ops, j, k))
      ensures !(Pair(ops, i, j) && Pair(ops, j, k))
    {
      if Pair(ops, i, j) { PairKeys(ops, i, j); }
      if Pair(ops, i, k) { PairKeys(ops, i, k); }
      if Pair(ops, j, k) { PairKeys(ops, j, k); }
    }
  }

  /** The operation that began the exchange `j` completes, looked for among the first `n`. */
  function Opening(ops: seq<Op>, j: nat, n: nat): (r: Option<nat>)
    requires n <= j < |ops|
    ensures r.Some? ==> r.value < n && Pair(ops, r.value, j)
    ensures r.None? ==> forall i :: 0 <= i < n ==> !Pair(ops, i, j)
  {
    if n == 0 then None
    else if Pair(ops, n - 1, j) then Some(n - 1)
    else Opening(ops, j, n - 1)
  }

  /** What should be sent over the first `n` operations: one message for each exchange, when it is completed. */
  function Due(ops: seq<Op>, n: nat): seq<Sent>
    requires n <= |ops|
  {
    if n == 0 then []
    else
      var o := Opening(ops, n - 1, n - 1);
      Due(ops, n - 1) + if o.None? then [] else [Completed(Stashed(ops[o.value]), ops[n - 1])]
  }

  /** Whether operation `i` still waits for its partner after the first `n`. */
  predicate Waiting(ops: seq<Op>, i: nat, n: nat)
    requires i < n <= |ops|
  {
    && !ops[i].Response?
    && Opening(ops, i, i).None?
    && forall j :: i < j < n ==> !Pair(ops, i, j)
  }

  /** The operations still waiting after the first `n`, among the first `m`, oldest first. */
  function Open(ops: seq<Op>, m: nat, n: nat): seq<Txd>
    requires m <= n <= |ops|
  {
    if m == 0 then []
    else Open(ops, m - 1, n) + if Waiting(ops, m - 1, n) then [Stashed(ops[m - 1])] else []
  }

  /** How many exchanges the first `n` operations complete. */
  function Completions(ops: seq<Op>, n: nat): nat
    requires n <= |ops|
  {
    if n == 0 then 0 else Completions(ops, n - 1) + if Opening(ops, n - 1, n - 1).Some? then 1 else 0
  }

  // ---- the queue does what it should ----

  lemma {:induction false} OpenElement(ops: seq<Op>, m: nat, n: nat, k: nat) returns (h: nat)
    requires m <= n <= |ops| && k < |Open(ops, m, n)|
    ensures h < m && Waiting(ops, h, n) && Open(ops, m, n)[k] == Stashed(ops[h])
  {
    if k < |Open(ops, m - 1, n)| {
      h := OpenElement(ops, m - 1, n, k);
    } else {
      h := m - 1;
    }
  }

  /** Whether `i` is the only operation that stops waiting when operation `n` comes. */
  ghost predicate OnlyStops(ops: seq<Op>, i: nat, n: nat)
    requires n < |ops|
  {
    forall h :: 0 <= h < n && h != i ==> (Waiting(ops, h, n) <==> Waiting(ops, h, n + 1))
  }

  lemma {:induction false} OpenUnchanged(ops: seq<Op>, m: nat, i: nat, n: nat)
    requires m <= i && m <= n < |ops| && OnlyStops(ops, i, n)
    ensures Open(ops, m, n + 1) == Open(ops, m, n)
  {
    if m > 0 {
      OpenUnchanged(ops, m - 1, i, n);
    }
  }

  lemma {:induction false} OpenCloses(ops: seq<Op>, m: nat, i: nat, n: nat)
    requires i < m <= n < |ops| && OnlyStops(ops, i, n) && Waiting(ops, i, n) && !Waiting(ops, i, n + 1)
    ensures Open(ops, i, n) + [Stashed(ops[i])] <= Open(ops, m, n)
    ensures Open(ops, m, n + 1) == Open(ops, i, n) + Open(ops, m, n)[|Open(ops, i, n)| + 1..]
  {
    if m == i + 1 {
      OpenUnchanged(ops, i, i, n);
    } else {
      OpenCloses(ops, m - 1, i, n);
    }
  }

  /** An operation that completes nothing leaves the others waiting. */
  lemma NothingCompleted(ops: seq<Op>, n: nat)
    requires n < |ops| && Opening(ops, n, n).None?
    requires Run(ops, n) == Account(Open(ops, n, n), Due(ops, n))
    ensures Run(ops, n + 1) == Account(Open(ops, n + 1, n + 1), Due(ops, n + 1))
  {
    forall h | 0 <= h < n
      ensures Waiting(ops, h, n) <==> Waiting(ops, h, n + 1)
    {
      assert !Pair(ops, h, n);
    }
    OpenUnchanged(ops, n, n, n);
    var k := FirstMatch(Open(ops, n, n), ops[n]);
    if k.Some? {
      var h := OpenElement(ops, n, n, k.value);
      assert Pair(ops, h, n);
    }
    assert Waiting(ops, n, n + 1) <==> !ops[n].Response?;
  }

  /** The operation that opened an exchange waits until it is completed. */
  lemma OpeningWaits(ops: seq<Op>, i: nat, n: nat)
    requires Unambiguous(ops) && n < |ops| && i < n && Pair(ops, i, n)
    ensures Waiting(ops, i, n) && !Waiting(ops, i, n + 1) && OnlyStops(ops, i, n)
  {
    assert Opening(ops, i, i).None?;
    forall h | 0 <= h < n && h != i
      ensures Waiting(ops, h, n) <==> Waiting(ops, h, n + 1)
    {
      assert !Pair(ops, h, n);
    }
  }

  lemma OpeningIsFirstMatch(ops: seq<Op>, i: nat, n: nat)
    requires Unambiguous(ops) && n < |ops| && i < n && Pair(ops, i, n)
    requires Open(ops, i, n) + [Stashed(ops[i])] <= Open(ops, n, n)
    ensures FirstMatch(Open(ops, n, n), ops[n]) == Some(|Open(ops, i, n)|)
    ensures Open(ops, n, n)[|Open(ops, i, n)|] == Stashed(ops[i])
    ensures Open(ops, n, n)[..|Open(ops, i, n)|] == Open(ops, i, n)
  {
    var at := |Open(ops, i, n)|;
    assert Open(ops, n, n)[at] == (Open(ops, i, n) + [Stashed(ops[i])])[at] == Stashed(ops[i]);
    var k := FirstMatch(Open(ops, n, n), ops[n]);
    if k.value < at {
      assert Open(ops, n, n)[k.value] == Open(ops, i, n)[k.value];
      var h := OpenElement(ops, i, n, k.value);
      assert Pair(ops, h, n);
    }
  }

  lemma OneCompleted(ops: seq<Op>, n: nat)
    requires Unambiguous(ops) && n < |ops| && Opening(ops, n, n).Some?
    requires Run(ops, n) == Account(Open(ops, n, n), Due(ops, n))
    ensures Run(ops, n + 1) == Account(Open(ops, n + 1, n + 1), Due(ops, n + 1))
  {
    hide Unambiguous, Matches, Completed, FirstMatch, OnlyStops;
    var i := Opening(ops, n, n).value;
    OpeningWaits(ops, i, n);
    OpenCloses(ops, n, i, n);
    OpeningIsFirstMatch(ops, i, n);
    assert !Waiting(ops, n, n + 1);
  }

  /** Over any interleaving, the queue sends one message for each exchange when it is completed, with the residence
      time, peer delay and asymmetry of that exchange, and holds the openings that still wait, oldest first. */
  lemma {:induction false} EveryExchangeIsCompletedOnce(ops: seq<Op>, n: nat)
    requires Unambiguous(ops) && n <= |ops|
    ensures Run(ops, n) == Account(Open(ops, n, n), Due(ops, n))
  {
    if n > 0 {
      EveryExchangeIsCompletedOnce(ops, n - 1);
      if Opening(ops, n - 1, n - 1).Some? {
        OneCompleted(ops, n - 1);
      } else {
        NothingCompleted(ops, n - 1);
      }
    }
  }

  /** The messages that are due, one by one: exactly one for each exchange. */
  lemma {:induction false} DueAt(ops: seq<Op>, i: nat, j: nat, n: nat)
    requires Unambiguous(ops) && j < n <= |ops| && i < j && Pair(ops, i, j)
    ensures |Due(ops, n)| == Completions(ops, n) > Completions(ops, j)
    ensures Due(ops, n)[Completions(ops, j)] == Completed(Stashed(ops[i]), ops[j])
  {
    if n == j + 1 {
      DueCount(ops, j);
      var o := Opening(ops, j, j);
      assert o == Some(i) by {
        assert o.Some? && Pair(ops, o.value, j);
      }
    } else {
      DueAt(ops, i, j, n - 1);
    }
  }

  lemma {:induction false} DueCount(ops: seq<Op>, n: nat)
    requires n <= |ops|
    ensures |Due(ops, n)| == Completions(ops, n)
  {
    if n > 0 {
      DueCount(ops, n - 1);
    }
  }

  /** A Sync and its Follow_Up give the same message whichever comes first: the Follow_Up's correction, plus the
      residence time of the Sync, plus the peer delay and asymmetry of the port they came in on. */
  lemma EitherOrder(a: Op, b: Op)
    requires a.Syfup? && b.Syfup? && a.from == b.from && Matches(Stashed(a), b)
    ensures Matches(Stashed(b), a) && Completed(Stashed(a), b) == Completed(Stashed(b), a)
    ensures var (sync, fup) := if a.msg.kind.Sync? then (a, b) else (b, a);
            && fup.msg.kind.FollowUp?
            && Completed(Stashed(a), b) == Sent(None, fup.msg.(correction := fup.msg.correction
                 + 0x1_0000 * (sync.residence + a.from.peerDelay) + a.from.asymmetry))
  {
  }
}
