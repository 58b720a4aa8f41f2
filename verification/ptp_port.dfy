/** A port: its state, and the foreign masters it has heard of. */
module PtpPort {
  import opened Options
  import opened PtpDataset
  import opened PtpFsm
  import opened PtpBest

  const FOREIGN_MASTER_THRESHOLD := 2
  const NSEC2SEC := 1_000_000_000
  const INT64_MAX := 0x7fff_ffff_ffff_ffff

  /** What a received Announce message says, and when it arrived. */
  datatype Announce = Announce(
    priority1: Byte, quality: ClockQuality, priority2: Byte, grandmaster: ClockIdentity, stepsRemoved: UInt16,
    source: PortIdentity, arrival: int, logInterval: int)

  /** A foreign master: the counted Announce messages, newest first, and the data set last made from them. */
  datatype ForeignClock = ForeignClock(dataset: Dataset, messages: seq<Announce>)

  function Pow2(n: nat): (p: nat)
    ensures p > 0
  {
    if n == 0 then 1 else 2 * Pow2(n - 1)
  }

  /** How long an Announce message counts. */
  function Lifetime(logInterval: int): int {
    if logInterval <= -31 then 0
    else if logInterval >= 31 then INT64_MAX
    else if logInterval < 0 then 4 * NSEC2SEC / Pow2(-logInterval)
    else 4 * Pow2(logInterval) * NSEC2SEC
  }

  lemma {:induction false} TimesGrows(b: nat, x: int, y: int)
    requires x < y
    ensures b * x + b <= b * y
    decreases y - x
  {
    assert b * y == b * (y - 1) + b;
    if x < y - 1 {
      TimesGrows(b, x, y - 1);
    }
  }

  lemma QuotientIs(a: nat, b: nat, q: nat, r: nat)
    requires b > 0 && r < b && a == b * q + r
    ensures a / b == q
  {
    var k, m := a / b, a % b;
    assert a == b * k + m;
    if k > q {
      TimesGrows(b, q, k);
    } else if k < q {
      TimesGrows(b, k, q);
    }
  }

  lemma HalfQuotient(a: nat, p: nat)
    requires p > 0
    ensures a / (2 * p) == a / p / 2
  {
    var q, m := a / p, a % p;
    var h := q / 2;
    Doubled(p, h);
    assert a == p * q + m;
    if q == h + h {
      QuotientIs(a, 2 * p, h, m);
    } else {
      assert q == h + h + 1;
      QuotientIs(a, 2 * p, h, p + m);
    }
  }

  lemma Doubled(p: nat, h: nat)
    ensures p * (h + h) == 2 * p * h && p * (h + h + 1) == 2 * p * h + p
  {
  }

  /** Four intervals: four seconds at one second, twice as long at each longer interval, and half as long, in whole
      nanoseconds, at each shorter one. */
  lemma LifetimeIs(n: int)
    ensures Lifetime(0) == 4_000_000_000
    ensures 0 <= n < 30 ==> Lifetime(n + 1) == 2 * Lifetime(n)
    ensures -30 <= n < 0 ==> Lifetime(n) == Lifetime(n + 1) / 2
  {
    if -30 <= n < -1 {
      HalfQuotient(4 * NSEC2SEC, Pow2(-n - 1));
    } else if n == -1 {
      assert Pow2(1) == 2 * Pow2(0) == 2;
    }
  }

  predicate Current(m: Announce, now: int) {
    now - m.arrival < Lifetime(m.logInterval)
  }

  /** Without the stale messages at the old end. */
  function DropStale(ms: seq<Announce>, now: int): (kept: seq<Announce>)
    ensures kept <= ms
    ensures kept != [] ==> Current(kept[|kept| - 1], now)
    ensures forall i :: |kept| <= i < |ms| ==> !Current(ms[i], now)
  {
    if ms == [] || Current(ms[|ms| - 1], now) then ms else DropStale(ms[..|ms| - 1], now)
  }

  function Pruned(ms: seq<Announce>, now: int): seq<Announce> {
    DropStale(if |ms| > FOREIGN_MASTER_THRESHOLD then ms[..FOREIGN_MASTER_THRESHOLD] else ms, now)
  }

  method FcPrune(fc: ForeignClock, now: int) returns (r: ForeignClock)
    ensures r == fc.(messages := Pruned(fc.messages, now))
  {
    var ms := fc.messages;
    while |ms| > FOREIGN_MASTER_THRESHOLD
      invariant ms == fc.messages || (|ms| >= FOREIGN_MASTER_THRESHOLD && ms <= fc.messages)
    {
      ms := ms[..|ms| - 1];
    }
    while ms != []
      invariant DropStale(ms, now) == Pruned(fc.messages, now)
    {
      if Current(ms[|ms| - 1], now) {
        break;
      }
      ms := ms[..|ms| - 1];
    }
    r := fc.(messages := ms);
  }

  /** Whether two announcements differ in what the best master algorithm looks at. */
  predicate Differs(m: Announce, n: Announce) {
    m.priority1 != n.priority1 || m.quality != n.quality || m.priority2 != n.priority2
    || m.grandmaster != n.grandmaster || m.stepsRemoved != n.stepsRemoved
  }

  const NO_IDENTITY: ClockIdentity := [0, 0, 0, 0, 0, 0, 0, 0]
  const NO_PORT := PortIdentity(NO_IDENTITY, 0)
  const NO_DATASET := Dataset(0, NO_IDENTITY, ClockQuality(0, 0, 0), 0, 0, 0, NO_PORT, NO_PORT)

  /** Foreign masters are kept apart by their senders, and their messages are their senders'. */
  ghost predicate KeptApart(fcs: seq<ForeignClock>) {
    && (forall i, j :: 0 <= i < j < |fcs| ==> fcs[i].dataset.sender != fcs[j].dataset.sender)
    && (forall i, j :: 0 <= i < |fcs| && 0 <= j < |fcs[i].messages| ==>
          fcs[i].messages[j].source == fcs[i].dataset.sender)
  }

  /** Foreign masters are on other clocks. */
  ghost predicate AllForeign(id: ClockIdentity, fcs: seq<ForeignClock>) {
    forall i :: 0 <= i < |fcs| ==> fcs[i].dataset.sender.clockIdentity != id
  }

  lemma NoneApart(id: ClockIdentity)
    ensures KeptApart([]) && AllForeign(id, [])
  {
  }

  /** All counted messages came over less than `max` steps. */
  ghost predicate AllNear(fcs: seq<ForeignClock>, max: int) {
    forall i, j :: 0 <= i < |fcs| && 0 <= j < |fcs[i].messages| ==> fcs[i].messages[j].stepsRemoved < max
  }

  /** The foreign master with the given sender. */
  function IndexOf(fcs: seq<ForeignClock>, source: PortIdentity): (r: Option<nat>)
    ensures r.Some? ==> r.value < |fcs| && fcs[r.value].dataset.sender == source
    ensures r.None? ==> forall i :: 0 <= i < |fcs| ==> fcs[i].dataset.sender != source
  {
    if fcs == [] then None
    else if fcs[0].dataset.sender == source then Some(0)
    else
      var r := IndexOf(fcs[1..], source);
      if r.None? then None else Some(r.value + 1)
  }

  /** The foreign masters after an announcement: a new sender gets a place without messages at the head of the
      list; a known one gets the message on top of those that still count. */
  function Noted(fcs: seq<ForeignClock>, m: Announce, now: int): seq<ForeignClock> {
    var r := IndexOf(fcs, m.source);
    if r.None? then [ForeignClock(NO_DATASET.(sender := m.source), [])] + fcs
    else fcs[r.value := fcs[r.value].(messages := [m] + Pruned(fcs[r.value].messages, now))]
  }

  /** Taking note of a message that came over less steps keeps that. */
  lemma NotedNear(fcs: seq<ForeignClock>, m: Announce, now: int, max: int)
    requires AllNear(fcs, max) && m.stepsRemoved < max
    ensures AllNear(Noted(fcs, m, now), max)
  {
    hide DropStale;
    var noted, r := Noted(fcs, m, now), IndexOf(fcs, m.source);
    if r.Some? {
      var kept := Pruned(fcs[r.value].messages, now);
      assert forall j :: 0 <= j < |kept| ==> kept[j] == fcs[r.value].messages[j];
      assert forall j :: 0 < j < |[m] + kept| ==> ([m] + kept)[j] == kept[j - 1];
      assert forall i :: 0 <= i < |fcs| && i != r.value ==> noted[i] == fcs[i];
    } else {
      assert forall i :: 0 < i < |noted| ==> noted[i] == fcs[i - 1];
    }
  }

  /** The messages of the sender of `m` that still count. */
  function Counted(fcs: seq<ForeignClock>, m: Announce, now: int): seq<Announce> {
    var r := IndexOf(fcs, m.source);
    if r.None? then [] else Pruned(fcs[r.value].messages, now)
  }

  /** Whether an announcement calls for a state decision: it brings a known sender to the threshold, or differs from the
      sender's last. */
  predicate Asks(fcs: seq<ForeignClock>, m: Announce, now: int) {
    var kept := Counted(fcs, m, now);
    IndexOf(fcs, m.source).Some? && (|kept| == FOREIGN_MASTER_THRESHOLD - 1 || AsksAgain(fcs, m, now))
  }

  /** Whether an announcement of the current master does: only if it differs from the last. */
  predicate AsksAgain(fcs: seq<ForeignClock>, m: Announce, now: int) {
    var kept := Counted(fcs, m, now);
    kept != [] && Differs(m, kept[0])
  }

  /** The foreign masters, with the messages of the best one dropped. */
  function Silenced(fcs: seq<ForeignClock>, best: Option<nat>): seq<ForeignClock>
    requires best.Some? ==> best.value < |fcs|
  {
    if best.None? then fcs else fcs[best.value := fcs[best.value].(messages := [])]
  }

  class Port {
    const identity: PortIdentity
    const localPriority: Byte
    const masterOnly: bool
    const slaveOnly: bool
    const noop: bool
    var state: State
    var foreign: seq<ForeignClock>
    var best: Option<nat>

    constructor (identity: PortIdentity, localPriority: Byte, masterOnly: bool, slaveOnly: bool, noop: bool)
      ensures Valid() && state == Initializing && foreign == [] && best == None
      ensures this.identity == identity && this.localPriority == localPriority
      ensures this.masterOnly == masterOnly && this.slaveOnly == slaveOnly && this.noop == noop
    {
      this.identity, this.localPriority := identity, localPriority;
      this.masterOnly, this.slaveOnly, this.noop := masterOnly, slaveOnly, noop;
      state, foreign, best := Initializing, [], None;
    }

    ghost predicate Valid()
      reads this`best, this`foreign
    {
      (best.Some? ==> best.value < |foreign|) && KeptApart(foreign) && AllForeign(identity.clockIdentity, foreign)
    }

    /** Whether a message is the clock's own: such messages are dropped. */
    predicate Own(m: Announce) {
      m.source == identity || m.source.clockIdentity == identity.clockIdentity
    }

    function ToDataset(m: Announce): Dataset {
      Dataset(m.priority1, m.grandmaster, m.quality, m.priority2, localPriority, m.stepsRemoved, m.source, identity)
    }

    /** The data set says what was announced, and where. */
    lemma SaysWhatWasAnnounced(m: Announce)
      ensures var d := ToDataset(m);
        && Advertised(Ieee1588, d) == [m.priority1, m.quality.clockClass, m.quality.clockAccuracy,
                                       m.quality.offsetScaledLogVariance, m.priority2]
        && Advertised(G8275, d) == [m.quality.clockClass, m.quality.clockAccuracy, m.quality.offsetScaledLogVariance,
                                    m.priority2, localPriority]
        && d.identity == m.grandmaster && d.stepsRemoved == m.stepsRemoved
        && d.sender == m.source && d.receiver == identity
    {
    }

    /** An announcement differs from another of its sender exactly if it makes another data set. */
    lemma DiffersExactly(m: Announce, n: Announce)
      requires m.source == n.source
      ensures Differs(m, n) <==> ToDataset(m) != ToDataset(n)
    {
    }

    /** The data set a foreign master competes with, if it qualifies at `now`. */
    function Candidate(fc: ForeignClock, now: int): Option<Dataset> {
      if fc.messages == [] || |Pruned(fc.messages, now)| < FOREIGN_MASTER_THRESHOLD then None
      else Some(ToDataset(fc.messages[0]))
    }

    /** A foreign master qualifies exactly if the second newest of its counted messages still counts. */
    lemma QualifiesIff(fc: ForeignClock, now: int)
      ensures Candidate(fc, now).Some? <==>
        |fc.messages| >= 2 && now - fc.messages[1].arrival < Lifetime(fc.messages[1].logInterval)
    {
      var two := if |fc.messages| > 2 then fc.messages[..2] else fc.messages;
      assert |two| == 2 ==> two[1] == fc.messages[1];
      assert |two| == 2 && !Current(two[1], now) ==> DropStale(two, now) == DropStale(two[..1], now);
    }

    /** An announcement of a known sender calls for a state decision exactly if the sender comes to qualify by it, or if
        the sender has announced another data set before, and that still counts. */
    lemma AsksExactly(fcs: seq<ForeignClock>, m: Announce, now: int)
      requires KeptApart(fcs) && IndexOf(fcs, m.source).Some?
      ensures var i := IndexOf(fcs, m.source).value;
        var before, after, kept := fcs[i], Noted(fcs, m, now)[i], Pruned(fcs[i].messages, now);
        Asks(fcs, m, now) <==>
          || (Candidate(before, now).None? && Candidate(after, now).Some?)
          || (kept != [] && ToDataset(m) != ToDataset(kept[0]))
    {
      var i := IndexOf(fcs, m.source).value;
      var kept := Pruned(fcs[i].messages, now);
      PrunedKeepsSource(fcs[i].messages, now, m.source);
      if kept != [] {
        DiffersExactly(m, kept[0]);
      }
      if |kept| == 1 {
        assert ([m] + kept)[1] == kept[0] && Current(kept[0], now);
        assert Pruned([m] + kept, now) == [m] + kept;
      }
    }

    /** A sender has to be heard three times before it may qualify: the first message is not counted, and two have to
        count. */
    lemma HeardThrice(fcs: seq<ForeignClock>, l: Announce, m: Announce, n: Announce, now: int, soon: int, later: int)
      requires IndexOf(fcs, l.source).None? && l.source == m.source == n.source
      ensures var once := Noted(fcs, l, now);
        var twice := Noted(once, m, soon);
        var thrice := Noted(twice, n, later);
        && |thrice| == |twice| == |once| == |fcs| + 1 && once[1..] == twice[1..] == thrice[1..] == fcs
        && once[0].messages == [] && twice[0].messages == [m]
        && Candidate(once[0], soon).None? && Candidate(twice[0], later).None?
        && (Candidate(thrice[0], later).Some? <==> Current(m, later))
    {
      var once := Noted(fcs, l, now);
      var twice := Noted(once, m, soon);
      assert once[0].dataset.sender == l.source && twice[0].dataset.sender == l.source;
      assert Pruned([], soon) == [];
      assert [m] + [] == [m];
      assert twice == once[0 := once[0].(messages := [m])];
      var kept := Pruned([m], later);
      assert kept == if Current(m, later) then [m] else [] by {
        assert [m][..0] == [];
      }
      QualifiesIff(twice[0], later);
      QualifiesIff(Noted(twice, n, later)[0], later);
    }

    function Candidates(fcs: seq<ForeignClock>, now: nat -> int): (s: seq<Option<Dataset>>)
      ensures |s| == |fcs|
    {
      seq(|fcs|, i requires 0 <= i < |fcs| => Candidate(fcs[i], now(i)))
    }

    /** Candidates of one port never tie: their senders differ. */
    lemma CandidatesDistinct(now: nat -> int)
      requires Valid()
      ensures DistinctSources(Candidates(foreign, now))
    {
      var cands := Candidates(foreign, now);
      assert forall i :: 0 <= i < |cands| ==> cands[i] == Candidate(foreign[i], now(i));
    }

    /** Every candidate came from another clock. */
    lemma CandidatesTravelled(now: nat -> int, i: nat)
      requires Valid() && i < |foreign| && Candidate(foreign[i], now(i)).Some?
      ensures var d := Candidate(foreign[i], now(i)).value;
        d.sender.clockIdentity != d.receiver.clockIdentity && Travelled(d)
    {
      assert foreign[i].messages[0].source == foreign[i].dataset.sender;
    }

    /** And over less steps than the clock allows, if only such messages were counted. */
    lemma CandidatesNear(now: nat -> int, i: nat, max: int)
      requires AllNear(foreign, max) && i < |foreign| && Candidate(foreign[i], now(i)).Some?
      ensures Candidate(foreign[i], now(i)).value.stepsRemoved < max
    {
      assert foreign[i].messages[0].stepsRemoved < max;
    }

    /** What the pass leaves of the foreign master at `i`: losers forget their messages. */
    function Visited(c: Comparison, host: Host, fcs: seq<ForeignClock>, now: nat -> int, i: nat): ForeignClock
      requires i < |fcs|
    {
      var fc := fcs[i];
      if fc.messages == [] then fc
      else
        var cands := Candidates(fcs, now);
        var kept := ForeignClock(ToDataset(fc.messages[0]), Pruned(fc.messages, now(i)));
        if cands[i].Some? && BestOf(c, host, cands, i + 1) != Some(i) then kept.(messages := []) else kept
    }

    /** The list after the pass has visited its first `n` foreign masters. */
    ghost function Passed(c: Comparison, host: Host, fcs: seq<ForeignClock>, now: nat -> int, n: nat)
      : (s: seq<ForeignClock>)
      ensures |s| == |fcs|
    {
      seq(|fcs|, i requires 0 <= i < |fcs| => if i < n then Visited(c, host, fcs, now, i) else fcs[i])
    }

    lemma PassedStep(c: Comparison, host: Host, fcs: seq<ForeignClock>, now: nat -> int, n: nat)
      requires n < |fcs|
      ensures Passed(c, host, fcs, now, 0) == fcs && Passed(c, host, fcs, now, n)[n] == fcs[n]
      ensures Passed(c, host, fcs, now, n + 1) == Passed(c, host, fcs, now, n)[n := Visited(c, host, fcs, now, n)]
    {
      hide Visited;
    }

    /** The pass, at the foreign master `i` of the list that was `fcs`. */
    method Visit(c: Comparison, host: Host, now: nat -> int, i: nat, ghost fcs: seq<ForeignClock>)
      requires i < |fcs| && foreign == Passed(c, host, fcs, now, i)
      requires best == BestOf(c, host, Candidates(fcs, now), i)
      requires best.Some? ==> Some(foreign[best.value].dataset) == Candidates(fcs, now)[best.value]
      modifies this`best, this`foreign
      ensures best == BestOf(c, host, Candidates(fcs, now), i + 1)
      ensures foreign == Passed(c, host, fcs, now, i + 1)
      ensures best.Some? ==> Some(foreign[best.value].dataset) == Candidates(fcs, now)[best.value]
    {
      hide Cmp, Pruned, Passed;
      PassedStep(c, host, fcs, now, i);
      ghost var cands := Candidates(fcs, now);
      var fc := foreign[i];
      if fc.messages == [] {
        return;
      }
      fc := fc.(dataset := ToDataset(fc.messages[0]));
      fc := FcPrune(fc, now(i));
      if |fc.messages| >= FOREIGN_MASTER_THRESHOLD {
        if best.None? {
          best := Some(i);
        } else if Cmp(c, host, fc.dataset, foreign[best.value].dataset) > 0 {
          best := Some(i);
        } else {
          fc := fc.(messages := []);
        }
      }
      foreign := foreign[i := fc];
    }

    /** Find the best qualified foreign master of this port. */
    method ComputeBest(c: Comparison, host: Host, now: nat -> int)
      requires Valid()
      modifies this`best, this`foreign
      ensures Valid() && |foreign| == old(|foreign|)
      ensures best == if masterOnly then None else BestOf(c, host, old(Candidates(foreign, now)), old(|foreign|))
      ensures foreign == if masterOnly then old(foreign) else Passed(c, host, old(foreign), now, old(|foreign|))
      ensures best.Some? ==> Some(foreign[best.value].dataset) == old(Candidates(foreign, now))[best.value]
    {
      best := None;
      if masterOnly {
        return;
      }
      hide *;
      ghost var fcs := foreign;
      PassAll(c, host, now, fcs);
      VisitedKeptApart(c, host, fcs, now);
      BestInRange(c, host, Candidates(fcs, now));
    }

    method PassAll(c: Comparison, host: Host, now: nat -> int, ghost fcs: seq<ForeignClock>)
      requires best == None && foreign == fcs
      modifies this`best, this`foreign
      ensures best == BestOf(c, host, Candidates(fcs, now), |fcs|)
      ensures foreign == Passed(c, host, fcs, now, |fcs|)
      ensures best.Some? ==> Some(foreign[best.value].dataset) == Candidates(fcs, now)[best.value]
    {
      hide *;
      PassStart(c, host, fcs, now);
      var i := 0;
      while i < |foreign|
        invariant i <= |foreign| && foreign == Passed(c, host, fcs, now, i)
        invariant best == BestOf(c, host, Candidates(fcs, now), i)
        invariant best.Some? ==> Some(foreign[best.value].dataset) == Candidates(fcs, now)[best.value]
      {
        Visit(c, host, now, i, fcs);
        i := i + 1;
      }
    }

    lemma PassStart(c: Comparison, host: Host, fcs: seq<ForeignClock>, now: nat -> int)
      ensures Passed(c, host, fcs, now, 0) == fcs && BestOf(c, host, Candidates(fcs, now), 0) == None
    {
      hide Visited;
    }

    lemma BestInRange(c: Comparison, host: Host, cands: seq<Option<Dataset>>)
      ensures var b := BestOf(c, host, cands, |cands|); b.Some? ==> b.value < |cands|
    {
    }

    lemma VisitedKeptApart(c: Comparison, host: Host, fcs: seq<ForeignClock>, now: nat -> int)
      requires KeptApart(fcs)
      ensures KeptApart(Passed(c, host, fcs, now, |fcs|))
      ensures forall id :: AllForeign(id, fcs) ==> AllForeign(id, Passed(c, host, fcs, now, |fcs|))
    {
      hide BestOf, DropStale;
      var after := Passed(c, host, fcs, now, |fcs|);
      forall i | 0 <= i < |fcs|
        ensures after[i].dataset.sender == fcs[i].dataset.sender && after[i].messages <= fcs[i].messages
      {
        assert after[i] == Visited(c, host, fcs, now, i);
        assert Pruned(fcs[i].messages, now(i)) <= fcs[i].messages;
      }
      assert forall i, j :: 0 <= i < |after| && 0 <= j < |after[i].messages| ==>
        after[i].messages[j] == fcs[i].messages[j];
    }

    /** Take note of an announcement.  Returns whether it calls for a state decision.  The first one from a sender
        is not counted. */
    method AddForeignMaster(m: Announce, now: int) returns (changed: bool)
      requires Valid() && !Own(m)
      modifies this`best, this`foreign
      ensures Valid() && foreign == Noted(old(foreign), m, now)
      ensures old(best).Some? ==> best.Some? && foreign[best.value].dataset == old(foreign)[old(best).value].dataset
      ensures old(best).None? ==> best.None?
      ensures changed == Asks(old(foreign), m, now)
    {
      hide Pruned;
      var i := 0;
      while i < |foreign| && foreign[i].dataset.sender != m.source
        invariant i <= |foreign| && forall j :: 0 <= j < i ==> foreign[j].dataset.sender != m.source
      {
        i := i + 1;
      }
      if i == |foreign| {
        foreign := [ForeignClock(NO_DATASET.(sender := m.source), [])] + foreign;
        best := if best.None? then None else Some(best.value + 1);
        return false;
      }
      PrunedKeepsSource(foreign[i].messages, now, m.source);
      var fc := FcPrune(foreign[i], now);
      var brokeThreshold := |fc.messages| == FOREIGN_MASTER_THRESHOLD - 1;
      var diff := fc.messages != [] && Differs(m, fc.messages[0]);
      foreign := foreign[i := fc.(messages := [m] + fc.messages)];
      changed := brokeThreshold || diff;
    }

    lemma PrunedKeepsSource(ms: seq<Announce>, now: int, source: PortIdentity)
      requires forall j :: 0 <= j < |ms| ==> ms[j].source == source
      ensures forall j :: 0 <= j < |Pruned(ms, now)| ==> Pruned(ms, now)[j].source == source
    {
    }

    /** Whether a message is from the best master. */
    predicate Follows(m: Announce)
      requires best.Some? ==> best.value < |foreign|
      reads this`best, this`foreign
    {
      best.Some? && foreign[best.value].dataset.sender == m.source
    }

    /** An announcement heard while following, or standing by for, a master. */
    method UpdateCurrentMaster(m: Announce, now: int) returns (changed: bool)
      requires Valid() && !Own(m)
      modifies this`best, this`foreign
      ensures Valid() && foreign == Noted(old(foreign), m, now)
      ensures changed == if old(Follows(m)) then AsksAgain(old(foreign), m, now) else Asks(old(foreign), m, now)
    {
      if best.None? || foreign[best.value].dataset.sender != m.source {
        changed := AddForeignMaster(m, now);
        return;
      }
      hide Pruned;
      PrunedKeepsSource(foreign[best.value].messages, now, m.source);
      var fc := FcPrune(foreign[best.value], now);
      changed := fc.messages != [] && Differs(m, fc.messages[0]);
      foreign := foreign[best.value := fc.(messages := [m] + fc.messages)];
    }

    /** Whether an announcement is not taken note of. */
    predicate Ignores(m: Announce, maxStepsRemoved: Byte)
      reads this`state
    {
      m.stepsRemoved >= maxStepsRemoved || state.Initializing? || state.Faulty? || state.Disabled?
    }

    /** Whether an announcement calls for a state decision, in the port's state. */
    predicate Decides(m: Announce, now: int, maxStepsRemoved: Byte)
      requires best.Some? ==> best.value < |foreign|
      reads this
    {
      && !Ignores(m, maxStepsRemoved)
      && if (Tracking(state) || state.Passive?) && Follows(m) then AsksAgain(foreign, m, now) else Asks(foreign, m, now)
    }

    /** Handle a received Announce message, according to the state of the port. */
    method ProcessAnnounce(m: Announce, now: int, maxStepsRemoved: Byte) returns (changed: bool)
      requires Valid() && !Own(m)
      modifies this`best, this`foreign
      ensures Valid() && foreign == if Ignores(m, maxStepsRemoved) then old(foreign) else Noted(old(foreign), m, now)
      ensures changed == old(Decides(m, now, maxStepsRemoved))
    {
      hide Valid, Noted;
      changed := false;
      if m.stepsRemoved >= maxStepsRemoved {
        return;
      }
      match state
      case Initializing =>
      case Faulty =>
      case Disabled =>
      case Listening => changed := AddForeignMaster(m, now);
      case PreMaster => changed := AddForeignMaster(m, now);
      case Master => changed := AddForeignMaster(m, now);
      case GrandMaster => changed := AddForeignMaster(m, now);
      case Passive => changed := UpdateCurrentMaster(m, now);
      case Uncalibrated => changed := UpdateCurrentMaster(m, now);
      case Slave => changed := UpdateCurrentMaster(m, now);
    }

    /** A received Announce message: the clock's own are dropped. */
    method Receive(m: Announce, now: int, maxStepsRemoved: Byte) returns (changed: bool)
      requires Valid()
      modifies this`best, this`foreign
      ensures Valid()
      ensures foreign == if Own(m) || Ignores(m, maxStepsRemoved) then old(foreign) else Noted(old(foreign), m, now)
      ensures changed == (!Own(m) && old(Decides(m, now, maxStepsRemoved)))
      ensures AllNear(old(foreign), maxStepsRemoved) ==> AllNear(foreign, maxStepsRemoved)
    {
      hide Valid, Noted, AllNear, Port.Decides;
      if Own(m) {
        return false;
      }
      if AllNear(foreign, maxStepsRemoved) && m.stepsRemoved < maxStepsRemoved {
        NotedNear(foreign, m, now, maxStepsRemoved);
      }
      changed := ProcessAnnounce(m, now, maxStepsRemoved);
    }

    /** Update the state on an event.  Exactly initializing, failing and being disabled forget all foreign masters. */
    method UpdateState(event: Event, mdiff: bool, env: Surroundings)
      requires Valid()
      modifies this`state, this`best, this`foreign
      ensures Valid() && state == StateUpdate(slaveOnly, old(state), event, mdiff, env)
      ensures var f := Forgets(slaveOnly, old(state), event, mdiff, env);
        foreign == (if f then [] else old(foreign)) && best == if f then None else old(best)
    {
      hide Machine, Answer, KeptApart, AllForeign;
      NoneApart(identity.clockIdentity);
      var next := Answer(slaveOnly, state, event, mdiff, env);
      if next.Initializing? {
        foreign, best := [], None;
        next := Machine(slaveOnly, next, if env.initOk then InitComplete else FaultDetected, false);
      }
      if next != state {
        state := next;
        if next.Faulty? || next.Disabled? {
          foreign, best := [], None;
        }
      }
    }

    method Dispatch(event: Event, mdiff: bool, env: DispatchEnv)
      requires Valid()
      modifies this`state, this`best, this`foreign
      ensures Valid() && state == Dispatched(slaveOnly, old(state), event, mdiff, env)
      ensures var f := ForgetsOn(slaveOnly, old(state), event, mdiff, env);
        foreign == (if f then [] else old(foreign)) && best == if f then None else old(best)
    {
      hide StateUpdate, Forgets;
      var before := state;
      UpdateState(event, mdiff, env.update);
      if state != before && state.Uncalibrated? && env.switchFails {
        UpdateState(FaultDetected, false, env.fault);
      }
    }

    /** The announce receipt timer runs out: the messages of the current best master no longer count. */
    method AnnounceTimeout(env: DispatchEnv)
      requires Valid()
      modifies this`state, this`best, this`foreign
      ensures Valid() && state == Dispatched(slaveOnly, old(state), AnnounceReceiptTimeout, false, env)
      ensures foreign == if ForgetsOn(slaveOnly, old(state), AnnounceReceiptTimeout, false, env) then []
                         else Silenced(old(foreign), old(best))
    {
      hide Dispatched, ForgetsOn;
      if best.Some? {
        foreign := foreign[best.value := foreign[best.value].(messages := [])];
      }
      Dispatch(AnnounceReceiptTimeout, false, env);
    }
  }
}
