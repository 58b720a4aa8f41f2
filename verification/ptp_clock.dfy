/** A clock: it elects the best foreign master over all its ports and recommends a state to each. */
module PtpClock {
  import opened Options
  import opened PtpDataset
  import opened PtpFsm
  import opened PtpBest
  import opened PtpPort

  /** The state recommended to a port. */
  function Decision(c: Comparison, host: Host, own: Dataset, clockBest: Option<Dataset>, portBest: Option<Dataset>,
                    isBestPort: bool, noop: bool, state: State): State
  {
    if portBest.None? && noop then state
    else if portBest.None? && state.Listening? then state
    else if own.quality.clockClass <= 127 then
      if Dscmp(c, host, Some(own), portBest) > 0 then GrandMaster else Passive
    else if Dscmp(c, host, Some(own), clockBest) > 0 then GrandMaster
    else if isBestPort then Slave
    else if Dscmp(c, host, clockBest, portBest) == A_BETTER_TOPO then Passive
    else Master
  }

  /** The event by which a recommendation reaches a port. */
  function Recommendation(state: State): Event {
    match state
    case Listening => NoEvent
    case GrandMaster => RsGrandMaster
    case Master => RsMaster
    case Passive => RsPassive
    case Slave => RsSlave
    case _ => FaultDetected
  }

  /** Only the port of the best foreign master is told to follow it; any other port that runs the best master
      algorithm does not follow a master after the decision, whatever it did before. */
  lemma OnlyBestPortFollows(c: Comparison, host: Host, own: Dataset, clockBest: Option<Dataset>,
                            portBest: Option<Dataset>,
                            isBestPort: bool, state: State, slaveOnly: bool, freshBest: bool, env: DispatchEnv)
    ensures var d := Decision(c, host, own, clockBest, portBest, isBestPort, false, state);
      Tracking(Dispatched(slaveOnly, state, Recommendation(d), freshBest, env)) ==> isBestPort
  {
    hide Dispatched, Dscmp;
    var d := Decision(c, host, own, clockBest, portBest, isBestPort, false, state);
    if Tracking(Dispatched(slaveOnly, state, Recommendation(d), freshBest, env)) {
      DispatchTracking(slaveOnly, state, Recommendation(d), freshBest, env);
    }
  }

  /** Exactly when the port of the best foreign master is told to follow it: when the clock may be a slave at all
      and is not better itself. */
  lemma BestPortFollowsIff(c: Comparison, host: Host, own: Dataset, best: Dataset, state: State, noop: bool)
    ensures Decision(c, host, own, Some(best), Some(best), true, noop, state) == Slave <==>
            own.quality.clockClass > 127 && Cmp(c, host, best, own) >= 0
  {
    CmpAntisymmetric(c, host, own, best);
  }

  /** A port that does not run the best master algorithm, and has no foreign master, stays what it is. */
  lemma NoopKeeps(c: Comparison, host: Host, own: Dataset, clockBest: Option<Dataset>, isBestPort: bool, state: State,
                  env: DispatchEnv)
    requires state in {Listening, Master, GrandMaster, Passive, Slave}
    ensures var d := Decision(c, host, own, clockBest, None, isBestPort, true, state);
      Dispatched(false, state, Recommendation(d), false, env) == state
  {
    hide PtpFsm.PtpFsm;
    MachineMoves(state, Recommendation(state), false);
  }

  /** What can reach a port between state decisions: an event that is not a recommendation, an announcement,
      or the end of the announce receipt timer. */
  datatype PortInput =
    | Signal(event: Event, env: DispatchEnv)
    | Announced(message: Announce, now: int)
    | TimedOut(timeoutEnv: DispatchEnv)

  predicate NotRecommendation(input: PortInput) {
    input.Signal? ==>
      !input.event.RsMaster? && !input.event.RsGrandMaster? && !input.event.RsSlave? && !input.event.RsPassive?
  }

  /** Whether an input calls for a state decision whatever the port knows. */
  predicate AlwaysCalls(input: PortInput) {
    input.TimedOut? || (input.Signal? && (input.event.StateDecision? || input.event.AnnounceReceiptTimeout?))
  }

  datatype Arrival = Arrival(port: nat, input: PortInput)

  /** One iteration of the poll loop: what arrived, whether anything else asked for a state decision, and what the
      surroundings answer during the decision. */
  datatype Iteration = Iteration(
    arrivals: seq<Arrival>, requested: bool, now: nat -> nat -> int, env: nat -> DispatchEnv)

  datatype DefaultDS = DefaultDS(priority1: Byte, quality: ClockQuality, priority2: Byte, localPriority: Byte)

  datatype Best = Best(port: nat, dataset: Dataset)

  class Clock {
    const comparison: Comparison
    const host: Host
    const identity: ClockIdentity
    const maxStepsRemoved: Byte
    const ports: seq<Port>
    var dds: DefaultDS
    var best: Option<Best>
    var bestId: ClockIdentity
    var parent: PortIdentity
    var stepsRemoved: int
    /** How many state decisions have run. */
    ghost var decisions: nat

    /** A clock starts without a master, on ports that have not been initialized yet. */
    constructor (comparison: Comparison, host: Host, identity: ClockIdentity, maxStepsRemoved: Byte,
                 ports: seq<Port>, dds: DefaultDS)
      requires forall i, j :: 0 <= i < j < |ports| ==> ports[i].identity.portNumber != ports[j].identity.portNumber
      requires forall i :: 0 <= i < |ports| ==> ports[i].identity.clockIdentity == identity
      requires forall i :: 0 <= i < |ports| ==> ports[i].Valid() && ports[i].state.Initializing?
      ensures this.ports == ports && Valid() && Following() && decisions == 0
    {
      this.comparison, this.host, this.identity, this.maxStepsRemoved := comparison, host, identity, maxStepsRemoved;
      this.ports, this.dds := ports, dds;
      best, bestId := None, identity;
      parent, stepsRemoved, decisions := PortIdentity(identity, 0), 0, 0;
    }

    /** The ports are numbered apart, and carry the clock's identity. */
    ghost predicate Valid()
      reads this, ports
    {
      && (forall i, j :: 0 <= i < j < |ports| ==> ports[i].identity.portNumber != ports[j].identity.portNumber)
      && (forall i :: 0 <= i < |ports| ==> ports[i].identity.clockIdentity == identity)
      && (forall i :: 0 <= i < |ports| ==> ports[i].Valid())
    }

    /** A port that follows a master is the port of the master elected last. */
    ghost predicate Following()
      reads this, ports
    {
      forall i :: 0 <= i < |ports| && Tracking(ports[i].state) ==> best.Some? && best.value.port == i
    }

    function OwnDataset(): Dataset
      reads this`dds
    {
      var self := PortIdentity(identity, 0);
      Dataset(dds.priority1, identity, dds.quality, dds.priority2, dds.localPriority, 0, self, self)
    }

    /** The candidates of every port. */
    ghost function Lists(now: nat -> nat -> int): (lists: seq<seq<Option<Dataset>>>)
      reads this, ports
      ensures |lists| == |ports|
    {
      seq(|ports|, i requires 0 <= i < |ports| reads this, ports =>
        if ports[i].masterOnly then [] else ports[i].Candidates(ports[i].foreign, now(i)))
    }

    /** The winner of the candidates of one port. */
    ghost function Winner(p: Port, now: nat -> int): Option<Dataset>
      reads p
    {
      var cands := p.Candidates(p.foreign, now);
      var b := BestOf(comparison, host, cands, |cands|);
      if p.masterOnly || b.None? then None else cands[b.value]
    }

    ghost function Elected(w: seq<Option<Dataset>>, n: nat): Option<Best>
      requires n <= |w|
    {
      var b := BestOf(comparison, host, w, n);
      if b.None? then None else Some(Best(b.value, w[b.value].value))
    }

    /** Let port `i` compete with the best of the ports before it. */
    method Compete(i: nat, now: nat -> int, sofar: Option<Best>, ghost w: seq<Option<Dataset>>)
      returns (elected: Option<Best>)
      requires i < |ports| == |w| && ports[i].Valid() && w[i] == Winner(ports[i], now) && sofar == Elected(w, i)
      modifies {ports[i]}`best, {ports[i]}`foreign
      ensures ports[i].Valid() && PortBest(i) == w[i] && elected == Elected(w, i + 1)
    {
      hide Cmp, KeptApart, BestOf;
      BestOfStep(comparison, host, w, i);
      elected := sofar;
      var p := ports[i];
      p.ComputeBest(comparison, host, now);
      if p.best.Some? {
        var d := p.foreign[p.best.value].dataset;
        if elected.None? || Cmp(comparison, host, d, elected.value.dataset) > 0 {
          elected := Some(Best(i, d));
        }
      }
    }

    /** Elect the best foreign master over all ports. */
    method ElectBest(now: nat -> nat -> int) returns (elected: Option<Best>)
      requires Valid()
      modifies ports`best, ports`foreign
      ensures Valid()
      ensures var w := Winners(comparison, host, old(Lists(now)));
        elected == Elected(w, |w|)
      ensures var w := Winners(comparison, host, old(Lists(now)));
        forall i :: 0 <= i < |ports| ==> PortBest(i) == w[i]
    {
      hide KeptApart, Winner, Elected, Lists, Winners;
      elected := None;
      ghost var w := Winners(comparison, host, Lists(now));
      WinnersOfPorts(now);
      var i := 0;
      while i < |ports|
        invariant i <= |ports| && Valid()
        invariant forall j :: i <= j < |ports| ==> w[j] == Winner(ports[j], now(j))
        invariant forall j :: 0 <= j < i ==> PortBest(j) == w[j]
        invariant elected == Elected(w, i)
      {
        elected := Compete(i, now(i), elected, w);
        i := i + 1;
      }
    }

    lemma WinnersOfPorts(now: nat -> nat -> int)
      ensures var w := Winners(comparison, host, Lists(now));
        |w| == |ports| && Elected(w, 0) == None && forall j :: 0 <= j < |ports| ==> w[j] == Winner(ports[j], now(j))
    {
    }

    /** The data set of the best foreign master of port `i`. */
    function PortBest(i: nat): Option<Dataset>
      requires i < |ports|
      requires ports[i].best.Some? ==> ports[i].best.value < |ports[i].foreign|
      reads ports
    {
      var p := ports[i];
      if p.best.None? then None else Some(p.foreign[p.best.value].dataset)
    }

    /** The event recommended to port `i`. */
    function EventFor(i: nat): Event
      requires i < |ports| && ports[i].Valid()
      reads this, ports
    {
      var clockBest := if best.None? then None else Some(best.value.dataset);
      var isBest := best.Some? && best.value.port == i;
      Recommendation(
        Decision(comparison, host, OwnDataset(), clockBest, PortBest(i), isBest, ports[i].noop, ports[i].state))
    }

    /** Recommend a state to port `i`, and bring the clock's data sets in line. */
    method Decide(i: nat, freshBest: bool, env: DispatchEnv)
      requires i < |ports| && ports[i].Valid()
      modifies this`parent, this`stepsRemoved, ports[i]
      ensures ports[i].Valid()
      ensures ports[i].state == Dispatched(ports[i].slaveOnly, old(ports[i].state), old(EventFor(i)), freshBest, env)
      ensures var e := old(EventFor(i));
        && (e.RsSlave? && best.Some? ==>
              parent == best.value.dataset.sender && stepsRemoved == 1 + best.value.dataset.stepsRemoved)
        && (e.RsGrandMaster? ==> parent == PortIdentity(identity, 0) && stepsRemoved == 0)
        && (!(e.RsSlave? && best.Some?) && !e.RsGrandMaster? ==>
              parent == old(parent) && stepsRemoved == old(stepsRemoved))
    {
      hide KeptApart, Dispatched, Dscmp;
      var event := EventFor(i);
      if event.RsGrandMaster? {
        parent, stepsRemoved := PortIdentity(identity, 0), 0;
      } else if event.RsSlave? && best.Some? {
        parent, stepsRemoved := best.value.dataset.sender, 1 + best.value.dataset.stepsRemoved;
      }
      ports[i].Dispatch(event, freshBest, env);
    }

    /** The event a decision sends to a port in state `s` whose own best foreign master is `portBest`. */
    ghost function Sent(i: nat, portBest: Option<Dataset>, s: State): Event
      reads this`best, this`dds
    {
      var clockBest := if best.None? then None else Some(best.value.dataset);
      Recommendation(
        Decision(comparison, host, OwnDataset(), clockBest, portBest, best.Some? && best.value.port == i, false, s))
    }

    /** The clock may be a slave, and the elected master is at least as good as the clock itself. */
    ghost predicate Outranked()
      reads this`best, this`dds
    {
      best.Some? && dds.quality.clockClass > 127 && Cmp(comparison, host, best.value.dataset, OwnDataset()) >= 0
    }

    lemma SentToFollow(i: nat, portBest: Option<Dataset>, s: State)
      requires Outranked()
      ensures !Sent(i, portBest, s).RsGrandMaster?
      ensures i == best.value.port && portBest == Some(best.value.dataset) ==> Sent(i, portBest, s) == RsSlave
      ensures i != best.value.port ==> Sent(i, portBest, s) != RsSlave
    {
      hide Cmp;
      BestPortFollowsIff(comparison, host, OwnDataset(), best.value.dataset, s, false);
      CmpAntisymmetric(comparison, host, OwnDataset(), best.value.dataset);
    }

    /** What the clock says of itself. */
    lemma OwnIsAdvertised()
      ensures Advertised(Ieee1588, OwnDataset()) == [dds.priority1, dds.quality.clockClass, dds.quality.clockAccuracy,
                                                     dds.quality.offsetScaledLogVariance, dds.priority2]
      ensures Advertised(G8275, OwnDataset()) == [dds.quality.clockClass, dds.quality.clockAccuracy,
                                                  dds.quality.offsetScaledLogVariance, dds.priority2, dds.localPriority]
      ensures OwnDataset().identity == identity && OwnDataset().stepsRemoved == 0
    {
    }

    /** A port that listens and has no foreign master is told nothing; any other is told exactly one thing.  A clock of
        class 127 or below never follows: each port is told to be a grandmaster, or to be passive if it has a foreign
        master that is no worse than the clock. */
    lemma SentToServe(i: nat, portBest: Option<Dataset>, s: State)
      ensures Sent(i, portBest, s) == NoEvent <==> portBest.None? && s.Listening?
      ensures !(portBest.None? && s.Listening?) && dds.quality.clockClass <= 127 ==>
        Sent(i, portBest, s) ==
          if portBest.Some? && Cmp(comparison, host, portBest.value, OwnDataset()) >= 0 then RsPassive
          else RsGrandMaster
    {
      hide Cmp;
      if portBest.Some? {
        CmpAntisymmetric(comparison, host, OwnDataset(), portBest.value);
      }
    }

    /** Above class 127, all are told to be grandmasters unless the clock is outranked.  If it is, the port of the
        elected master is told to follow it; another is told to be passive exactly if the elected one has nothing over
        its own best foreign master but a better way, and otherwise to be a master. */
    lemma SentWhenOutranked(i: nat, portBest: Option<Dataset>, s: State)
      requires dds.quality.clockClass > 127 && !(portBest.None? && s.Listening?)
      ensures Sent(i, portBest, s) ==
        if !Outranked() then RsGrandMaster
        else if best.value.port == i then RsSlave
        else if portBest.Some? && OnlyBetterWay(comparison, host, best.value.dataset, portBest.value) then RsPassive
        else RsMaster
    {
      hide Cmp, OnlyBetterWay;
      if best.Some? {
        CmpAntisymmetric(comparison, host, OwnDataset(), best.value.dataset);
        if portBest.Some? {
          BetterByTopology(comparison, host, best.value.dataset, portBest.value);
        }
      }
    }

    /** So below an outranked clock its other ports serve: one that takes part becomes or stays a master, or is passive
        exactly if another way to the elected master's clock is better than its own. */
    lemma OthersServe(i: nat, portBest: Option<Dataset>, s: State, freshBest: bool, env: DispatchEnv)
      requires Outranked() && best.value.port != i && Active(s) && !(portBest.None? && s.Listening?)
      ensures Dispatched(false, s, Sent(i, portBest, s), freshBest, env) ==
        if portBest.Some? && OnlyBetterWay(comparison, host, best.value.dataset, portBest.value) then Passive
        else if Mastering(s) then s
        else PreMaster
    {
      hide Dispatched, Sent, OnlyBetterWay;
      SentWhenOutranked(i, portBest, s);
      AfterRecommendation(s, Sent(i, portBest, s), freshBest, env);
    }

    lemma EventIsSent(i: nat, d: Option<Dataset>)
      requires i < |ports| && ports[i].Valid() && !ports[i].noop && PortBest(i) == d
      ensures EventFor(i) == Sent(i, d, ports[i].state)
    {
    }

    lemma OthersDoNotFollow(w: seq<Option<Dataset>>, before: seq<State>, freshBest: bool, env: nat -> DispatchEnv)
      requires |w| == |before| == |ports|
      requires forall i :: 0 <= i < |ports| ==>
        ports[i].state == Dispatched(ports[i].slaveOnly, before[i], Sent(i, w[i], before[i]), freshBest, env(i))
      ensures Following()
    {
      hide Dispatched, Decision;
      forall i | 0 <= i < |ports| && Tracking(ports[i].state) ensures best.Some? && best.value.port == i {
        var clockBest := if best.None? then None else Some(best.value.dataset);
        OnlyBestPortFollows(comparison, host, OwnDataset(), clockBest, w[i], best.Some? && best.value.port == i,
                            before[i], ports[i].slaveOnly, freshBest, env(i));
      }
    }

    /** The decision for port `i`, whose own best foreign master is `d`. */
    method DecideFor(i: nat, freshBest: bool, env: DispatchEnv, ghost d: Option<Dataset>)
      requires i < |ports| && ports[i].Valid() && !ports[i].noop && PortBest(i) == d
      requires best.Some? && i == best.value.port ==> d == Some(best.value.dataset)
      modifies this`parent, this`stepsRemoved, ports[i]
      ensures ports[i].Valid()
      ensures ports[i].state
           == Dispatched(ports[i].slaveOnly, old(ports[i].state), Sent(i, d, old(ports[i].state)), freshBest, env)
      ensures Outranked() && i == best.value.port ==> ParentIsBest()
      ensures Outranked() && i != best.value.port ==> parent == old(parent) && stepsRemoved == old(stepsRemoved)
    {
      hide KeptApart, Dispatched, Sent, Cmp, EventFor;
      EventIsSent(i, d);
      if Outranked() { SentToFollow(i, d, ports[i].state); }
      Decide(i, freshBest, env);
    }

    ghost predicate ParentIsBest()
      reads this`best, this`parent, this`stepsRemoved
    {
      best.Some? && parent == best.value.dataset.sender && stepsRemoved == 1 + best.value.dataset.stepsRemoved
    }

    /** Recommend a state to every port; `w` holds their best foreign masters. */
    method DecideAll(freshBest: bool, env: nat -> DispatchEnv, ghost w: seq<Option<Dataset>>, ghost before: seq<State>)
      requires Valid() && |w| == |before| == |ports|
      requires forall i :: 0 <= i < |ports| ==> !ports[i].noop && PortBest(i) == w[i] && ports[i].state == before[i]
      requires best.Some? ==> best.value.port < |w| && w[best.value.port] == Some(best.value.dataset)
      modifies this`parent, this`stepsRemoved, ports
      ensures Valid()
      ensures forall i :: 0 <= i < |ports| ==>
        ports[i].state == Dispatched(ports[i].slaveOnly, before[i], Sent(i, w[i], before[i]), freshBest, env(i))
      ensures Outranked() ==> ParentIsBest()
    {
      hide KeptApart, Dispatched, Sent, ParentIsBest, Cmp;
      var i := 0;
      while i < |ports|
        invariant i <= |ports| && Valid()
        invariant forall j :: i <= j < |ports| ==> PortBest(j) == w[j] && ports[j].state == before[j]
        invariant forall j :: 0 <= j < i ==>
          ports[j].state == Dispatched(ports[j].slaveOnly, before[j], Sent(j, w[j], before[j]), freshBest, env(j))
        invariant Outranked() && best.Some? && i > best.value.port ==> ParentIsBest()
      {
        DecideFor(i, freshBest, env(i), w[i]);
        i := i + 1;
      }
    }

    lemma ElectedWon(w: seq<Option<Dataset>>)
      ensures var e := Elected(w, |w|);
        e.Some? ==> e.value.port < |w| && w[e.value.port] == Some(e.value.dataset)
    {
    }

    lemma ListOf(now: nat -> nat -> int, k: nat, i: nat)
      requires Offers(Lists(now), k, i)
      ensures k < |ports| && Lists(now)[k] == ports[k].Candidates(ports[k].foreign, now(k))
      ensures Lists(now)[k][i].value.receiver == ports[k].identity
    {
      assert Lists(now)[k][i] == ports[k].Candidate(ports[k].foreign[i], now(k)(i));
    }

    /** No two candidates of all ports came from one sender on one port. */
    lemma ListsDistinct(now: nat -> nat -> int)
      requires Valid()
      ensures AllListsDistinct(Lists(now))
    {
      hide KeptApart, AllForeign, Lists;
      var lists := Lists(now);
      forall k: nat, l: nat, i: nat, j: nat | Offers(lists, k, i) && Offers(lists, l, j) && (k != l || i != j)
        ensures lists[k][i].value.sender != lists[l][j].value.sender
          || lists[k][i].value.receiver.portNumber != lists[l][j].value.receiver.portNumber
      {
        ListOf(now, k, i);
        ListOf(now, l, j);
        if k == l {
          ports[k].CandidatesDistinct(now(k));
        }
      }
    }

    /** Where two candidates describe one grandmaster differently, the better description came the better way. */
    ghost predicate InHarmony(lists: seq<seq<Option<Dataset>>>) {
      forall k: nat, l: nat, i: nat, j: nat :: comparison.Ieee1588? && Offers(lists, k, i) && Offers(lists, l, j) ==>
        Harmonious(host, lists[k][i].value, lists[l][j].value)
    }

    /** Candidates in harmony are comparable: all of them came from other clocks. */
    lemma ListsComparable(now: nat -> nat -> int)
      requires Valid() && InHarmony(Lists(now))
      ensures AllListsComparable(comparison, host, Lists(now))
    {
      hide KeptApart, AllForeign, Harmonious;
      var lists := Lists(now);
      forall k: nat, i: nat | Offers(lists, k, i)
        ensures Travelled(lists[k][i].value)
      {
        ports[k].CandidatesTravelled(now(k), i);
      }
    }

    /** The elected master is a candidate of its port that beats every other candidate of every port. */
    ghost predicate BeatsAll(lists: seq<seq<Option<Dataset>>>)
      reads this`best
    {
      && best.Some?
      && exists i: nat ::
        Beats(comparison, host, lists, best.value.port, i) && lists[best.value.port][i].value == best.value.dataset
    }

    /** Whether some candidate beats every other. */
    ghost predicate SomeBeats(lists: seq<seq<Option<Dataset>>>) {
      exists k, i :: Beats(comparison, host, lists, k, i)
    }

    /** The elected master beats all others exactly if some candidate does. */
    lemma ElectedBeatsAll(lists: seq<seq<Option<Dataset>>>)
      requires var w := Winners(comparison, host, lists); best == Elected(w, |w|)
      ensures BeatsAll(lists) <==> SomeBeats(lists)
    {
      hide Cmp, Beats;
      NestedBeatsIff(comparison, host, lists);
    }

    /** In harmony, some candidate does, if there is any. */
    lemma HarmonyBeats(now: nat -> nat -> int)
      requires Valid() && InHarmony(Lists(now)) && exists k: nat, i: nat :: Offers(Lists(now), k, i)
      ensures SomeBeats(Lists(now))
    {
      hide Lists, AllListsComparable, AllListsDistinct, InHarmony, Beats, AllForeign, KeptApart;
      ListsDistinct(now);
      ListsComparable(now);
      ComparableBeats(comparison, host, Lists(now));
    }

    /** No candidate advertises smaller numbers than the elected master, in the order in which they are compared. */
    ghost predicate NoneAdvertisesLess(lists: seq<seq<Option<Dataset>>>)
      reads this`best
    {
      forall k: nat, i: nat :: Offers(lists, k, i) ==>
        && best.Some? && !Smaller(Advertised(comparison, lists[k][i].value), Advertised(comparison, best.value.dataset))
        && (comparison.G8275? ==> best.value.dataset.quality.clockClass <= lists[k][i].value.quality.clockClass)
    }

    lemma ElectedAdvertises(lists: seq<seq<Option<Dataset>>>)
      requires var w := Winners(comparison, host, lists); best == Elected(w, |w|)
      requires AllListsComparable(comparison, host, lists)
      ensures NoneAdvertisesLess(lists)
    {
      hide Cmp, Comparable, Smaller, Advertised;
      forall k: nat, i: nat | Offers(lists, k, i)
        ensures best.Some?
        ensures !Smaller(Advertised(comparison, lists[k][i].value), Advertised(comparison, best.value.dataset))
        ensures comparison.G8275? ==> best.value.dataset.quality.clockClass <= lists[k][i].value.quality.clockClass
      {
        NestedIsBest(comparison, host, lists, k, i);
        var b := NestedBest(comparison, host, lists).value;
        assert Offers(lists, b.0, b.1) && best.value.dataset == lists[b.0][b.1].value;
        NotOutdone(comparison, host, best.value.dataset, lists[k][i].value);
      }
    }

    /** A state decision: elect the best master, then recommend a state to every port.  Afterwards only the port of
        the elected master follows a master, and the clock's parent is that master if it outranks the clock.  The
        elected master beats every other candidate exactly if some candidate does; in harmony one does, if there is
        any, and none advertises less than the elected one. */
    method HandleStateDecision(now: nat -> nat -> int, env: nat -> DispatchEnv)
      requires Valid() && forall i :: 0 <= i < |ports| ==> !ports[i].noop
      modifies this`best, this`bestId, this`parent, this`stepsRemoved, this`decisions, ports
      ensures Valid() && Following() && decisions == old(decisions) + 1
      ensures var w := Winners(comparison, host, old(Lists(now)));
        && best == Elected(w, |w|)
        && forall i :: 0 <= i < |ports| ==>
          ports[i].state == Dispatched(ports[i].slaveOnly, old(ports[i].state), Sent(i, w[i], old(ports[i].state)),
                                       bestId != old(bestId), env(i))
      ensures BeatsAll(old(Lists(now))) <==> SomeBeats(old(Lists(now)))
      ensures InHarmony(old(Lists(now))) && (exists k: nat, i: nat :: Offers(old(Lists(now)), k, i)) ==>
                SomeBeats(old(Lists(now)))
      ensures InHarmony(old(Lists(now))) ==> NoneAdvertisesLess(old(Lists(now)))
      ensures Outranked() ==> ParentIsBest()
    {
      hide InHarmony, BeatsAll, SomeBeats, NoneAdvertisesLess, AllListsComparable, AllForeign, Offers;
      hide KeptApart, Lists, Winners, Dispatched, Sent, Elected, Outranked, ParentIsBest;
      ghost var lists := Lists(now);
      ghost var w := Winners(comparison, host, lists);
      if InHarmony(lists) && exists k: nat, i: nat :: Offers(lists, k, i) {
        HarmonyBeats(now);
      }
      if InHarmony(lists) {
        ListsComparable(now);
      }
      ghost var before := seq(|ports|, i requires 0 <= i < |ports| reads ports => ports[i].state);
      var elected := ElectBest(now);
      ElectedWon(w);
      var electedId := if elected.None? then identity else elected.value.dataset.identity;
      var freshBest := electedId != bestId;
      best, bestId, decisions := elected, electedId, decisions + 1;
      ElectedBeatsAll(lists);
      if InHarmony(lists) {
        ElectedAdvertises(lists);
      }
      DecideAll(freshBest, env, w, before);
      OthersDoNotFollow(w, before, freshBest, env);
    }

    /** Whether an input to port `i` calls for a state decision. */
    predicate Calls(i: nat, input: PortInput)
      requires i < |ports| && (ports[i].best.Some? ==> ports[i].best.value < |ports[i].foreign|)
      reads ports
    {
      match input
      case Signal(event, _) => event.StateDecision? || event.AnnounceReceiptTimeout?
      case Announced(m, now) => !ports[i].Own(m) && ports[i].Decides(m, now, maxStepsRemoved)
      case TimedOut(_) => true
    }

    /** Let port `i` handle an input.  Returns whether that calls for a state decision. */
    method HandleInput(i: nat, input: PortInput) returns (sde: bool)
      requires i < |ports| && ports[i].Valid() && NotRecommendation(input)
      modifies ports[i]
      ensures ports[i].Valid() && sde == old(Calls(i, input))
      ensures Tracking(ports[i].state) ==> old(Tracking(ports[i].state))
    {
      hide KeptApart, AllForeign, Dispatched, ForgetsOn, Port.Decides;
      var p := ports[i];
      ghost var s := p.state;
      match input {
        case Signal(event, env) =>
          p.Dispatch(event, false, env);
          if Tracking(p.state) { DispatchTracking(p.slaveOnly, s, event, false, env); }
          sde := event.StateDecision? || event.AnnounceReceiptTimeout?;
        case Announced(m, now) =>
          sde := p.Receive(m, now, maxStepsRemoved);
        case TimedOut(env) =>
          p.AnnounceTimeout(env);
          if Tracking(p.state) { DispatchTracking(p.slaveOnly, s, AnnounceReceiptTimeout, false, env); }
          sde := true;
      }
    }

    /** One iteration of the poll loop: the ports handle what arrived, then a state decision runs exactly if one was
        asked for, by an input -- `asked` tells which -- or otherwise.  Only a decision changes the elected master and
        the clock's parent. */
    method Poll(iteration: Iteration) returns (sde: bool, ghost asked: seq<bool>)
      requires Valid() && Following() && forall i :: 0 <= i < |ports| ==> !ports[i].noop
      requires forall k :: 0 <= k < |iteration.arrivals| ==>
        iteration.arrivals[k].port < |ports| && NotRecommendation(iteration.arrivals[k].input)
      modifies this`best, this`bestId, this`parent, this`stepsRemoved, this`decisions, ports
      ensures Valid() && Following()
      ensures |asked| == |iteration.arrivals| && (sde <==> iteration.requested || true in asked)
      ensures forall k :: 0 <= k < |asked| && !iteration.arrivals[k].input.Announced? ==>
        asked[k] == AlwaysCalls(iteration.arrivals[k].input)
      ensures decisions == old(decisions) + if sde then 1 else 0
      ensures !sde ==> best == old(best) && bestId == old(bestId)
      ensures !sde ==> parent == old(parent) && stepsRemoved == old(stepsRemoved)
    {
      hide Lists, Winners, Dispatched, Sent, Elected, KeptApart, AllForeign, BeatsAll, SomeBeats, InHarmony;
      sde, asked := iteration.requested, [];
      var k := 0;
      while k < |iteration.arrivals|
        modifies ports
        invariant k <= |iteration.arrivals| && Valid() && Following()
        invariant |asked| == k && (sde <==> iteration.requested || true in asked)
        invariant forall j :: 0 <= j < k && !iteration.arrivals[j].input.Announced? ==>
          asked[j] == AlwaysCalls(iteration.arrivals[j].input)
      {
        var calls := HandleInput(iteration.arrivals[k].port, iteration.arrivals[k].input);
        sde, asked := sde || calls, asked + [calls];
        k := k + 1;
      }
      if sde {
        HandleStateDecision(iteration.now, iteration.env);
      }
    }

    /** Over every run of the poll loop, at most one port follows a master, and it is the port on which the master
        elected last was heard. */
    method Run(iterations: seq<Iteration>)
      requires Valid() && Following() && forall i :: 0 <= i < |ports| ==> !ports[i].noop
      requires forall n, k :: 0 <= n < |iterations| && 0 <= k < |iterations[n].arrivals| ==>
        iterations[n].arrivals[k].port < |ports| && NotRecommendation(iterations[n].arrivals[k].input)
      modifies this`best, this`bestId, this`parent, this`stepsRemoved, this`decisions, ports
      ensures Valid() && Following()
      ensures forall i, j ::
        0 <= i < |ports| && 0 <= j < |ports| && Tracking(ports[i].state) && Tracking(ports[j].state) ==> i == j
    {
      var n := 0;
      while n < |iterations|
        invariant n <= |iterations| && Valid() && Following()
      {
        var _, _ := Poll(iterations[n]);
        n := n + 1;
      }
    }
  }
}
