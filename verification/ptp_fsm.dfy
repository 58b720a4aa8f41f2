/** The port state machines, and the update that runs them. */
module PtpFsm {

  datatype State =
    | Initializing | Faulty | Disabled | Listening | PreMaster | Master | Passive | Uncalibrated | Slave | GrandMaster

  datatype Event =
    | NoEvent | Powerup | Initialize | DesignatedEnabled | DesignatedDisabled | FaultCleared | FaultDetected
    | StateDecision | QualificationTimeout | AnnounceReceiptTimeout | SynchronizationFault | MasterClockSelected
    | InitComplete | RsMaster | RsGrandMaster | RsSlave | RsPassive

  /** The full machine. */
  function PtpFsm(state: State, event: Event, mdiff: bool): State {
    if event.Initialize? || event.Powerup? then Initializing else
    match state
    case Initializing =>
      (match event
       case FaultDetected => Faulty
       case InitComplete => Listening
       case _ => state)
    case Faulty =>
      (match event
       case DesignatedDisabled => Disabled
       case FaultCleared => Initializing
       case _ => state)
    case Disabled => if event.DesignatedEnabled? then Initializing else state
    case Listening =>
      (match event
       case DesignatedDisabled => Disabled
       case FaultDetected => Faulty
       case AnnounceReceiptTimeout => Master
       case RsMaster => PreMaster
       case RsGrandMaster => GrandMaster
       case RsSlave => Uncalibrated
       case RsPassive => Passive
       case _ => state)
    case PreMaster =>
      (match event
       case DesignatedDisabled => Disabled
       case FaultDetected => Faulty
       case QualificationTimeout => Master
       case RsSlave => Uncalibrated
       case RsPassive => Passive
       case _ => state)
    case Master =>
      (match event
       case DesignatedDisabled => Disabled
       case FaultDetected => Faulty
       case RsSlave => Uncalibrated
       case RsPassive => Passive
       case _ => state)
    case GrandMaster =>
      (match event
       case DesignatedDisabled => Disabled
       case FaultDetected => Faulty
       case RsSlave => Uncalibrated
       case RsPassive => Passive
       case _ => state)
    case Passive =>
      (match event
       case DesignatedDisabled => Disabled
       case FaultDetected => Faulty
       case AnnounceReceiptTimeout => Master
       case RsMaster => PreMaster
       case RsGrandMaster => GrandMaster
       case RsSlave => Uncalibrated
       case _ => state)
    case Uncalibrated =>
      (match event
       case DesignatedDisabled => Disabled
       case FaultDetected => Faulty
       case AnnounceReceiptTimeout => Master
       case MasterClockSelected => Slave
       case RsMaster => PreMaster
       case RsGrandMaster => GrandMaster
       case RsSlave => Uncalibrated
       case RsPassive => Passive
       case _ => state)
    case Slave =>
      (match event
       case DesignatedDisabled => Disabled
       case FaultDetected => Faulty
       case AnnounceReceiptTimeout => Master
       case SynchronizationFault => Uncalibrated
       case RsMaster => PreMaster
       case RsGrandMaster => GrandMaster
       case RsSlave => if mdiff then Uncalibrated else state
       case RsPassive => Passive
       case _ => state)
  }

  /** The states of a port that takes part. */
  predicate Active(s: State) {
    !s.Initializing? && !s.Faulty? && !s.Disabled?
  }

  /** The states of a port that is, or is about to be, a master. */
  predicate Mastering(s: State) {
    s.PreMaster? || s.Master? || s.GrandMaster?
  }

  /** The full machine, event by event: which states an event moves, and where to. */
  function Moves(event: Event, s: State, mdiff: bool): State {
    match event
    case Powerup | Initialize => Initializing
    case InitComplete => if s.Initializing? then Listening else s
    case FaultDetected => if Active(s) || s.Initializing? then Faulty else s
    case FaultCleared => if s.Faulty? then Initializing else s
    case DesignatedDisabled => if Active(s) || s.Faulty? then Disabled else s
    case DesignatedEnabled => if s.Disabled? then Initializing else s
    case QualificationTimeout => if s.PreMaster? then Master else s
    case AnnounceReceiptTimeout => if Active(s) && !Mastering(s) then Master else s
    case SynchronizationFault => if s.Slave? then Uncalibrated else s
    case MasterClockSelected => if s.Uncalibrated? then Slave else s
    case RsMaster => if Active(s) && !Mastering(s) then PreMaster else s
    case RsGrandMaster => if Active(s) && !Mastering(s) then GrandMaster else s
    case RsSlave => if Active(s) && (s.Slave? ==> mdiff) then Uncalibrated else s
    case RsPassive => if Active(s) then Passive else s
    case NoEvent | StateDecision => s
  }

  /** The machine, given state by state, makes exactly these moves. */
  lemma MachineMoves(s: State, event: Event, mdiff: bool)
    ensures PtpFsm(s, event, mdiff) == Moves(event, s, mdiff)
  {
    match s
    case Initializing =>
    case Faulty =>
    case Disabled =>
    case Listening =>
    case PreMaster =>
    case Master =>
    case GrandMaster =>
    case Passive =>
    case Uncalibrated =>
    case Slave =>
  }

  /** The machine of a slave-only clock. */
  function PtpSlaveFsm(state: State, event: Event, mdiff: bool): State {
    if event.Initialize? || event.Powerup? then Initializing else
    match state
    case Initializing =>
      (match event
       case FaultDetected => Faulty
       case InitComplete => Listening
       case _ => state)
    case Faulty =>
      (match event
       case DesignatedDisabled => Disabled
       case FaultCleared => Initializing
       case _ => state)
    case Disabled => if event.DesignatedEnabled? then Initializing else state
    case Listening =>
      (match event
       case DesignatedDisabled => Disabled
       case FaultDetected => Faulty
       case AnnounceReceiptTimeout => Listening
       case RsMaster => Listening
       case RsGrandMaster => Listening
       case RsPassive => Listening
       case RsSlave => Uncalibrated
       case _ => state)
    case Uncalibrated =>
      (match event
       case DesignatedDisabled => Disabled
       case FaultDetected => Faulty
       case AnnounceReceiptTimeout => Listening
       case RsMaster => Listening
       case RsGrandMaster => Listening
       case RsPassive => Listening
       case MasterClockSelected => Slave
       case _ => state)
    case Slave =>
      (match event
       case DesignatedDisabled => Disabled
       case FaultDetected => Faulty
       case AnnounceReceiptTimeout => Listening
       case RsMaster => Listening
       case RsGrandMaster => Listening
       case RsPassive => Listening
       case SynchronizationFault => Uncalibrated
       case RsSlave => if mdiff then Uncalibrated else state
       case _ => state)
    case _ => state
  }

  function Machine(slaveOnly: bool, state: State, event: Event, mdiff: bool): State {
    if slaveOnly then PtpSlaveFsm(state, event, mdiff) else PtpFsm(state, event, mdiff)
  }

  /** What the surroundings decide during an update: whether a fault of this type is cleared at once,
      and whether initializing the port succeeds. */
  datatype Surroundings = Surroundings(clearFaultAsap: bool, initOk: bool)

  /** The machine's answer, once a fault that may be cleared at once is cleared. */
  function Answer(slaveOnly: bool, state: State, event: Event, mdiff: bool, env: Surroundings): State {
    var next := Machine(slaveOnly, state, event, mdiff);
    if next.Faulty? && env.clearFaultAsap then Machine(slaveOnly, next, FaultCleared, false) else next
  }

  /** One update of a port's state: a port told to initialize does so immediately. */
  function StateUpdate(slaveOnly: bool, state: State, event: Event, mdiff: bool, env: Surroundings): State {
    var next := Answer(slaveOnly, state, event, mdiff, env);
    if next.Initializing? then Machine(slaveOnly, next, if env.initOk then InitComplete else FaultDetected, false)
    else next
  }

  /** Whether an update makes a port forget its foreign masters: it initializes, or it begins to be faulty or
      disabled. */
  predicate Forgets(slaveOnly: bool, state: State, event: Event, mdiff: bool, env: Surroundings) {
    var next := StateUpdate(slaveOnly, state, event, mdiff, env);
    Answer(slaveOnly, state, event, mdiff, env).Initializing? || (next != state && (next.Faulty? || next.Disabled?))
  }

  datatype Input = Input(event: Event, mdiff: bool, env: Surroundings)

  /** The state after a whole sequence of updates. */
  function RunUpdates(slaveOnly: bool, state: State, inputs: seq<Input>): State {
    if inputs == [] then state
    else
      var i := inputs[|inputs| - 1];
      StateUpdate(slaveOnly, RunUpdates(slaveOnly, state, inputs[..|inputs| - 1]), i.event, i.mdiff, i.env)
  }

  /** What a slave-only port is in when a full port is in `s`. */
  function Collapse(s: State): State {
    if s.PreMaster? || s.Master? || s.GrandMaster? || s.Passive? then Listening else s
  }

  lemma CollapseMachine(s: State, event: Event, mdiff: bool)
    ensures Machine(true, Collapse(s), event, mdiff) == Collapse(Machine(false, s, event, mdiff))
  {
  }

  lemma CollapseAnswer(s: State, event: Event, mdiff: bool, env: Surroundings)
    ensures Answer(true, Collapse(s), event, mdiff, env) == Collapse(Answer(false, s, event, mdiff, env))
  {
    hide Machine;
    CollapseMachine(s, event, mdiff);
    CollapseMachine(Machine(false, s, event, mdiff), FaultCleared, false);
  }

  lemma CollapseStep(s: State, event: Event, mdiff: bool, env: Surroundings)
    ensures StateUpdate(true, Collapse(s), event, mdiff, env) == Collapse(StateUpdate(false, s, event, mdiff, env))
  {
    hide Machine, Answer;
    CollapseAnswer(s, event, mdiff, env);
    CollapseMachine(Answer(false, s, event, mdiff, env), if env.initOk then InitComplete else FaultDetected, false);
  }

  /** The slave-only machine is the full machine with the master and passive states collapsed to Listening. */
  lemma {:induction false} SlaveMachineCollapses(s: State, inputs: seq<Input>)
    ensures RunUpdates(true, Collapse(s), inputs) == Collapse(RunUpdates(false, s, inputs))
  {
    if inputs != [] {
      var i := inputs[|inputs| - 1];
      SlaveMachineCollapses(s, inputs[..|inputs| - 1]);
      CollapseStep(RunUpdates(false, s, inputs[..|inputs| - 1]), i.event, i.mdiff, i.env);
    }
  }

  /** A slave-only port never becomes a master or passive, and between updates no port is initializing. */
  lemma {:induction false} SlaveOnlyStates(inputs: seq<Input>)
    ensures var s := RunUpdates(true, Initializing, inputs);
      s in {Initializing, Faulty, Disabled, Listening, Uncalibrated, Slave}
    ensures inputs != [] ==> RunUpdates(true, Initializing, inputs) != Initializing
  {
    SlaveMachineCollapses(Initializing, inputs);
    if inputs != [] {
      var i := inputs[|inputs| - 1];
      SlaveOnlyStates(inputs[..|inputs| - 1]);
      var before := RunUpdates(true, Initializing, inputs[..|inputs| - 1]);
      assert RunUpdates(true, Initializing, inputs) == StateUpdate(true, before, i.event, i.mdiff, i.env);
    }
  }

  /** The states in which a port follows a master. */
  predicate Tracking(s: State) {
    s.Uncalibrated? || s.Slave?
  }

  /** A port starts to follow a master only on a recommendation to become a slave. */
  lemma TrackingNeedsRsSlave(slaveOnly: bool, s: State, event: Event, mdiff: bool, env: Surroundings)
    requires Tracking(StateUpdate(slaveOnly, s, event, mdiff, env))
    ensures event.RsSlave? || Tracking(s)
  {
  }

  /** Any other recommendation makes a port stop following its master. */
  lemma OtherRecommendationsStop(slaveOnly: bool, s: State, event: Event, mdiff: bool, env: Surroundings)
    requires event.RsMaster? || event.RsGrandMaster? || event.RsPassive?
    ensures !Tracking(StateUpdate(slaveOnly, s, event, mdiff, env))
  {
  }

  /** What the surroundings decide when an event is dispatched: the update itself, whether a port that has just
      begun to calibrate fails to switch to its hardware clock, and the update for that fault. */
  datatype DispatchEnv = DispatchEnv(update: Surroundings, switchFails: bool, fault: Surroundings)

  /** The state of a port after an event is dispatched to it. */
  function Dispatched(slaveOnly: bool, state: State, event: Event, mdiff: bool, env: DispatchEnv): State {
    var next := StateUpdate(slaveOnly, state, event, mdiff, env.update);
    if next != state && next.Uncalibrated? && env.switchFails then
      StateUpdate(slaveOnly, next, FaultDetected, false, env.fault)
    else next
  }

  /** Whether dispatching an event makes a port forget its foreign masters. */
  predicate ForgetsOn(slaveOnly: bool, state: State, event: Event, mdiff: bool, env: DispatchEnv) {
    var next := StateUpdate(slaveOnly, state, event, mdiff, env.update);
    || Forgets(slaveOnly, state, event, mdiff, env.update)
    || (next != state && next.Uncalibrated? && env.switchFails
        && Forgets(slaveOnly, next, FaultDetected, false, env.fault))
  }

  lemma DispatchTracking(slaveOnly: bool, s: State, event: Event, mdiff: bool, env: DispatchEnv)
    requires Tracking(Dispatched(slaveOnly, s, event, mdiff, env))
    ensures event.RsSlave? || (Tracking(s) && !event.RsMaster? && !event.RsGrandMaster? && !event.RsPassive?)
  {
    hide StateUpdate;
    var next := StateUpdate(slaveOnly, s, event, mdiff, env.update);
    if next != s && next.Uncalibrated? && env.switchFails {
      TrackingNeedsRsSlave(slaveOnly, next, FaultDetected, false, env.fault);
    }
    TrackingNeedsRsSlave(slaveOnly, s, event, mdiff, env.update);
    if event.RsMaster? || event.RsGrandMaster? || event.RsPassive? {
      OtherRecommendationsStop(slaveOnly, s, event, mdiff, env.update);
    }
  }

  /** Where a recommendation, other than to be a slave, takes a port that takes part. */
  lemma AfterRecommendation(s: State, event: Event, mdiff: bool, env: DispatchEnv)
    requires Active(s)
    ensures event.RsPassive? ==> Dispatched(false, s, event, mdiff, env) == Passive
    ensures event.RsMaster? ==> Dispatched(false, s, event, mdiff, env) == if Mastering(s) then s else PreMaster
    ensures event.RsGrandMaster? ==> Dispatched(false, s, event, mdiff, env) == if Mastering(s) then s else GrandMaster
  {
    hide PtpFsm;
    MachineMoves(s, event, mdiff);
  }

  /** A port that is told to be a master waits: it becomes one only when its qualification time runs out, or when
      it has heard no announcement for too long. */
  lemma BecomesMaster(slaveOnly: bool, s: State, event: Event, mdiff: bool, env: DispatchEnv)
    requires !s.Master? && Dispatched(slaveOnly, s, event, mdiff, env) == Master
    ensures !slaveOnly && if s.PreMaster? then event.QualificationTimeout?
                          else event.AnnounceReceiptTimeout? && s in {Listening, Passive, Uncalibrated, Slave}
  {
    hide PtpFsm, PtpSlaveFsm;
    BecomesMasterBy(slaveOnly, s, event, mdiff, env.update);
    var next := StateUpdate(slaveOnly, s, event, mdiff, env.update);
    if next != s && next.Uncalibrated? && env.switchFails {
      BecomesMasterBy(slaveOnly, next, FaultDetected, false, env.fault);
    }
  }

  lemma BecomesMasterBy(slaveOnly: bool, s: State, event: Event, mdiff: bool, env: Surroundings)
    requires !s.Master?
    ensures StateUpdate(slaveOnly, s, event, mdiff, env) == Master ==>
      !slaveOnly && if s.PreMaster? then event.QualificationTimeout?
                    else event.AnnounceReceiptTimeout? && s in {Listening, Passive, Uncalibrated, Slave}
  {
    hide Machine;
    MachineMasters(slaveOnly, s, event, mdiff);
    MachineMasters(slaveOnly, Faulty, FaultCleared, false);
    MachineMasters(slaveOnly, Initializing, InitComplete, false);
    MachineMasters(slaveOnly, Initializing, FaultDetected, false);
  }

  lemma MachineMasters(slaveOnly: bool, s: State, event: Event, mdiff: bool)
    requires !s.Master?
    ensures Machine(slaveOnly, s, event, mdiff) == Master ==>
      !slaveOnly && if s.PreMaster? then event.QualificationTimeout?
                    else event.AnnounceReceiptTimeout? && s in {Listening, Passive, Uncalibrated, Slave}
  {
    hide PtpFsm;
    MachineMoves(s, event, mdiff);
  }
}
