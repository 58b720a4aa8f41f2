/** The proportional-integral clock servo.  Frequencies are reals: rounding is not modelled. */
module ServoPi {

  datatype Lock = Unlocked | Jump | Locked

  function Abs(x: int): nat {
    if x < 0 then -x else x
  }

  function Clamp(x: real, max: real): real {
    if x < -max then -max else if x > max then max else x
  }

  predicate Within(x: real, max: real) {
    -max <= x <= max
  }

  const FREQ_EST_MARGIN := 0.001

  /** How long to wait before the frequency is estimated.  Without an integral gain the quotient has no bound. */
  function EstimateInterval(ki: real): real {
    if ki == 0.0 || 0.016 / ki > 1000.0 then 1000.0 else 0.016 / ki
  }

  /** The answer and the new drift of a servo that follows its clock: the drift takes in the integral term only when the
      answer was not clamped. */
  function Follow(kp: real, ki: real, max: real, drift: real, offset: int, weight: real): (real, real) {
    var term := ki * (offset as real) * weight;
    var ppb := kp * (offset as real) * weight + drift + term;
    (Clamp(ppb, max), if ppb < -max || ppb > max then drift else drift + term)
  }

  /** Terms with gains that are not negative pull the same way, so the new drift is between the old one and the
      answer. */
  lemma FollowStays(kp: real, ki: real, max: real, drift: real, offset: int, weight: real)
    requires kp >= 0.0 && ki >= 0.0 && weight >= 0.0 && Within(drift, max)
    ensures Within(Follow(kp, ki, max, drift, offset, weight).0, max)
    ensures Within(Follow(kp, ki, max, drift, offset, weight).1, max)
  {
    SameSign(kp, offset as real, weight);
    SameSign(ki, offset as real, weight);
  }

  /** The answer pulls the way of the offset, and the new drift lies between the old one and the answer.  Where the
      answer is within the bounds it is the new drift and the proportional term, and the new drift is the old one and
      the integral term. */
  lemma FollowPulls(kp: real, ki: real, max: real, drift: real, offset: int, weight: real)
    requires kp >= 0.0 && ki >= 0.0 && weight >= 0.0 && Within(drift, max)
    ensures var (ppb, next) := Follow(kp, ki, max, drift, offset, weight);
            && (offset >= 0 ==> drift <= next <= ppb) && (offset <= 0 ==> ppb <= next <= drift)
            && (-max < ppb < max ==> next - drift == ki * offset as real * weight)
            && (-max < ppb < max ==> ppb - next == kp * offset as real * weight)
  {
    SameSign(kp, offset as real, weight);
    SameSign(ki, offset as real, weight);
  }

  lemma SameSign(k: real, x: real, w: real)
    requires k >= 0.0 && w >= 0.0
    ensures x >= 0.0 ==> k * x * w >= 0.0
    ensures x <= 0.0 ==> k * x * w <= 0.0
  {
    var kw := k * w;
    assert k * x * w == kw * x;
  }

  datatype Event = Sample(offset: int, local: nat, weight: real) | Reset | Gains(kp: real, ki: real)

  class PiServo {
    const maxFrequency: real
    const stepThreshold: nat
    const firstStepThreshold: nat
    var firstUpdate: bool
    var count: nat
    var offset0: int
    var local0: nat
    var drift: real
    var kp: real
    var ki: real
    var lastFreq: real

    constructor (fadj: real, maxFrequency: real, stepThreshold: nat, firstStepThreshold: nat)
      requires Within(fadj, maxFrequency)
      ensures this.maxFrequency == maxFrequency && Valid() && drift == lastFreq == fadj && count == 0
    {
      this.maxFrequency, this.stepThreshold, this.firstStepThreshold := maxFrequency, stepThreshold, firstStepThreshold;
      firstUpdate, count, offset0, local0 := true, 0, 0, 0;
      drift, lastFreq, kp, ki := fadj, fadj, 0.0, 0.0;
    }

    ghost predicate Valid()
      reads this
    {
      && maxFrequency >= 0.0 && count <= 2 && kp >= 0.0 && ki >= 0.0
      && Within(drift, maxFrequency) && Within(lastFreq, maxFrequency)
    }

    method Reset()
      requires Valid()
      modifies `count
      ensures Valid() && count == 0
    {
      count := 0;
    }

    method SetGains(kp: real, ki: real)
      requires Valid() && kp >= 0.0 && ki >= 0.0
      modifies `kp, `ki
      ensures Valid() && this.kp == kp && this.ki == ki
    {
      this.kp, this.ki := kp, ki;
    }

    /** Whether an offset is to be stepped over. */
    predicate Steps(offset: int)
      reads `firstUpdate
    {
      || (firstUpdate && firstStepThreshold != 0 && firstStepThreshold < Abs(offset))
      || (stepThreshold != 0 && stepThreshold < Abs(offset))
    }

    /** An offset is stepped over exactly if it lies outside the step threshold, or at the first update outside the
        first step threshold.  A threshold of zero does not count. */
    lemma StepsIff(offset: int)
      ensures Steps(offset) <==>
        || (stepThreshold > 0 && !(offset <= stepThreshold && -offset <= stepThreshold))
        || (firstUpdate && firstStepThreshold > 0 && !(offset <= firstStepThreshold && -offset <= firstStepThreshold))
    {
    }

    /** Takes in an offset, and answers the frequency adjustment. */
    method Sample(offset: int, local: nat, weight: real) returns (ppb: real, state: Lock)
      requires Valid() && weight >= 0.0
      modifies `count, `offset0, `local0, `drift, `lastFreq
      ensures Valid() && ppb == lastFreq && Within(ppb, maxFrequency)
      ensures old(count) == 0 ==>
                && count == 1 && state == Unlocked && ppb == old(lastFreq) && drift == old(drift)
                && offset0 == offset && local0 == local
      ensures old(count) == 1 ==>
                && (count == 0 <==> old(local0) >= local)
                && (count == 2 <==> old(local0) < local && !TooSoon(old(local0), local))
                && (count != 2 ==> state == Unlocked && ppb == old(lastFreq) && drift == old(drift))
                && (count == 2 ==>
                      && ppb == drift && state == (if Steps(offset) then Jump else Locked)
                      && drift == Clamp(Estimate(old(drift), old(offset0), offset, old(local0), local), maxFrequency))
      ensures old(count) == 2 ==>
                if stepThreshold != 0 && stepThreshold < Abs(offset)
                then count == 0 && state == Unlocked && ppb == old(lastFreq) && drift == old(drift)
                else count == 2 && state == Locked
                     && (ppb, drift) == Follow(kp, ki, maxFrequency, old(drift), offset, weight)
    {
      hide Estimate, TooSoon, Follow;
      ppb, state := lastFreq, Unlocked;
      if count == 0 {
        offset0, local0, count := offset, local, 1;
      } else if count == 1 {
        if local0 >= local {
          count := 0;
        } else if !TooSoon(local0, local) {
          drift := Estimate(drift, offset0, offset, local0, local);
          if drift < -maxFrequency {
            drift := -maxFrequency;
          } else if drift > maxFrequency {
            drift := maxFrequency;
          }
          state := if Steps(offset) then Jump else Locked;
          ppb, count := drift, 2;
        }
      } else if stepThreshold != 0 && stepThreshold < Abs(offset) {
        count := 0;
      } else {
        ppb := Adjust(offset, weight);
        state := Locked;
      }
      lastFreq := ppb;
    }

    /** The answer of a servo that follows its clock. */
    method Adjust(offset: int, weight: real) returns (ppb: real)
      requires Valid() && weight >= 0.0
      modifies `drift
      ensures (ppb, drift) == Follow(kp, ki, maxFrequency, old(drift), offset, weight)
      ensures Valid() && Within(ppb, maxFrequency)
    {
      FollowStays(kp, ki, maxFrequency, drift, offset, weight);
      var term := ki * (offset as real) * weight;
      ppb := kp * (offset as real) * weight + drift + term;
      if ppb < -maxFrequency {
        ppb := -maxFrequency;
      } else if ppb > maxFrequency {
        ppb := maxFrequency;
      } else {
        drift := drift + term;
      }
    }

    /** Whether two samples are too close for an estimate of the frequency. */
    predicate TooSoon(first: nat, second: nat)
      reads `ki
    {
      var diff := ((second - first) as real) / 1000000000.0;
      diff + diff * FREQ_EST_MARGIN < EstimateInterval(ki)
    }

    /** Over any run of samples, resets and changes of the gains, every answer is within the bounds. */
    method Run(events: seq<Event>) returns (answers: seq<real>)
      requires Valid()
      requires forall i :: 0 <= i < |events| ==> Plausible(events[i])
      modifies this
      ensures Valid() && forall i :: 0 <= i < |answers| ==> Within(answers[i], maxFrequency)
    {
      answers := [];
      for i := 0 to |events|
        invariant Valid() && forall j :: 0 <= j < |answers| ==> Within(answers[j], maxFrequency)
      {
        match events[i]
        case Sample(offset, local, weight) =>
          var ppb, _ := Sample(offset, local, weight);
          answers := answers + [ppb];
        case Reset =>
          Reset();
        case Gains(p, q) =>
          SetGains(p, q);
      }
    }
  }

  predicate Plausible(e: Event) {
    match e
    case Sample(_, _, weight) => weight >= 0.0
    case Reset => true
    case Gains(p, q) => p >= 0.0 && q >= 0.0
  }

  /** The drift adjusted by the frequency offset measured between two samples. */
  function Estimate(drift: real, offset0: int, offset1: int, local0: nat, local1: nat): real
    requires local0 < local1
  {
    drift + (1000000000.0 - drift) * ((offset1 - offset0) as real) / ((local1 - local0) as real)
  }

  lemma Product(a: real, b: real, c: real)
    ensures a * (b - c) == a * b - a * c && (b - c) * a == b * a - c * a
  {
  }

  lemma Cancel(a: real, x: real, y: real)
    requires a != 0.0 && a * x == a * y
    ensures x == y
  {
    assert a * (x - y) == 0.0;
  }

  /** The estimate is exact.  Let the clock, left alone, advance by `free` between two samples.  Slowed down by the
      drift it advanced as the samples say.  Slowed down by the estimate it would have advanced just as far as the
      reference, which is less by the growth of the offset. */
  lemma EstimateIsExact(drift: real, offset0: int, offset1: int, local0: nat, local1: nat, free: real)
    requires local0 < local1 && free * (1000000000.0 - drift) == ((local1 - local0) as real) * 1000000000.0
    ensures free * (1000000000.0 - Estimate(drift, offset0, offset1, local0, local1))
         == ((local1 - local0) as real - (offset1 - offset0) as real) * 1000000000.0
  {
    var d, l, m := (offset1 - offset0) as real, (local1 - local0) as real, 1000000000.0 - drift;
    var q := m * d / l;
    assert q * l == m * d;
    Product(free, m, q);
    assert l * (free * q) == free * (q * l) == free * (m * d) == (free * m) * d;
    assert l * (free * (m - q)) == l * (free * m) - l * (free * q) by { Product(l, free * m, free * q); }
    assert (free * m) * d == l * (d * 1000000000.0);
    Product(l, l * 1000000000.0, d * 1000000000.0);
    Product(1000000000.0, l, d);
    Cancel(l, free * (m - q), (l - d) * 1000000000.0);
  }

  /** When two samples, `seconds` apart, are far enough apart: a thousand seconds always are, and less is by the
      integral gain.  A margin of a thousandth is granted. */
  lemma FarEnough(s: PiServo, first: nat, second: nat, seconds: real)
    requires s.ki >= 0.0 && seconds == ((second - first) as real) / 1000000000.0
    ensures s.TooSoon(first, second) <==> Times(seconds, 1.001) < 1000.0 && Times(Times(seconds, 1.001), s.ki) < 0.016
  {
    assert s.TooSoon(first, second) <==> Times(seconds, 1.001) < EstimateInterval(s.ki);
    hide Times;
    Shorter(s.ki, Times(seconds, 1.001));
  }

  function Times(a: real, b: real): real {
    a * b
  }

  lemma Shorter(ki: real, t: real)
    requires ki >= 0.0
    ensures t < EstimateInterval(ki) <==> t < 1000.0 && Times(t, ki) < 0.016
  {
    if ki > 0.0 {
      Quotients(0.016, ki, t);
    }
  }

  lemma Quotients(a: real, b: real, t: real)
    requires b > 0.0
    ensures t < a / b <==> t * b < a
    ensures t == a / b <==> t * b == a
  {
    var q := a / b;
    assert q * b == a;
    assert (q - t) * b == a - t * b;
    if q > t {
      assert (q - t) * b > 0.0;
    } else if q < t {
      assert (t - q) * b > 0.0;
    }
  }
}
