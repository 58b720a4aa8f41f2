/** Statistics of a series of values, kept in one pass.  Values are reals: rounding is not modelled. */
module Statistics {
  import opened Options

  datatype Result = Result(min: real, max: real, maxAbs: real, mean: real, rms: real, stddev: real)

  function Sum(s: seq<real>): real {
    if s == [] then 0.0 else Sum(s[..|s| - 1]) + s[|s| - 1]
  }

  function Mean(s: seq<real>): real
    requires s != []
  {
    Sum(s) / (|s| as real)
  }

  function SumOfSquares(s: seq<real>): real {
    if s == [] then 0.0 else SumOfSquares(s[..|s| - 1]) + s[|s| - 1] * s[|s| - 1]
  }

  /** The squared deviations of the values from `m`. */
  function Deviations(s: seq<real>, m: real): real {
    if s == [] then 0.0 else Deviations(s[..|s| - 1], m) + (s[|s| - 1] - m) * (s[|s| - 1] - m)
  }

  /** Deviations from `m`, multiplied out. */
  lemma {:induction false} DeviationsAre(s: seq<real>, m: real)
    ensures Deviations(s, m) == SumOfSquares(s) - 2.0 * m * Sum(s) + (|s| as real) * m * m
  {
    if s != [] {
      var x, t := s[|s| - 1], s[..|s| - 1];
      DeviationsAre(t, m);
      Expand(x, m, Sum(t), |t| as real);
      assert |s| as real == |t| as real + 1.0;
    }
  }

  lemma Expand(x: real, m: real, sum: real, n: real)
    ensures (x - m) * (x - m) == x * x - 2.0 * m * x + m * m
    ensures 2.0 * m * (sum + x) == 2.0 * m * sum + 2.0 * m * x
    ensures (n + 1.0) * m * m == n * m * m + m * m
  {
  }

  /** The mean `m` of `n` values, moved by one more value `x`. */
  lemma NewMean(n: real, m: real, x: real)
    requires n >= 0.0
    ensures var m' := m + (x - m) / (n + 1.0);
            (n + 1.0) * m' == n * m + x
  {
    var q := (x - m) / (n + 1.0);
    assert (n + 1.0) * q == x - m;
    assert (n + 1.0) * (m + q) == (n + 1.0) * m + (n + 1.0) * q;
  }

  lemma MeanIs(s: seq<real>, m: real)
    requires s != [] && (|s| as real) * m == Sum(s)
    ensures m == Mean(s)
  {
  }

  lemma MeanTimes(s: seq<real>)
    ensures Sum([]) == Deviations([], 0.0) == 0.0
    ensures s != [] ==> (|s| as real) * Mean(s) == Sum(s)
  {
  }

  /** What the squared deviations gain when the mean moves. */
  lemma Gain(n: real, n1: real, m: real, x: real, m': real)
    requires n1 == n + 1.0 && n1 * m' == n * m + x
    ensures (x - m) * (x - m') == x * x - n1 * m' * m' + n * m * m
  {
    var nm := n * m;
    assert n1 * m' * m' == (nm + x) * m';
    assert (nm + x) * m' == nm * m' + x * m';
    assert m * (n1 * m') == m * (nm + x);
    assert m * (n1 * m') == nm * m' + m * m';
    assert m * (nm + x) == nm * m + m * x;
    assert (x - m) * (x - m') == x * x - x * m' - m * x + m * m';
  }

  /** If `m` is the mean, the squared deviations from it are the squares less `n` times its square. */
  lemma DeviationsFromMean(s: seq<real>, m: real)
    requires (|s| as real) * m == Sum(s)
    ensures Deviations(s, m) == SumOfSquares(s) - (|s| as real) * m * m
  {
    DeviationsAre(s, m);
    assert 2.0 * m * Sum(s) == 2.0 * ((|s| as real) * m * m);
  }

  lemma SumsMove(s: seq<real>, x: real)
    ensures Sum(s + [x]) == Sum(s) + x && SumOfSquares(s + [x]) == SumOfSquares(s) + x * x
    ensures |s + [x]| as real == |s| as real + 1.0
  {
    assert (s + [x])[..|s|] == s;
  }

  lemma DeviationsMove(s: seq<real>, m: real, x: real, m': real)
    requires (|s| as real) * m == Sum(s) && (|s| as real + 1.0) * m' == (|s| as real) * m + x
    ensures (|s + [x]| as real) * m' == Sum(s + [x])
    ensures Deviations(s + [x], m') == Deviations(s, m) + (x - m) * (x - m')
  {
    hide Deviations, Sum, SumOfSquares;
    var t := s + [x];
    var n, n1 := |s| as real, |t| as real;
    SumsMove(s, x);
    assert n1 * m' == Sum(t);
    DeviationsFromMean(s, m);
    DeviationsFromMean(t, m');
    Gain(n, n1, m, x, m');
  }

  /** Whether two numbers bound some values, and are among them. */
  ghost predicate Bounds(s: seq<real>, min: real, max: real) {
    min in s && max in s && forall v :: v in s ==> min <= v <= max
  }

  lemma BoundsMove(s: seq<real>, min: real, max: real, x: real)
    requires s != [] ==> Bounds(s, min, max)
    ensures Bounds(s + [x], if s == [] || min > x then x else min, if s == [] || max < x then x else max)
  {
    assert x in s + [x];
  }

  /** The running figures are those of the values. */
  ghost predicate Tally(s: seq<real>, mean: real, sumSqr: real, sumDiffSqr: real) {
    && sumSqr == SumOfSquares(s)
    && (if s == [] then mean == 0.0 && sumDiffSqr == 0.0 else mean == Mean(s) && sumDiffSqr == Deviations(s, mean))
  }

  lemma TallyMoves(s: seq<real>, mean: real, sumSqr: real, sumDiffSqr: real, x: real, num: nat, mean': real, gain: real)
    requires Tally(s, mean, sumSqr, sumDiffSqr) && num == |s| + 1
    requires mean' == mean + (x - mean) / (num as real) && gain == (x - mean) * (x - mean')
    ensures Tally(s + [x], mean', sumSqr + x * x, sumDiffSqr + gain)
  {
    hide Mean, Deviations, Sum, SumOfSquares;
    var n := |s| as real;
    assert num as real == n + 1.0;
    MeanTimes(s);
    NewMean(n, mean, x);
    SumsMove(s, x);
    DeviationsMove(s, mean, x, mean');
    MeanIs(s + [x], mean');
  }

  class Stats {
    var num: nat
    var min: real
    var max: real
    var mean: real
    var sumSqr: real
    var sumDiffSqr: real
    /** The values so far. */
    ghost var values: seq<real>

    constructor ()
      ensures Valid() && values == []
    {
      num, min, max, mean, sumSqr, sumDiffSqr, values := 0, 0.0, 0.0, 0.0, 0.0, 0.0, [];
    }

    ghost predicate Valid()
      reads this
    {
      && num == |values| && Tally(values, mean, sumSqr, sumDiffSqr)
      && (num > 0 ==> Bounds(values, min, max))
    }

    method Reset()
      modifies this
      ensures Valid() && values == []
    {
      num, min, max, mean, sumSqr, sumDiffSqr, values := 0, 0.0, 0.0, 0.0, 0.0, 0.0, [];
    }

    /** Takes in a value.  The mean, the squares, the squared deviations from the new mean and the bounds are those of
        all values so far. */
    method AddValue(value: real)
      requires Valid()
      modifies this
      ensures Valid() && values == old(values) + [value]
    {
      hide Tally, Bounds;
      BoundsMove(values, min, max, value);
      var oldMean := mean;
      if num == 0 || max < value {
        max := value;
      }
      if num == 0 || min > value {
        min := value;
      }
      num := num + 1;
      mean := oldMean + (value - oldMean) / (num as real);
      var gain := (value - oldMean) * (value - mean);
      TallyMoves(values, oldMean, sumSqr, sumDiffSqr, value, num, mean, gain);
      sumSqr := sumSqr + value * value;
      sumDiffSqr := sumDiffSqr + gain;
      values := values + [value];
    }

    /** The bounds, the largest absolute value, the mean, the root mean square and the standard deviation, if there are
        values. */
    method GetResult(sqrt: real -> real) returns (r: Option<Result>)
      requires Valid() && IsRoot(sqrt)
      ensures r.None? <==> values == []
      ensures r.Some? ==>
                && (forall v :: v in values ==>
                      r.value.min <= v <= r.value.max && -r.value.maxAbs <= v <= r.value.maxAbs)
                && r.value.min in values && r.value.max in values
                && (r.value.maxAbs in values || -r.value.maxAbs in values)
                && r.value.mean == Mean(values)
                && RootOf(r.value.rms, SumOfSquares(values) / (|values| as real))
                && RootOf(r.value.stddev, Deviations(values, Mean(values)) / (|values| as real))
    {
      hide RootOf;
      if num == 0 {
        return None;
      }
      var n := num as real;
      SquaresPositive(values, mean);
      NotNegative(sumSqr, n);
      NotNegative(sumDiffSqr, n);
      RootTaken(sqrt, sumSqr / n);
      RootTaken(sqrt, sumDiffSqr / n);
      r := Some(Result(min, max, if max > -min then max else -min, mean, sqrt(sumSqr / n), sqrt(sumDiffSqr / n)));
    }
  }

  predicate RootOf(r: real, x: real) {
    r >= 0.0 && r * r == x
  }

  /** `sqrt` takes square roots. */
  ghost predicate IsRoot(sqrt: real -> real) {
    forall x :: x >= 0.0 ==> RootOf(sqrt(x), x)
  }

  lemma RootTaken(sqrt: real -> real, x: real)
    requires IsRoot(sqrt) && x >= 0.0
    ensures RootOf(sqrt(x), x)
  {
  }

  lemma NotNegative(x: real, n: real)
    requires x >= 0.0 && n > 0.0
    ensures x / n >= 0.0
  {
  }

  lemma {:induction false} SquaresPositive(s: seq<real>, m: real)
    ensures SumOfSquares(s) >= 0.0 && Deviations(s, m) >= 0.0
  {
    if s != [] {
      var x := s[|s| - 1];
      SquaresPositive(s[..|s| - 1], m);
      SquarePositive(x);
      SquarePositive(x - m);
    }
  }

  lemma SquarePositive(d: real)
    ensures d * d >= 0.0
  {
  }
}
