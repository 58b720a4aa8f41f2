/** The regression servo: a ring of points, and lines fitted to the newest of them.  Lines are over the reals: rounding
    is not modelled. */
module ServoLinreg {
  import opened Options
  import opened Regression

  const MAX_POINTS := 64
  const SIZES := 5

  const ERR_SMOOTH := 0.02
  const ERR_INITIAL_UPDATES := 10

  /** Local time, remote time and weight. */
  datatype Point = Point(x: int, y: int, w: real)

  datatype Coefficients = Coefficients(slope: real, intercept: real)

  /** A fitted line and the average of its prediction error.  Either may be no number, after a division by zero. */
  datatype Fit = Fit(line: Option<Coefficients>, err: Option<real>, errUpdates: nat)

  /** How many points the fit at index `k` takes: two to the power of its size. */
  function Points(k: nat): (n: nat)
    requires k < SIZES
    ensures n <= MAX_POINTS
  {
    match k
    case 0 => 4
    case 1 => 8
    case 2 => 16
    case 3 => 32
    case 4 => 64
  }

  /** The place in the ring of the point `i` steps older than the newest. */
  function Slot(last: nat, i: nat): (r: nat)
    requires last < MAX_POINTS && i < MAX_POINTS
    ensures r < MAX_POINTS && r == if i <= last then last - i else MAX_POINTS + last - i
  {
    (MAX_POINTS + last - i) % MAX_POINTS
  }

  /** A point, relative to the reference. */
  function Relative(p: Point, x: int, y: int): Sample {
    Sample((p.x - x) as real, (p.y - y) as real, p.w)
  }

  function RelativeAll(ps: seq<Point>, x: int, y: int): (s: seq<Sample>)
    ensures |s| == |ps|
  {
    seq(|ps|, i requires 0 <= i < |ps| => Relative(ps[i], x, y))
  }

  /** The last `n` points of a history, newest first. */
  function Newest(history: seq<Point>, n: nat): (s: seq<Point>)
    requires n <= |history|
    ensures |s| == n
  {
    seq(n, i requires 0 <= i < n => history[|history| - 1 - i])
  }

  /** The remote time that a line gives for local time `at`, when the reference is at `x`, `y`. */
  function Remote(l: Coefficients, x: int, y: int, at: real): real {
    y as real + l.intercept + l.slope * (at - x as real)
  }

  /** How far a line is off a sample that was taken relative to the reference is how far it is off the point itself. */
  lemma SameDistance(l: Coefficients, p: Point, x: int, y: int)
    ensures var s := Relative(p, x, y);
            s.y - (l.intercept + l.slope * s.x) == p.y as real - Remote(l, x, y, p.x as real) && s.w == p.w
  {
    assert (p.x - x) as real == p.x as real - x as real;
  }

  function Magnitude(x: real): real {
    if x < 0.0 then -x else x
  }

  /** The moving average of the prediction error, updated when the newest point is at `y0`: the mean of the first
      errors, then smoothed.  What is no number stays so. */
  function ErrorUpdated(f: Fit, y0: real): Fit {
    if f.line.Some? && f.line.value.slope == 0.0 then f
    else
      var n := f.errUpdates;
      var err :=
        if f.line.None? || f.err.None? then None
        else
          var mean, e := f.err.value, Magnitude(f.line.value.intercept - y0);
          if n < ERR_INITIAL_UPDATES then Some((mean * (n as real) + e) / ((n + 1) as real))
          else Some(mean + ERR_SMOOTH * (e - mean));
      f.(err := err, errUpdates := if n < ERR_INITIAL_UPDATES then n + 1 else n)
  }

  /** The error is how far the line was off the newest point, which lies at the reference.  Over the first updates the
      average is their mean; after that the newest error counts for a fiftieth.  A line that was never fitted has
      none. */
  lemma ErrorAverages(f: Fit, x: int, y: int, newest: int)
    requires f.line.Some? && f.err.Some?
    ensures var g := ErrorUpdated(f, (newest - y) as real);
            var n, off := f.errUpdates, Remote(f.line.value, x, y, x as real) - newest as real;
            && g.line == f.line && g.err.Some?
            && (f.line.value.slope == 0.0 ==> g == f)
            && (f.line.value.slope != 0.0 && n < 10 ==>
                  && g.errUpdates == n + 1
                  && g.err.value * (n + 1) as real == f.err.value * n as real + if off < 0.0 then -off else off)
            && (f.line.value.slope != 0.0 && n >= 10 ==>
                  && g.errUpdates == n
                  && 50.0 * (g.err.value - f.err.value) == (if off < 0.0 then -off else off) - f.err.value)
  {
    var l, n := f.line.value, f.errUpdates;
    assert l.slope * (x as real - x as real) == 0.0;
    var e := Magnitude(l.intercept - (newest - y) as real);
    MeanOn(f.err.value, n as real, e);
    hide Remote;
    assert (n + 1) as real == n as real + 1.0;
  }

  lemma MeanOn(mean: real, n: real, e: real)
    requires n >= 0.0
    ensures (mean * n + e) / (n + 1.0) * (n + 1.0) == mean * n + e
  {
  }

  /** Each size takes twice as many points as the one before, from four to all. */
  lemma PointsDouble(k: nat)
    requires 0 < k < SIZES
    ensures Points(k) == 2 * Points(k - 1) && Points(0) == 4 && Points(SIZES - 1) == MAX_POINTS
  {
  }

  function MovedLine(l: Coefficients, dx: int, dy: int): Coefficients {
    l.(intercept := l.intercept + ((dx as real) * l.slope - dy as real))
  }

  function Moved(f: Fit, dx: int, dy: int): Fit {
    if f.line.None? then f else f.(line := Some(MovedLine(f.line.value, dx, dy)))
  }

  /** Moving the reference, and the intercept with it, leaves the line where it was. */
  lemma SameLine(l: Coefficients, x: int, y: int, dx: int, dy: int, at: real)
    ensures Remote(MovedLine(l, dx, dy), x + dx, y + dy, at) == Remote(l, x, y, at)
  {
    var k, d := at - x as real, dx as real;
    assert l.slope * (k - d) == l.slope * k - l.slope * d;
    assert at - (x + dx) as real == k - d;
  }

  /** Two fits, at two references, differ in nothing but how their one line is written down. */
  ghost predicate SameFit(f: Fit, x: int, y: int, g: Fit, x': int, y': int) {
    && f.err == g.err && f.errUpdates == g.errUpdates && (f.line.Some? <==> g.line.Some?)
    && (f.line.Some? ==>
          && f.line.value.slope == g.line.value.slope
          && forall at :: Remote(f.line.value, x, y, at) == Remote(g.line.value, x', y', at))
  }

  lemma MovedIsSame(f: Fit, x: int, y: int, dx: int, dy: int)
    ensures SameFit(Moved(f, dx, dy), x + dx, y + dy, f, x, y)
  {
    hide Remote;
    if f.line.Some? {
      forall at ensures Remote(MovedLine(f.line.value, dx, dy), x + dx, y + dy, at) == Remote(f.line.value, x, y, at) {
        SameLine(f.line.value, x, y, dx, dy, at);
      }
    }
  }

  class Linreg {
    const points: array<Point>
    var refX: int
    var refY: int
    var numPoints: nat
    var lastPoint: nat
    const results: array<Fit>
    /** The samples since the last reset. */
    ghost var history: seq<Point>

    constructor ()
      ensures Valid() && fresh(points) && fresh(results) && history == []
    {
      points := new Point[MAX_POINTS](_ => Point(0, 0, 0.0));
      results := new Fit[SIZES](_ => Fit(Some(Coefficients(0.0, 0.0)), Some(0.0), 0));
      refX, refY, numPoints, lastPoint, history := 0, 0, 0, 0, [];
    }

    /** The ring holds the newest samples. */
    ghost predicate Valid()
      reads this, points
    {
      && points.Length == MAX_POINTS && results.Length == SIZES && lastPoint < MAX_POINTS
      && numPoints == (if |history| < MAX_POINTS then |history| else MAX_POINTS)
      && forall i :: 0 <= i < numPoints ==> points[Slot(lastPoint, i)] == history[|history| - 1 - i]
    }

    /** Moves the reference.  Every fitted line stays where it is. */
    method MoveReference(dx: int, dy: int)
      requires Valid()
      modifies `refX, `refY, results
      ensures Valid() && refX == old(refX) + dx && refY == old(refY) + dy
      ensures forall k :: 0 <= k < SIZES ==>
        SameFit(results[k], refX, refY, old(results[k]), old(refX), old(refY))
    {
      hide SameFit, Moved;
      refX := refX + dx;
      refY := refY + dy;
      for i := 0 to SIZES
        modifies results
        invariant forall k :: 0 <= k < i ==> results[k] == Moved(old(results[k]), dx, dy)
        invariant forall k :: i <= k < SIZES ==> results[k] == old(results[k])
      {
        results[i] := Moved(results[i], dx, dy);
      }
      forall k | 0 <= k < SIZES
        ensures SameFit(results[k], refX, refY, old(results[k]), old(refX), old(refY))
      {
        MovedIsSame(old(results[k]), old(refX), old(refY), dx, dy);
      }
    }

    /** Adds a sample at the reference, off by `offset`. */
    method AddSample(offset: int, weight: real)
      requires Valid()
      modifies `lastPoint, `numPoints, `history, points
      ensures Valid() && history == old(history) + [Point(refX, refY - offset, weight)]
    {
      lastPoint := (lastPoint + 1) % MAX_POINTS;
      points[lastPoint] := Point(refX, refY - offset, weight);
      if numPoints < MAX_POINTS {
        numPoints := numPoints + 1;
      }
      history := history + [points[lastPoint]];
      forall i | 0 <= i < numPoints
        ensures points[Slot(lastPoint, i)] == history[|history| - 1 - i]
      {
        if i > 0 {
          assert Slot(lastPoint, i) == Slot(old(lastPoint), i - 1) != lastPoint;
        }
      }
    }

    /** The samples in the ring, relative to the reference, newest first. */
    ghost function All(): (s: seq<Sample>)
      requires Valid()
      reads this, points
      ensures |s| == numPoints
    {
      RelativeAll(Newest(history, numPoints), refX, refY)
    }

    /** Fits a line to the newest points, as many as each size takes, if there are so many.  Each fit is right if its
        own points are spread. */
    method Regress()
      requires Valid() && numPoints > 0
      modifies results
      ensures Valid()
      ensures forall k :: 0 <= k < SIZES ==>
        if Points(k) > numPoints then results[k] == old(results[k])
        else FitFor(results[k], old(results[k]), RelativeAll(Newest(history, Points(k)), refX, refY),
                    (history[|history| - 1].y - refY) as real)
    {
      hide FitFor;
      var y0 := (points[lastPoint].y - refY) as real;
      assert points[Slot(lastPoint, 0)] == history[|history| - 1];
      FitEach(y0);
      forall k | 0 <= k < SIZES && Points(k) <= numPoints
        ensures All()[..Points(k)] == RelativeAll(Newest(history, Points(k)), refX, refY)
      {
        NewestPrefix(history, Points(k), numPoints, refX, refY);
      }
    }

    /** The loop over the sizes.  The sums run on from one size to the next. */
    method FitEach(y0: real)
      requires Valid()
      modifies results
      ensures Valid()
      ensures forall k :: 0 <= k < SIZES ==>
        if Points(k) > numPoints then results[k] == old(results[k])
        else FitFor(results[k], old(results[k]), All()[..Points(k)], y0)
    {
      hide FitFor, FitTo, SumsOf, ErrorUpdated;
      ghost var all := All();
      NoSumsYet();
      var sums := Sums(0.0, 0.0, 0.0, 0.0, 0.0);
      var i: nat, k: nat := 0, 0;
      while k < SIZES
        invariant k <= SIZES && i <= numPoints && sums == SumsOf(all[..i])
        invariant i == if k == 0 then 0 else Points(k - 1)
        invariant forall j :: 0 <= j < k ==>
          Points(j) <= numPoints && FitFor(results[j], old(results[j]), all[..Points(j)], y0)
        invariant forall j :: k <= j < SIZES ==> results[j] == old(results[j])
      {
        var n := Points(k);
        if n > numPoints {
          break;
        }
        var f := ErrorUpdated(results[k], y0);
        sums := Accumulate(sums, i, n);
        i := n;
        FitSolves(all[..n], results[k], y0, sums);
        results[k] := FitTo(f, sums);
        k := k + 1;
      }
    }

    /** Adds the points from `i` to `n`, counted from the newest, to the sums. */
    method Accumulate(sums: Sums, start: nat, n: nat) returns (r: Sums)
      requires Valid() && start <= n <= numPoints
      requires sums == SumsOf(All()[..start])
      ensures r == SumsOf(All()[..n])
    {
      hide SumsOf;
      ghost var all := All();
      r := sums;
      for i := start to n
        invariant r == SumsOf(all[..i])
      {
        var l := Slot(lastPoint, i);
        var x, y, w := (points[l].x - refX) as real, (points[l].y - refY) as real, points[l].w;
        assert Sample(x, y, w) == all[i];
        SumsMore(all, i);
        r := Sums(r.x + x * w, r.y + y * w, r.xy + x * y * w, r.xx + x * x * w, r.w + w);
      }
    }
  }

  datatype Sums = Sums(x: real, y: real, xy: real, xx: real, w: real)

  function SumsOf(s: seq<Sample>): Sums {
    Sums(SumX(s), SumY(s), SumXY(s), SumXX(s), SumW(s))
  }

  lemma SumsMore(s: seq<Sample>, i: nat)
    requires i < |s|
    ensures var r, p := SumsOf(s[..i]), s[i];
            SumsOf(s[..i + 1]) == Sums(r.x + p.x * p.w, r.y + p.y * p.w, r.xy + p.x * p.y * p.w, r.xx + p.x * p.x * p.w,
                                       r.w + p.w)
  {
    assert s[..i + 1][..i] == s[..i];
  }

  /** The line through the sums, unless there is a division by zero. */
  function FitTo(f: Fit, s: Sums): Fit {
    if s.w == 0.0 || Covariance(s.w, s.x, s.x, s.xx) == 0.0 then f.(line := None)
    else
      var slope := Covariance(s.w, s.x, s.y, s.xy) / Covariance(s.w, s.x, s.x, s.xx);
      f.(line := Some(Coefficients(slope, (s.y - slope * s.x) / s.w)))
  }

  /** A fit, with its error updated, solves the normal equations of its samples if they are spread. */
  ghost predicate FitFor(f: Fit, was: Fit, s: seq<Sample>, y0: real) {
    && f == ErrorUpdated(was, y0).(line := f.line)
    && (Spread(s) ==> f.line.Some? && Solves(s, f.line.value.intercept, f.line.value.slope))
  }

  lemma FitSolves(s: seq<Sample>, was: Fit, y0: real, sums: Sums)
    requires sums == SumsOf(s)
    ensures FitFor(FitTo(ErrorUpdated(was, y0), sums), was, s, y0)
  {
    hide Spread, SumW, SumX, SumY, SumXY, SumXX, ErrorUpdated, FitTo;
    SumsSolve(ErrorUpdated(was, y0), sums);
    if Spread(s) {
      SpreadDetermines(s);
    }
  }

  lemma SumsSolve(f: Fit, s: Sums)
    ensures var g := FitTo(f, s);
            && g == f.(line := g.line)
            && (s.w > 0.0 && Covariance(s.w, s.x, s.x, s.xx) > 0.0 ==>
                  && g.line.Some?
                  && s.y == g.line.value.intercept * s.w + g.line.value.slope * s.x
                  && s.xy == g.line.value.intercept * s.x + g.line.value.slope * s.xx)
  {
    var g := FitTo(f, s);
    hide Covariance;
    if s.w > 0.0 && Covariance(s.w, s.x, s.x, s.xx) > 0.0 {
      QuotientsSolve(s.w, s.x, s.y, s.xy, s.xx, g.line.value.intercept, g.line.value.slope);
    }
  }

  /** No other line is closer to spread samples than the one fitted to them. */
  lemma FitIsClosest(f: Fit, was: Fit, s: seq<Sample>, y0: real, a: real, b: real)
    requires FitFor(f, was, s, y0) && Spread(s)
    ensures f.line.Some? && Squares(s, f.line.value.intercept, f.line.value.slope) <= Squares(s, a, b)
  {
    LeastSquares(s, f.line.value.intercept, f.line.value.slope, a, b);
  }

  lemma NoSumsYet()
    ensures SumsOf([]) == Sums(0.0, 0.0, 0.0, 0.0, 0.0)
  {
  }

  lemma NewestPrefix(history: seq<Point>, n: nat, m: nat, x: int, y: int)
    requires n <= m <= |history|
    ensures RelativeAll(Newest(history, m), x, y)[..n] == RelativeAll(Newest(history, n), x, y)
  {
  }
}
