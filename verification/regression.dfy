/** Weighted linear regression over the reals. */
module Regression {

  /** A sample, relative to some reference: where, what, and how much it counts. */
  datatype Sample = Sample(x: real, y: real, w: real)

  function SumW(s: seq<Sample>): real {
    if s == [] then 0.0 else SumW(s[..|s| - 1]) + s[|s| - 1].w
  }

  function SumX(s: seq<Sample>): real {
    if s == [] then 0.0 else SumX(s[..|s| - 1]) + s[|s| - 1].x * s[|s| - 1].w
  }

  function SumY(s: seq<Sample>): real {
    if s == [] then 0.0 else SumY(s[..|s| - 1]) + s[|s| - 1].y * s[|s| - 1].w
  }

  function SumXY(s: seq<Sample>): real {
    if s == [] then 0.0 else SumXY(s[..|s| - 1]) + s[|s| - 1].x * s[|s| - 1].y * s[|s| - 1].w
  }

  function SumXX(s: seq<Sample>): real {
    if s == [] then 0.0 else SumXX(s[..|s| - 1]) + s[|s| - 1].x * s[|s| - 1].x * s[|s| - 1].w
  }

  function Times(x: real, y: real): real {
    x * y
  }

  function Weighted(d: real, w: real): real {
    Times(Times(d, d), w)
  }

  /** The line `a + b x`. */
  function Line(a: real, b: real, x: real): real {
    a + b * x
  }

  /** The weighted squares of the distances of the samples from a line. */
  function Squares(s: seq<Sample>, a: real, b: real): real {
    if s == [] then 0.0
    else
      var p := s[|s| - 1];
      var d := p.y - Line(a, b, p.x);
      Squares(s[..|s| - 1], a, b) + Weighted(d, p.w)
  }

  /** The normal equations. */
  predicate Solves(s: seq<Sample>, a: real, b: real) {
    SumY(s) == a * SumW(s) + b * SumX(s) && SumXY(s) == a * SumX(s) + b * SumXX(s)
  }

  /** Every sample counts, and not all are at one place. */
  ghost predicate Spread(s: seq<Sample>) {
    && (forall i :: 0 <= i < |s| ==> s[i].w > 0.0)
    && exists i, j :: 0 <= i < j < |s| && s[i].x != s[j].x
  }

  /** A sum of products, less the product of the sums over the sum of the weights. */
  function Covariance(w: real, x: real, y: real, xy: real): real
    requires w != 0.0
  {
    xy - x * y / w
  }

  /** The quotients that the program computes solve the normal equations. */
  lemma QuotientsSolve(w: real, x: real, y: real, xy: real, xx: real, a: real, b: real)
    requires w != 0.0 && Covariance(w, x, x, xx) != 0.0
    requires b == Covariance(w, x, y, xy) / Covariance(w, x, x, xx) && a == (y - b * x) / w
    ensures y == a * w + b * x && xy == a * x + b * xx
  {
    var d, n := xx - x * x / w, xy - x * y / w;
    assert b * d == n;
    assert a * w == y - b * x;
    Distribute(x, y, w, b);
    assert b * d == b * xx - b * (x * x / w);
  }

  lemma Distribute(x: real, y: real, w: real, b: real)
    requires w != 0.0
    ensures (y - b * x) / w * x == x * y / w - b * (x * x / w)
  {
    var q := 1.0 / w;
    assert (y - b * x) / w == (y - b * x) * q;
    assert x * y / w == x * y * q && x * x / w == x * x * q;
    assert (y - b * x) * q * x == y * q * x - b * x * q * x;
    assert b * (x * x * q) == b * x * q * x;
    assert y * q * x == x * y * q;
  }

  /** The weighted squares of a line. */
  function Form(s: seq<Sample>, a: real, b: real): real {
    if s == [] then 0.0
    else
      var p := s[|s| - 1];
      var e := Line(a, b, p.x);
      Form(s[..|s| - 1], a, b) + Weighted(e, p.w)
  }

  lemma {:induction false} FormIs(s: seq<Sample>, a: real, b: real)
    ensures Form(s, a, b) == a * a * SumW(s) + 2.0 * a * b * SumX(s) + b * b * SumXX(s)
  {
    hide Form, SumW, SumX, SumXX, Line, Weighted;
    NoSums(a, b);
    if s != [] {
      var p, t := s[|s| - 1], s[..|s| - 1];
      FormIs(t, a, b);
      UnfoldForm(s, a, b);
      SquareOfLine(a, b, p.x, p.w);
      Three(a * a, 2.0 * a * b, b * b, SumW(t), SumX(t), SumXX(t), p.w, p.x * p.w, p.x * p.x * p.w);
    }
  }

  lemma NoSums(a: real, b: real)
    ensures SumW([]) == SumX([]) == SumY([]) == SumXY([]) == SumXX([]) == 0.0
    ensures Form([], a, b) == Rest([], a, b) == Moment([], a, b) == 0.0
  {
  }

  lemma UnfoldForm(s: seq<Sample>, a: real, b: real)
    requires s != []
    ensures var p, t := s[|s| - 1], s[..|s| - 1];
            && SumW(s) == SumW(t) + p.w && SumX(s) == SumX(t) + p.x * p.w && SumXX(s) == SumXX(t) + p.x * p.x * p.w
            && Form(s, a, b) == Form(t, a, b) + Weighted(Line(a, b, p.x), p.w)
  {
  }

  lemma SquareOfLine(a: real, b: real, x: real, w: real)
    ensures Weighted(Line(a, b, x), w) == a * a * w + 2.0 * a * b * (x * w) + b * b * (x * x * w)
  {
    var bx := b * x;
    assert (a + bx) * (a + bx) == a * a + 2.0 * a * bx + bx * bx;
    assert bx * bx == b * b * (x * x);
    assert 2.0 * a * bx == 2.0 * a * b * x;
  }

  lemma Three(k: real, l: real, m: real, x: real, y: real, z: real, dx: real, dy: real, dz: real)
    ensures k * (x + dx) + l * (y + dy) + m * (z + dz) == (k * x + l * y + m * z) + (k * dx + l * dy + m * dz)
  {
  }

  lemma {:induction false} FormPositive(s: seq<Sample>, a: real, b: real, i: nat)
    requires forall j :: 0 <= j < |s| ==> s[j].w > 0.0
    ensures Form(s, a, b) >= 0.0
    ensures i < |s| && Line(a, b, s[i].x) != 0.0 ==> Form(s, a, b) > 0.0
  {
    hide Line, Weighted, Form, SumW, SumX, SumXX;
    NoSums(a, b);
    if s != [] {
      var p, t := s[|s| - 1], s[..|s| - 1];
      FormPositive(t, a, b, if i < |t| then i else 0);
      SquarePositive(Line(a, b, p.x), p.w);
      UnfoldForm(s, a, b);
    }
  }

  lemma SquarePositive(x: real, w: real)
    requires w > 0.0
    ensures Weighted(x, w) >= 0.0 && (x != 0.0 ==> Weighted(x, w) > 0.0)
  {
    if x != 0.0 {
      hide Times;
      PositiveProduct(if x > 0.0 then x else -x, if x > 0.0 then x else -x);
      NegatedSquare(x);
      PositiveProduct(Times(x, x), w);
    }
  }

  lemma NegatedSquare(x: real)
    ensures Times(-x, -x) == Times(x, x)
  {
  }

  lemma PositiveProduct(x: real, y: real)
    requires x > 0.0 && y > 0.0
    ensures Times(x, y) > 0.0
  {
  }

  lemma {:induction false} WeightPositive(s: seq<Sample>)
    requires forall j :: 0 <= j < |s| ==> s[j].w > 0.0
    ensures SumW(s) >= 0.0 && (s != [] ==> SumW(s) > 0.0)
  {
    if s != [] {
      WeightPositive(s[..|s| - 1]);
    }
  }

  /** Samples that are spread have a slope. */
  lemma SpreadDetermines(s: seq<Sample>)
    requires Spread(s)
    ensures SumW(s) > 0.0 && Covariance(SumW(s), SumX(s), SumX(s), SumXX(s)) > 0.0
  {
    hide SumW, SumX, SumXX, Form, Covariance;
    WeightPositive(s);
    var w, x, xx := SumW(s), SumX(s), SumXX(s);
    var m := x / w;
    var i, j :| 0 <= i < j < |s| && s[i].x != s[j].x;
    FormPositive(s, -m, 1.0, if s[i].x != m then i else j);
    FormIs(s, -m, 1.0);
    Centred(w, x, xx, m);
  }

  lemma Centred(w: real, x: real, xx: real, m: real)
    requires w > 0.0 && m == x / w
    ensures -m * -m * w + 2.0 * -m * 1.0 * x + 1.0 * 1.0 * xx == Covariance(w, x, x, xx)
  {
    assert m * w == x;
    assert m * m * w == m * x;
    assert x * x / w == m * x;
  }

  /** The weighted distances of the samples from a line, and their moments. */
  function Rest(s: seq<Sample>, a: real, b: real): real {
    if s == [] then 0.0
    else
      var p := s[|s| - 1];
      Rest(s[..|s| - 1], a, b) + (p.y - Line(a, b, p.x)) * p.w
  }

  function Moment(s: seq<Sample>, a: real, b: real): real {
    if s == [] then 0.0
    else
      var p := s[|s| - 1];
      Moment(s[..|s| - 1], a, b) + p.x * ((p.y - Line(a, b, p.x)) * p.w)
  }

  /** The normal equations say that both vanish. */
  lemma {:induction false} RestIs(s: seq<Sample>, a: real, b: real)
    ensures Rest(s, a, b) == SumY(s) - a * SumW(s) - b * SumX(s)
    ensures Moment(s, a, b) == SumXY(s) - a * SumX(s) - b * SumXX(s)
  {
    hide Rest, Moment, SumW, SumX, SumY, SumXY, SumXX, Line;
    NoSums(a, b);
    if s != [] {
      var p, t := s[|s| - 1], s[..|s| - 1];
      RestIs(t, a, b);
      UnfoldRest(s, a, b);
      RestOne(p.x, p.y, p.w, a, b);
      assert a * (SumW(t) + p.w) == a * SumW(t) + a * p.w;
      assert b * (SumX(t) + p.x * p.w) == b * SumX(t) + b * (p.x * p.w);
      assert a * (SumX(t) + p.x * p.w) == a * SumX(t) + a * (p.x * p.w);
      assert b * (SumXX(t) + p.x * p.x * p.w) == b * SumXX(t) + b * (p.x * p.x * p.w);
    }
  }

  lemma UnfoldRest(s: seq<Sample>, a: real, b: real)
    requires s != []
    ensures var p, t := s[|s| - 1], s[..|s| - 1];
            var d := p.y - Line(a, b, p.x);
            && Rest(s, a, b) == Rest(t, a, b) + d * p.w && Moment(s, a, b) == Moment(t, a, b) + p.x * (d * p.w)
            && SumW(s) == SumW(t) + p.w && SumX(s) == SumX(t) + p.x * p.w && SumXX(s) == SumXX(t) + p.x * p.x * p.w
            && SumY(s) == SumY(t) + p.y * p.w && SumXY(s) == SumXY(t) + p.x * p.y * p.w
  {
  }

  lemma RestOne(x: real, y: real, w: real, a: real, b: real)
    ensures (y - Line(a, b, x)) * w == y * w - a * w - b * (x * w)
    ensures x * ((y - Line(a, b, x)) * w) == x * y * w - a * (x * w) - b * (x * x * w)
  {
    assert b * x * w == b * (x * w);
    assert x * (b * (x * w)) == b * (x * x * w);
  }

  /** Squares from another line: those from the first, those between the lines, and twice the distances. */
  lemma {:induction false} SquaresShift(s: seq<Sample>, a: real, b: real, da: real, db: real)
    ensures Squares(s, a - da, b - db)
         == Squares(s, a, b) + Form(s, da, db) + 2.0 * da * Rest(s, a, b) + 2.0 * db * Moment(s, a, b)
  {
    hide Line, Weighted, Squares, Form, Rest, Moment;
    NoSquares(a, b, da, db);
    if s != [] {
      var p, t := s[|s| - 1], s[..|s| - 1];
      SquaresShift(t, a, b, da, db);
      UnfoldShift(s, a, b, da, db);
      ShiftOne(p.x, p.y, p.w, a, b, da, db);
      var r := (p.y - Line(a, b, p.x)) * p.w;
      TwiceSum(da, Rest(s, a, b), Rest(t, a, b), r);
      TwiceSum(db, Moment(s, a, b), Moment(t, a, b), p.x * r);
    }
  }

  lemma TwiceSum(k: real, sum: real, x: real, y: real)
    requires sum == x + y
    ensures 2.0 * k * sum == 2.0 * k * x + 2.0 * k * y
  {
  }

  lemma NoSquares(a: real, b: real, da: real, db: real)
    ensures Squares([], a - da, b - db) == Squares([], a, b) == Form([], da, db) == 0.0
    ensures Rest([], a, b) == Moment([], a, b) == 0.0
  {
  }

  lemma UnfoldShift(s: seq<Sample>, a: real, b: real, da: real, db: real)
    requires s != []
    ensures var p, t := s[|s| - 1], s[..|s| - 1];
            var d, e, f := p.y - Line(a, b, p.x), Line(da, db, p.x), p.y - Line(a - da, b - db, p.x);
            && Squares(s, a - da, b - db) == Squares(t, a - da, b - db) + Weighted(f, p.w)
            && Squares(s, a, b) == Squares(t, a, b) + Weighted(d, p.w)
            && Form(s, da, db) == Form(t, da, db) + Weighted(e, p.w)
            && Rest(s, a, b) == Rest(t, a, b) + d * p.w
            && Moment(s, a, b) == Moment(t, a, b) + p.x * (d * p.w)
  {
  }

  lemma ShiftOne(x: real, y: real, w: real, a: real, b: real, da: real, db: real)
    ensures var d, e, f := y - Line(a, b, x), Line(da, db, x), y - Line(a - da, b - db, x);
            Weighted(f, w) == Weighted(d, w) + Weighted(e, w) + 2.0 * da * (d * w) + 2.0 * db * (x * (d * w))
  {
    var d, e := y - Line(a, b, x), Line(da, db, x);
    assert y - Line(a - da, b - db, x) == d + e;
    assert (d + e) * (d + e) == d * d + e * e + 2.0 * d * e;
    assert d * e * w == da * (d * w) + db * (x * (d * w)) by {
      assert d * e == da * d + db * x * d;
    }
  }

  /** A line that solves the normal equations is the one with the least squares. */
  lemma LeastSquares(s: seq<Sample>, a: real, b: real, a': real, b': real)
    requires Solves(s, a, b) && forall j :: 0 <= j < |s| ==> s[j].w > 0.0
    ensures Squares(s, a, b) <= Squares(s, a', b')
  {
    hide SumW, SumX, SumY, SumXY, SumXX, Form, Squares, Rest, Moment, Line;
    var da, db := a - a', b - b';
    SquaresShift(s, a, b, da, db);
    FormPositive(s, da, db, 0);
    RestIs(s, a, b);
    assert a - da == a' && b - db == b';
    assert Rest(s, a, b) == 0.0 && Moment(s, a, b) == 0.0;
  }
}
