/** The ordinary-least-squares fit of the cost-model calibration, over exact reals.

    The fit is a closed form over four running sums.  What it promises is a
    statement about every line in the plane: none has a smaller sum of squared
    residuals over the given points. */
module LinearFit {

  datatype Point = Point(x: real, y: real)

  /** A JavaScript number: dividing zero by zero yields NaN. */
  datatype Number = NaN | Finite(value: real)

  datatype Fit = Fit(fixedMs: Number, perUnitMs: real, r2: real)

  // ---------- sums over a point list ----------

  /** The number of points and the four sums of the first pass. */
  datatype Moments = Moments(n: real, x: real, y: real, xx: real, xy: real)

  function Add(m: Moments, p: Point): Moments {
    Moments(m.n + 1.0, m.x + p.x, m.y + p.y, m.xx + p.x * p.x, m.xy + p.x * p.y)
  }

  function MomentsOf(ps: seq<Point>): Moments {
    if ps == [] then Moments(0.0, 0.0, 0.0, 0.0, 0.0)
    else Add(MomentsOf(ps[..|ps| - 1]), ps[|ps| - 1])
  }

  function Square(v: real): real { v * v }

  function Line(a: real, b: real, x: real): real { a + b * x }

  function Residual(p: Point, a: real, b: real): real { p.y - Line(a, b, p.x) }

  /** The sum of squared residuals of the line `y = a + b * x`. */
  function SquaredError(ps: seq<Point>, a: real, b: real): real {
    if ps == [] then 0.0
    else SquaredError(ps[..|ps| - 1], a, b) + Square(Residual(ps[|ps| - 1], a, b))
  }

  /** The sum of the squared values of the line `a + b * x` at the points. */
  function SquaredValues(ps: seq<Point>, a: real, b: real): real {
    if ps == [] then 0.0
    else SquaredValues(ps[..|ps| - 1], a, b) + Square(Line(a, b, ps[|ps| - 1].x))
  }

  function SquaredOrdinates(ps: seq<Point>): real {
    if ps == [] then 0.0 else SquaredOrdinates(ps[..|ps| - 1]) + Square(ps[|ps| - 1].y)
  }

  /** The slope denominator of the closed form. */
  function Denominator(m: Moments): real {
    m.n * m.xx - m.x * m.x
  }

  ghost predicate AllXEqual(ps: seq<Point>) {
    forall i, j :: 0 <= i < |ps| && 0 <= j < |ps| ==> ps[i].x == ps[j].x
  }

  /** Every point lies on the line. */
  ghost predicate OnLine(ps: seq<Point>, a: real, b: real) {
    forall i :: 0 <= i < |ps| ==> Residual(ps[i], a, b) == 0.0
  }

  ghost predicate LeastSquares(ps: seq<Point>, fixed: real, slope: real) {
    forall a: real, b: real :: SquaredError(ps, fixed, slope) <= SquaredError(ps, a, b)
  }

  // ---------- both error sums are polynomials in the line ----------

  /** The squared error less the squared ordinates. */
  function ErrorPolynomial(m: Moments, a: real, b: real): real {
    ValuePolynomial(m, a, b) - 2.0 * a * m.y - 2.0 * b * m.xy
  }

  function ValuePolynomial(m: Moments, a: real, b: real): real {
    m.n * (a * a) + 2.0 * (a * b) * m.x + (b * b) * m.xx
  }

  lemma {:induction false} LineSquareExpands(x: real, a: real, b: real)
    ensures Square(Line(a, b, x)) == a * a + 2.0 * (a * b) * x + (b * b) * (x * x)
  {
    var p := b * x;
    assert (a + p) * (a + p) == a * a + 2.0 * (a * p) + p * p;
    assert a * p == (a * b) * x;
    assert p * p == (b * b) * (x * x);
  }

  lemma {:induction false} ValuePolynomialGrows(m: Moments, p: Point, a: real, b: real)
    ensures ValuePolynomial(Add(m, p), a, b) == ValuePolynomial(m, a, b) + Square(Line(a, b, p.x))
  {
    LineSquareExpands(p.x, a, b);
    assert (m.n + 1.0) * (a * a) == m.n * (a * a) + a * a;
    assert 2.0 * (a * b) * (m.x + p.x) == 2.0 * (a * b) * m.x + 2.0 * (a * b) * p.x;
    assert (b * b) * (m.xx + p.x * p.x) == (b * b) * m.xx + (b * b) * (p.x * p.x);
  }

  lemma {:induction false} ErrorPolynomialGrows(m: Moments, p: Point, a: real, b: real)
    ensures ErrorPolynomial(Add(m, p), a, b) + Square(p.y) == ErrorPolynomial(m, a, b) + Square(Residual(p, a, b))
  {
    ValuePolynomialGrows(m, p, a, b);
    var v := Line(a, b, p.x);
    assert Square(p.y - v) == p.y * p.y - 2.0 * (p.y * v) + Square(v);
    assert p.y * (a + b * p.x) == a * p.y + b * (p.x * p.y);
    assert 2.0 * a * (m.y + p.y) == 2.0 * a * m.y + 2.0 * (a * p.y);
    assert 2.0 * b * (m.xy + p.x * p.y) == 2.0 * b * m.xy + 2.0 * (b * (p.x * p.y));
  }

  lemma {:induction false} SumsArePolynomials(ps: seq<Point>, a: real, b: real)
    ensures SquaredError(ps, a, b) == SquaredOrdinates(ps) + ErrorPolynomial(MomentsOf(ps), a, b)
    ensures SquaredValues(ps, a, b) == ValuePolynomial(MomentsOf(ps), a, b)
  {
    if ps == [] {
    } else {
      var init, p := ps[..|ps| - 1], ps[|ps| - 1];
      SumsArePolynomials(init, a, b);
      ErrorPolynomialGrows(MomentsOf(init), p, a, b);
      ValuePolynomialGrows(MomentsOf(init), p, a, b);
    }
  }

  // ---------- sums of squares vanish only termwise ----------

  lemma {:induction false} ZeroProduct(u: real, v: real)
    requires u * v == 0.0 && v != 0.0
    ensures u == 0.0
  {
    assert u == u * v / v;
  }

  lemma {:induction false} SquareSign(r: real)
    ensures Square(r) >= 0.0
    ensures Square(r) == 0.0 <==> r == 0.0
  {
    if Square(r) == 0.0 && r != 0.0 {
      ZeroProduct(r, r);
    }
  }

  lemma {:induction false} SquaredErrorSign(ps: seq<Point>, a: real, b: real)
    ensures SquaredError(ps, a, b) >= 0.0
    ensures SquaredError(ps, a, b) == 0.0 <==> OnLine(ps, a, b)
  {
    if ps == [] {
    } else {
      var init := ps[..|ps| - 1];
      SquaredErrorSign(init, a, b);
      SquareSign(Residual(ps[|ps| - 1], a, b));
      assert OnLine(ps, a, b) <==> OnLine(init, a, b) && Residual(ps[|ps| - 1], a, b) == 0.0;
    }
  }

  ghost predicate Vanishes(ps: seq<Point>, a: real, b: real) {
    forall i :: 0 <= i < |ps| ==> Line(a, b, ps[i].x) == 0.0
  }

  lemma {:induction false} SquaredValuesSign(ps: seq<Point>, a: real, b: real)
    ensures SquaredValues(ps, a, b) >= 0.0
    ensures SquaredValues(ps, a, b) == 0.0 <==> Vanishes(ps, a, b)
  {
    if ps == [] {
    } else {
      var init := ps[..|ps| - 1];
      SquaredValuesSign(init, a, b);
      SquareSign(Line(a, b, ps[|ps| - 1].x));
      assert Vanishes(ps, a, b) <==> Vanishes(init, a, b) && Line(a, b, ps[|ps| - 1].x) == 0.0;
    }
  }

  // ---------- the normal equations ----------

  ghost predicate NormalEquations(m: Moments, fixed: real, slope: real) {
    && m.n * fixed + slope * m.x == m.y
    && fixed * m.x + slope * m.xx == m.xy
  }

  lemma {:induction false} PolynomialStep(m: Moments, f: real, s: real, da: real, db: real)
    requires NormalEquations(m, f, s)
    ensures ErrorPolynomial(m, f + da, s + db) == ErrorPolynomial(m, f, s) + ValuePolynomial(m, da, db)
  {
    var a, b := f + da, s + db;
    assert m.n * (a * a) == m.n * (f * f) + 2.0 * (da * (m.n * f)) + m.n * (da * da);
    assert (a * b) * m.x == (f * s) * m.x + da * (s * m.x) + db * (f * m.x) + (da * db) * m.x;
    assert (b * b) * m.xx == (s * s) * m.xx + 2.0 * (db * (s * m.xx)) + (db * db) * m.xx;
    assert da * m.y == da * (m.n * f) + da * (s * m.x);
    assert db * m.xy == db * (f * m.x) + db * (s * m.xx);
  }

  /** Moving from a line that meets the normal equations to any other line adds
      the squared values of the difference of the two lines. */
  lemma {:induction false} Pythagoras(ps: seq<Point>, fixed: real, slope: real, a: real, b: real)
    requires NormalEquations(MomentsOf(ps), fixed, slope)
    ensures SquaredError(ps, a, b)
         == SquaredError(ps, fixed, slope) + SquaredValues(ps, a - fixed, b - slope)
  {
    SumsArePolynomials(ps, a, b);
    SumsArePolynomials(ps, fixed, slope);
    SumsArePolynomials(ps, a - fixed, b - slope);
    PolynomialStep(MomentsOf(ps), fixed, slope, a - fixed, b - slope);
    assert fixed + (a - fixed) == a && slope + (b - slope) == b;
  }

  /** A line that meets the normal equations is a least-squares line. */
  lemma {:induction false} NormalEquationsSuffice(ps: seq<Point>, fixed: real, slope: real)
    requires NormalEquations(MomentsOf(ps), fixed, slope)
    ensures LeastSquares(ps, fixed, slope)
  {
    forall a: real, b: real ensures SquaredError(ps, fixed, slope) <= SquaredError(ps, a, b) {
      Pythagoras(ps, fixed, slope, a, b);
      SquaredValuesSign(ps, a - fixed, b - slope);
    }
  }

  lemma {:induction false} VanishingLine(a: real, b: real, x: real, x': real)
    requires Line(a, b, x) == 0.0 && Line(a, b, x') == 0.0 && x != x'
    ensures a == 0.0 && b == 0.0
  {
    assert b * (x - x') == b * x - b * x';
    ZeroProduct(b, x - x');
  }

  /** With two different abscissas no other line does as well. */
  lemma {:induction false} LeastSquaresUnique(ps: seq<Point>, fixed: real, slope: real, a: real, b: real)
    requires NormalEquations(MomentsOf(ps), fixed, slope)
    requires !AllXEqual(ps)
    requires LeastSquares(ps, a, b)
    ensures a == fixed && b == slope
  {
    Pythagoras(ps, fixed, slope, a, b);
    assert SquaredError(ps, a, b) <= SquaredError(ps, fixed, slope);
    SquaredValuesSign(ps, a - fixed, b - slope);
    assert Vanishes(ps, a - fixed, b - slope);
    var i, j :| 0 <= i < |ps| && 0 <= j < |ps| && ps[i].x != ps[j].x;
    VanishingLine(a - fixed, b - slope, ps[i].x, ps[j].x);
  }

  // ---------- the slope denominator ----------

  /** Lagrange's identity, one point at a time. */
  lemma {:induction false} DenominatorGrows(m: Moments, p: Point)
    ensures Denominator(Add(m, p)) == Denominator(m) + ValuePolynomial(m, p.x, -1.0)
  {
    var x := p.x;
    assert (m.n + 1.0) * (m.xx + x * x) == m.n * m.xx + m.n * (x * x) + m.xx + x * x;
    assert (m.x + x) * (m.x + x) == m.x * m.x + 2.0 * (x * m.x) + x * x;
    assert 2.0 * (x * -1.0) * m.x == -2.0 * (x * m.x);
  }

  /** The slope denominator is never negative, and it is zero exactly when all
      the abscissas are equal, which is the branch without a slope. */
  lemma {:induction false} DenominatorSign(ps: seq<Point>)
    ensures Denominator(MomentsOf(ps)) >= 0.0
    ensures Denominator(MomentsOf(ps)) == 0.0 <==> AllXEqual(ps)
  {
    if ps == [] {
    } else {
      var init, p := ps[..|ps| - 1], ps[|ps| - 1];
      DenominatorSign(init);
      DenominatorGrows(MomentsOf(init), p);
      SumsArePolynomials(init, p.x, -1.0);
      SquaredValuesSign(init, p.x, -1.0);
      assert Vanishes(init, p.x, -1.0) <==> forall i :: 0 <= i < |init| ==> ps[i].x == p.x;
      assert AllXEqual(ps) <==> AllXEqual(init) && forall i :: 0 <= i < |init| ==> ps[i].x == p.x;
    }
  }

  // ---------- the closed form meets the normal equations ----------

  lemma {:induction false} ClosedFormWithSlope(m: Moments, slope: real, fixed: real)
    requires m.n != 0.0
    requires slope * Denominator(m) == m.n * m.xy - m.x * m.y
    requires fixed * m.n == m.y - slope * m.x
    ensures NormalEquations(m, fixed, slope)
  {
    assert m.n * (fixed * m.x + slope * m.xx) == (fixed * m.n) * m.x + slope * (m.n * m.xx);
    assert (m.y - slope * m.x) * m.x == m.y * m.x - slope * (m.x * m.x);
    assert slope * (m.n * m.xx - m.x * m.x) == slope * (m.n * m.xx) - slope * (m.x * m.x);
    assert (fixed * m.x + slope * m.xx - m.xy) * m.n == 0.0;
    ZeroProduct(fixed * m.x + slope * m.xx - m.xy, m.n);
  }

  /** The sums of points that all have the abscissa `x`. */
  ghost predicate ConcentratedAt(m: Moments, x: real) {
    m.x == m.n * x && m.xy == x * m.y
  }

  lemma {:induction false} ConcentrationGrows(m: Moments, p: Point)
    requires ConcentratedAt(m, p.x)
    ensures ConcentratedAt(Add(m, p), p.x)
  {
  }

  lemma {:induction false} EqualXConcentrates(ps: seq<Point>, x: real)
    requires forall i :: 0 <= i < |ps| ==> ps[i].x == x
    ensures ConcentratedAt(MomentsOf(ps), x)
  {
    if ps == [] {
    } else {
      EqualXConcentrates(ps[..|ps| - 1], x);
      ConcentrationGrows(MomentsOf(ps[..|ps| - 1]), ps[|ps| - 1]);
    }
  }

  lemma {:induction false} ConcentratedMean(m: Moments, x: real, mean: real)
    requires ConcentratedAt(m, x)
    requires mean * m.n == m.y
    ensures NormalEquations(m, mean, 0.0)
  {
    assert mean * (m.n * x) == (mean * m.n) * x;
  }

  // ---------- R squared ----------

  /** The reported R squared, from the residual and the total sum of squares. */
  function Determination(total: real, rest: real): real {
    if total == 0.0 then 1.0 else 1.0 - rest / total
  }

  lemma {:induction false} QuotientRange(u: real, v: real)
    requires 0.0 <= u <= v && v > 0.0
    ensures 0.0 <= u / v <= 1.0
    ensures u / v == 0.0 <==> u == 0.0
  {
    var q := u / v;
    assert q * v == u;
  }

  /** For a least-squares line R squared lies in [0, 1], and it is 1 exactly when
      the line goes through every point. */
  lemma {:induction false} DeterminationRange(ps: seq<Point>, fixed: real, slope: real, mean: real)
    requires LeastSquares(ps, fixed, slope)
    ensures 0.0 <= Determination(SquaredError(ps, mean, 0.0), SquaredError(ps, fixed, slope)) <= 1.0
    ensures Determination(SquaredError(ps, mean, 0.0), SquaredError(ps, fixed, slope)) == 1.0
       <==> OnLine(ps, fixed, slope)
  {
    var total, rest := SquaredError(ps, mean, 0.0), SquaredError(ps, fixed, slope);
    SquaredErrorSign(ps, mean, 0.0);
    SquaredErrorSign(ps, fixed, slope);
    assert rest <= total;
    if total > 0.0 {
      QuotientRange(rest, total);
    }
  }

  // ---------- the fit ----------

  lemma {:induction false} MomentsCount(ps: seq<Point>)
    ensures MomentsOf(ps).n == |ps| as real
  {
    if ps == [] {
    } else {
      MomentsCount(ps[..|ps| - 1]);
    }
  }

  /** The first pass. */
  method SumUp(points: seq<Point>) returns (m: Moments)
    ensures m == MomentsOf(points)
  {
    var sx, sy, sxx, sxy := 0.0, 0.0, 0.0, 0.0;
    for i := 0 to |points|
      invariant Moments(i as real, sx, sy, sxx, sxy) == MomentsOf(points[..i])
    {
      var p := points[i];
      assert points[..i + 1][..i] == points[..i];
      sx, sy, sxx, sxy := sx + p.x, sy + p.y, sxx + p.x * p.x, sxy + p.x * p.y;
    }
    assert points[..|points|] == points;
    m := Moments(|points| as real, sx, sy, sxx, sxy);
  }

  /** The total and residual sums of squares of the second pass. */
  method SumErrors(points: seq<Point>, fixedMs: real, perUnitMs: real, meanY: real)
    returns (ssTot: real, ssRes: real)
    ensures ssTot == SquaredError(points, meanY, 0.0)
    ensures ssRes == SquaredError(points, fixedMs, perUnitMs)
  {
    ssTot, ssRes := 0.0, 0.0;
    for i := 0 to |points|
      invariant ssTot == SquaredError(points[..i], meanY, 0.0)
      invariant ssRes == SquaredError(points[..i], fixedMs, perUnitMs)
    {
      var pred := Line(fixedMs, perUnitMs, points[i].x);
      assert points[..i + 1][..i] == points[..i];
      assert Residual(points[i], meanY, 0.0) == points[i].y - meanY;
      ssTot := ssTot + Square(points[i].y - meanY);
      ssRes := ssRes + Square(points[i].y - pred);
    }
    assert points[..|points|] == points;
  }

  lemma {:induction false} DivideBack(u: real, v: real)
    requires v != 0.0
    ensures u / v * v == u
  {
  }

  /** The branch without a slope: the mean ordinate. */
  lemma {:induction false} MeanIsLeastSquares(points: seq<Point>)
    requires points != [] && AllXEqual(points)
    ensures MomentsOf(points).n != 0.0
    ensures LeastSquares(points, MomentsOf(points).y / MomentsOf(points).n, 0.0)
  {
    var m := MomentsOf(points);
    MomentsCount(points);
    EqualXConcentrates(points, points[0].x);
    DivideBack(m.y, m.n);
    ConcentratedMean(m, points[0].x, m.y / m.n);
    NormalEquationsSuffice(points, m.y / m.n, 0.0);
  }

  /** The closed form with a slope, as functions of the sums. */
  function ClosedSlope(m: Moments): real
    requires Denominator(m) != 0.0
  {
    (m.n * m.xy - m.x * m.y) / Denominator(m)
  }

  function ClosedIntercept(m: Moments, slope: real): real
    requires m.n != 0.0
  {
    (m.y - slope * m.x) / m.n
  }

  lemma {:induction false} ClosedFormMeetsNormalEquations(m: Moments)
    requires m.n != 0.0 && Denominator(m) != 0.0
    ensures NormalEquations(m, ClosedIntercept(m, ClosedSlope(m)), ClosedSlope(m))
  {
    var slope := ClosedSlope(m);
    DivideBack(m.n * m.xy - m.x * m.y, Denominator(m));
    DivideBack(m.y - slope * m.x, m.n);
    ClosedFormWithSlope(m, slope, ClosedIntercept(m, slope));
  }

  /** What the fit promises of a line over points with two different abscissas. */
  ghost predicate OnlyLeastSquares(points: seq<Point>, fixed: real, slope: real) {
    && LeastSquares(points, fixed, slope)
    && forall a: real, b: real :: LeastSquares(points, a, b) ==> a == fixed && b == slope
  }

  lemma {:induction false} ClosedFormIsLeastSquares(points: seq<Point>, m: Moments)
    requires !AllXEqual(points) && m == MomentsOf(points)
    requires m.n != 0.0 && Denominator(m) != 0.0
    ensures OnlyLeastSquares(points, ClosedIntercept(m, ClosedSlope(m)), ClosedSlope(m))
  {
    ClosedFormMeetsNormalEquations(m);
    var slope := ClosedSlope(m);
    var fixed := ClosedIntercept(m, slope);
    NormalEquationsSuffice(points, fixed, slope);
    forall a: real, b: real | LeastSquares(points, a, b) ensures a == fixed && b == slope {
      LeastSquaresUnique(points, fixed, slope, a, b);
    }
  }

  /** The fit: four sums in one pass, the closed form, two error sums in a second
      pass.  Both branches return a least-squares line; with two different
      abscissas it is the only one. */
  method Compute(points: seq<Point>) returns (fit: Fit)
    ensures points == [] ==> fit == Fit(NaN, 0.0, 0.0)
    ensures points != [] ==> fit.fixedMs.Finite? && LeastSquares(points, fit.fixedMs.value, fit.perUnitMs)
    ensures points != [] && AllXEqual(points) ==> fit.perUnitMs == 0.0 && fit.r2 == 0.0
    ensures 0.0 <= fit.r2 <= 1.0
    ensures !AllXEqual(points) ==> (fit.r2 == 1.0 <==> OnLine(points, fit.fixedMs.value, fit.perUnitMs))
    ensures !AllXEqual(points) ==> OnlyLeastSquares(points, fit.fixedMs.value, fit.perUnitMs)
  {
    var m := SumUp(points);
    MomentsCount(points);
    DenominatorSign(points);
    if Denominator(m) == 0.0 {
      if points == [] {
        return Fit(NaN, 0.0, 0.0);
      }
      MeanIsLeastSquares(points);
      return Fit(Finite(m.y / m.n), 0.0, 0.0);
    }
    var perUnitMs := ClosedSlope(m);
    var fixedMs := ClosedIntercept(m, perUnitMs);
    ClosedFormIsLeastSquares(points, m);
    var meanY := m.y / m.n;
    var ssTot, ssRes := SumErrors(points, fixedMs, perUnitMs, meanY);
    DeterminationRange(points, fixedMs, perUnitMs, meanY);
    fit := Fit(Finite(fixedMs), perUnitMs, Determination(ssTot, ssRes));
  }
}
