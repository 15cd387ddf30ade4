/** The least-squares line through beep timestamp errors (`_beep_error_fit`). */
module BeepFit {

  type Vector = seq<real>

  /** Sum of the products, position by position. */
  function Dot(v: Vector, w: Vector): real
    requires |v| == |w|
  {
    if v == [] then 0.0 else v[0] * w[0] + Dot(v[1..], w[1..])
  }

  function Add(v: Vector, w: Vector): (u: Vector)
    requires |v| == |w|
    ensures |u| == |v|
  {
    if v == [] then [] else [v[0] + w[0]] + Add(v[1..], w[1..])
  }

  function Scale(k: real, v: Vector): (u: Vector)
    ensures |u| == |v|
  {
    if v == [] then [] else [k * v[0]] + Scale(k, v[1..])
  }

  function Ones(n: nat): (u: Vector)
    ensures |u| == n
  {
    if n == 0 then [] else [1.0] + Ones(n - 1)
  }

  function Sum(v: Vector): real {
    if v == [] then 0.0 else v[0] + Sum(v[1..])
  }

  /** Of an empty vector the source has no mean; nothing below asks for one. */
  function Mean(v: Vector): real {
    if v == [] then 0.0 else Sum(v) / |v| as real
  }

  /** Every component less `m`. */
  function Less(v: Vector, m: real): (u: Vector)
    ensures |u| == |v|
  {
    if v == [] then [] else [v[0] - m] + Less(v[1..], m)
  }

  function Centred(v: Vector): (u: Vector)
    ensures |u| == |v|
  {
    Less(v, Mean(v))
  }

  /** `y - (intercept + slope * x)` for every point. */
  function Residuals(x: Vector, y: Vector, intercept: real, slope: real): (r: Vector)
    requires |x| == |y|
    ensures |r| == |x|
  {
    if x == [] then []
    else [y[0] - (intercept + slope * x[0])] + Residuals(x[1..], y[1..], intercept, slope)
  }

  function SquaredError(x: Vector, y: Vector, intercept: real, slope: real): real
    requires |x| == |y|
  {
    var r := Residuals(x, y, intercept, slope);
    Dot(r, r)
  }

  ghost predicate StrictlyIncreasing(x: Vector) {
    forall i, j :: 0 <= i < j < |x| ==> x[i] < x[j]
  }

  function Sxx(x: Vector): real {
    Dot(Centred(x), Centred(x))
  }

  function Slope(x: Vector, y: Vector): real
    requires |x| == |y| && Sxx(x) != 0.0
  {
    Dot(Centred(x), Centred(y)) / Sxx(x)
  }

  function Intercept(x: Vector, y: Vector): real
    requires |x| == |y| && Sxx(x) != 0.0
  {
    Mean(y) - Slope(x, y) * Mean(x)
  }

  datatype Fit = Fit(intercept: real, slope: real, spanChange: real, squared: real)

  function BeepErrorFit(hours: Vector, errors: Vector): Fit
    requires |hours| == |errors| > 0 && Sxx(hours) != 0.0
  {
    var slope, intercept := Slope(hours, errors), Intercept(hours, errors);
    Fit(intercept, slope, slope * (hours[|hours| - 1] - hours[0]), SquaredError(hours, errors, intercept, slope))
  }

  // ---- the dot product is bilinear ----

  lemma {:induction false} DotCommutes(v: Vector, w: Vector)
    requires |v| == |w|
    ensures Dot(v, w) == Dot(w, v)
  {
    if v != [] {
      DotCommutes(v[1..], w[1..]);
    }
  }

  lemma {:induction false} DotAdds(u: Vector, v: Vector, w: Vector)
    requires |u| == |v| == |w|
    ensures Dot(Add(u, v), w) == Dot(u, w) + Dot(v, w)
  {
    if u != [] {
      DotAdds(u[1..], v[1..], w[1..]);
      Distribute(w[0], u[0], v[0]);
    }
  }

  lemma Distribute(k: real, a: real, b: real)
    ensures (a + b) * k == a * k + b * k && k * (a + b) == k * a + k * b
  {
  }

  lemma {:induction false} DotScales(k: real, v: Vector, w: Vector, d: real)
    requires |v| == |w| && Dot(v, w) == d
    ensures Dot(Scale(k, v), w) == k * d
  {
    if v != [] {
      var e := Dot(v[1..], w[1..]);
      DotScales(k, v[1..], w[1..], e);
      Distribute(k, v[0] * w[0], e);
      assert (k * v[0]) * w[0] == k * (v[0] * w[0]);
    }
  }

  lemma {:induction false} DotWithOnes(v: Vector)
    ensures Dot(Ones(|v|), v) == Sum(v)
  {
    if v != [] {
      DotWithOnes(v[1..]);
    }
  }

  lemma {:induction false} SumOfOnes(n: nat)
    ensures Sum(Ones(n)) == n as real
  {
    if n > 0 {
      SumOfOnes(n - 1);
    }
  }

  lemma {:induction false} SquaresAreNonNegative(v: Vector)
    ensures Dot(v, v) >= 0.0
  {
    if v != [] {
      SquaresAreNonNegative(v[1..]);
      assert v[0] * v[0] >= 0.0;
    }
  }

  lemma PositiveProductPlus(a: real, b: real, d: real)
    requires a > 0.0 && b > 0.0 && d >= 0.0
    ensures a * b + d > 0.0
  {
  }

  lemma {:induction false} SquareIsPositive(v: Vector, i: nat)
    requires i < |v| && v[i] != 0.0
    ensures Dot(v, v) > 0.0
  {
    var first, rest := v[0], Dot(v[1..], v[1..]);
    SquaresAreNonNegative(v[1..]);
    if i > 0 {
      SquareIsPositive(v[1..], i - 1);
      assert first * first >= 0.0;
    } else if first > 0.0 {
      PositiveProductPlus(first, first, rest);
    } else {
      PositiveProductPlus(-first, -first, rest);
      assert (-first) * (-first) == first * first;
    }
  }

  lemma {:induction false} LessAt(v: Vector, m: real, i: nat)
    requires i < |v|
    ensures Less(v, m)[i] == v[i] - m
  {
    if i > 0 {
      LessAt(v[1..], m, i - 1);
    }
  }

  /** The denominator is positive, because the marker schedule is strictly increasing. */
  lemma SxxPositive(x: Vector)
    requires |x| >= 2 && StrictlyIncreasing(x)
    ensures Sxx(x) > 0.0
  {
    LessAt(x, Mean(x), 0);
    LessAt(x, Mean(x), 1);
    SquareIsPositive(Centred(x), if Centred(x)[0] != 0.0 then 0 else 1);
  }

  // ---- the normal equations ----

  /** `a + b * x` as a vector. */
  function Line(a: real, b: real, x: Vector): Vector {
    Add(Scale(a, Ones(|x|)), Scale(b, x))
  }

  /** The dot product with a line needs only a sum and a product. */
  lemma {:induction false} DotWithLine(a: real, b: real, x: Vector, v: Vector, s: real, p: real)
    requires |v| == |x| && s == Sum(v) && p == Dot(x, v)
    ensures Dot(Line(a, b, x), v) == a * s + b * p
  {
    DotAdds(Scale(a, Ones(|x|)), Scale(b, x), v);
    DotWithOnes(v);
    DotScales(a, Ones(|x|), v, s);
    DotScales(b, x, v, p);
  }

  lemma {:induction false} ResidualSum(x: Vector, y: Vector, a: real, b: real, n: real, sx: real)
    requires |x| == |y| && n == |x| as real && sx == Sum(x)
    ensures Sum(Residuals(x, y, a, b)) == Sum(y) - a * n - b * sx
  {
    if x != [] {
      var m, rest := n - 1.0, Sum(x[1..]);
      ResidualSum(x[1..], y[1..], a, b, m, rest);
      Distribute(a, m, 1.0);
      Distribute(b, x[0], rest);
    }
  }

  lemma {:induction false} ResidualsAreALine(x: Vector, y: Vector, a: real, b: real)
    returns (l: Vector, na: real, nb: real)
    requires |x| == |y|
    ensures na == -a && nb == -b && l == Line(na, nb, x) && Residuals(x, y, a, b) == Add(l, y)
  {
    l, na, nb := Line(-a, -b, x), -a, -b;
    if x != [] {
      var rest, c, d := ResidualsAreALine(x[1..], y[1..], a, b);
      Negate(nb, b, x[0]);
    }
  }

  lemma {:induction false} ResidualProduct(x: Vector, y: Vector, a: real, b: real, sx: real, pxx: real)
    requires |x| == |y| && sx == Sum(x) && pxx == Dot(x, x)
    ensures Dot(Residuals(x, y, a, b), x) == Dot(x, y) - a * sx - b * pxx
  {
    var l, na, nb := ResidualsAreALine(x, y, a, b);
    NegatedLineProduct(Residuals(x, y, a, b), x, y, l, na, nb, a, b, sx, pxx);
  }

  lemma {:induction false} NegatedLineProduct(r: Vector, x: Vector, y: Vector, l: Vector, na: real, nb: real, a: real,
                                              b: real, sx: real, pxx: real)
    requires |x| == |y| && sx == Sum(x) && pxx == Dot(x, x)
    requires l == Line(na, nb, x) && na == -a && nb == -b && r == Add(l, y)
    ensures Dot(r, x) == Dot(x, y) - a * sx - b * pxx
  {
    LineProduct(x, y, l, na, nb, sx, pxx);
    NegateBoth(Dot(r, x), Dot(x, y), na, nb, a, b, sx, pxx);
  }

  lemma {:induction false} LineProduct(x: Vector, y: Vector, l: Vector, a: real, b: real, sx: real, pxx: real)
    requires |x| == |y| && sx == Sum(x) && pxx == Dot(x, x) && l == Line(a, b, x)
    ensures Dot(Add(l, y), x) == a * sx + b * pxx + Dot(x, y)
  {
    DotAdds(l, y, x);
    DotWithLine(a, b, x, x, sx, pxx);
    DotCommutes(x, y);
  }

  lemma NegateBoth(d: real, pxy: real, na: real, nb: real, a: real, b: real, sx: real, pxx: real)
    requires na == -a && nb == -b && d == na * sx + nb * pxx + pxy
    ensures d == pxy - a * sx - b * pxx
  {
    Negate(na, a, sx);
    Negate(nb, b, pxx);
  }

  lemma Negate(na: real, a: real, x: real)
    requires na == -a
    ensures na * x == -(a * x)
  {
  }

  lemma {:induction false} MeanTimesCount(v: Vector)
    requires v != []
    ensures Mean(v) * |v| as real == Sum(v)
  {
  }

  lemma {:induction false} SumOfLess(v: Vector, m: real)
    ensures Sum(Less(v, m)) == Sum(v) - m * |v| as real
  {
    if v != [] {
      SumOfLess(v[1..], m);
      Distribute(m, |v[1..]| as real, 1.0);
    }
  }

  /** Taking `m` off every component of `v` takes `m * Sum(w)` off the product. */
  lemma {:induction false} LessProduct(v: Vector, m: real, w: Vector, s: real)
    requires |v| == |w| && s == Sum(w)
    ensures Dot(Less(v, m), w) == Dot(v, w) - m * s
  {
    if v != [] {
      var rest := Sum(w[1..]);
      LessProduct(v[1..], m, w[1..], rest);
      Distribute(w[0], v[0] - m, m);
      Distribute(m, w[0], rest);
    }
  }

  lemma {:induction false} LessLessProduct(x: Vector, y: Vector, mx: real, my: real, n: real, sx: real, sy: real)
    requires |x| == |y| && n == |x| as real && sx == Sum(x) && sy == Sum(y)
    requires mx * n == sx && my * n == sy
    ensures Dot(Less(x, mx), Less(y, my)) == Dot(x, y) - mx * sy
  {
    var cy := Less(y, my);
    SumOfLess(y, my);
    LessProduct(x, mx, cy, 0.0);
    DotCommutes(x, cy);
    LessProduct(y, my, x, sx);
    DotCommutes(x, y);
    Swap(mx, my, n, sx, sy);
  }

  lemma Swap(mx: real, my: real, n: real, sx: real, sy: real)
    requires mx * n == sx && my * n == sy
    ensures my * sx == mx * sy
  {
    assert my * (mx * n) == mx * (my * n);
  }

  lemma Quotient(a: real, b: real)
    requires b != 0.0
    ensures (a / b) * b == a
  {
  }

  lemma Normal(n: real, sx: real, sy: real, pxx: real, pxy: real, mx: real, my: real, a: real, b: real, s: real)
    requires mx * n == sx && my * n == sy && a == my - b * mx
    requires s == pxx - mx * sx && b * s == pxy - mx * sy
    ensures sy - a * n - b * sx == 0.0 && pxy - a * sx - b * pxx == 0.0
  {
    assert a * n == my * n - b * (mx * n);
    assert a * sx == my * sx - b * (mx * sx);
    assert b * s == b * pxx - b * (mx * sx);
    Swap(mx, my, n, sx, sy);
  }

  /** A line through the means whose slope solves the normal equation leaves residuals that sum to
      zero and are orthogonal to `x`. */
  lemma {:induction false} NormalLineIsOrthogonal(x: Vector, y: Vector, mx: real, my: real, a: real, b: real, s: real)
    requires |x| == |y| && mx * |x| as real == Sum(x) && my * |x| as real == Sum(y) && a == my - b * mx
    requires s == Dot(Less(x, mx), Less(x, mx)) && b * s == Dot(Less(x, mx), Less(y, my))
    ensures var r := Residuals(x, y, a, b);
            Sum(r) == 0.0 && Dot(r, x) == 0.0
  {
    var n, sx, sy, pxx, pxy := |x| as real, Sum(x), Sum(y), Dot(x, x), Dot(x, y);
    LessLessProduct(x, x, mx, mx, n, sx, sx);
    LessLessProduct(x, y, mx, my, n, sx, sy);
    Normal(n, sx, sy, pxx, pxy, mx, my, a, b, s);
    ResidualSum(x, y, a, b, n, sx);
    ResidualProduct(x, y, a, b, sx, pxx);
  }

  /** The fit goes through the means and solves the normal equation. */
  lemma FitSolves(x: Vector, y: Vector) returns (mx: real, my: real, a: real, b: real, s: real)
    requires |x| == |y| > 0 && Sxx(x) != 0.0
    ensures mx == Mean(x) && my == Mean(y) && s == Sxx(x)
    ensures a == BeepErrorFit(x, y).intercept && b == BeepErrorFit(x, y).slope
    ensures mx * |x| as real == Sum(x) && my * |x| as real == Sum(y) && a == my - b * mx
    ensures b * s == Dot(Centred(x), Centred(y))
  {
    mx, my, s := Mean(x), Mean(y), Sxx(x);
    a, b := BeepErrorFit(x, y).intercept, BeepErrorFit(x, y).slope;
    MeanTimesCount(x);
    MeanTimesCount(y);
    Quotient(Dot(Centred(x), Centred(y)), s);
  }

  /** Residuals of the fit sum to zero and are orthogonal to the hours. */
  lemma {:induction false} ResidualsAreOrthogonal(x: Vector, y: Vector)
    requires |x| == |y| > 0 && Sxx(x) != 0.0
    ensures var fit := BeepErrorFit(x, y);
            var r := Residuals(x, y, fit.intercept, fit.slope);
            Sum(r) == 0.0 && Dot(r, x) == 0.0
  {
    var mx, my, a, b, s := FitSolves(x, y);
    NormalLineIsOrthogonal(x, y, mx, my, a, b, s);
  }

  // ---- optimality ----

  /** Another line's residuals are the fitted ones plus a line. */
  lemma {:induction false} OtherResiduals(x: Vector, y: Vector, a: real, b: real, a': real, b': real)
    requires |x| == |y|
    ensures Residuals(x, y, a', b') == Add(Line(a - a', b - b', x), Residuals(x, y, a, b))
  {
    if x != [] {
      OtherResiduals(x[1..], y[1..], a, b, a', b');
      Distribute(x[0], b - b', b');
    }
  }

  /** No line has a smaller squared error than the fitted one. */
  lemma FitIsLeastSquares(x: Vector, y: Vector, intercept: real, slope: real)
    requires |x| == |y| > 0 && Sxx(x) != 0.0
    ensures BeepErrorFit(x, y).squared <= SquaredError(x, y, intercept, slope)
  {
    var fit := BeepErrorFit(x, y);
    var r := Residuals(x, y, fit.intercept, fit.slope);
    var l := Line(fit.intercept - intercept, fit.slope - slope, x);
    var other := Residuals(x, y, intercept, slope);
    OtherResiduals(x, y, fit.intercept, fit.slope, intercept, slope);
    DotAdds(l, r, other);
    DotAdds(l, r, l);
    DotAdds(l, r, r);
    DotCommutes(l, other);
    DotCommutes(r, other);
    DotCommutes(r, l);
    ResidualsAreOrthogonal(x, y);
    DotCommutes(x, r);
    DotWithLine(fit.intercept - intercept, fit.slope - slope, x, r, 0.0, 0.0);
    SquaresAreNonNegative(l);
  }

  // ---- uniqueness ----

  lemma {:induction false} LineAt(a: real, b: real, x: Vector, i: nat)
    requires i < |x|
    ensures |Line(a, b, x)| == |x| && Line(a, b, x)[i] == a + b * x[i]
  {
    if i > 0 {
      LineAt(a, b, x[1..], i - 1);
    }
  }

  lemma VanishingLine(a: real, b: real, u: real, v: real)
    requires u != v && a + b * u == 0.0 && a + b * v == 0.0
    ensures a == 0.0 && b == 0.0
  {
    assert b * (u - v) == 0.0;
  }

  /** Residuals that sum to zero and are orthogonal to the hours. */
  ghost predicate Orthogonal(x: Vector, r: Vector)
    requires |x| == |r|
  {
    Sum(r) == 0.0 && Dot(r, x) == 0.0
  }

  /** Only one line leaves orthogonal residuals. */
  lemma {:induction false} OneOrthogonalLine(x: Vector, y: Vector, a: real, b: real, a': real, b': real)
    requires |x| == |y| >= 2 && x[0] < x[1]
    requires Orthogonal(x, Residuals(x, y, a, b)) && Orthogonal(x, Residuals(x, y, a', b'))
    ensures a == a' && b == b'
  {
    var r, r', l := Residuals(x, y, a, b), Residuals(x, y, a', b'), Line(a - a', b - b', x);
    OtherResiduals(x, y, a, b, a', b');
    DotAdds(l, r, l);
    DotCommutes(r', l);
    DotCommutes(x, r);
    DotCommutes(x, r');
    DotCommutes(r, l);
    DotWithLine(a - a', b - b', x, r, 0.0, 0.0);
    DotWithLine(a - a', b - b', x, r', 0.0, 0.0);
    LineAt(a - a', b - b', x, 0);
    LineAt(a - a', b - b', x, 1);
    if l[0] != 0.0 {
      SquareIsPositive(l, 0);
    } else if l[1] != 0.0 {
      SquareIsPositive(l, 1);
    } else {
      VanishingLine(a - a', b - b', x[0], x[1]);
    }
  }

  // ---- the difference of two tracks ----

  function Difference(v: Vector, w: Vector): (u: Vector)
    requires |v| == |w|
    ensures |u| == |v|
  {
    if v == [] then [] else [v[0] - w[0]] + Difference(v[1..], w[1..])
  }

  lemma {:induction false} DifferenceSums(v: Vector, w: Vector, x: Vector)
    requires |x| == |v| == |w|
    ensures Sum(Difference(v, w)) == Sum(v) - Sum(w)
    ensures Dot(Difference(v, w), x) == Dot(v, x) - Dot(w, x)
  {
    if x != [] {
      DifferenceSums(v[1..], w[1..], x[1..]);
      Distribute(x[0], v[0] - w[0], w[0]);
    }
  }

  lemma {:induction false} DifferenceOfResiduals(x: Vector, v: Vector, w: Vector, a: real, b: real, c: real, d: real)
    requires |x| == |v| == |w|
    ensures Residuals(x, Difference(v, w), a - c, b - d) == Difference(Residuals(x, v, a, b), Residuals(x, w, c, d))
  {
    if x != [] {
      DifferenceOfResiduals(x[1..], v[1..], w[1..], a, b, c, d);
      Distribute(x[0], b - d, d);
    }
  }

  lemma OrthogonalDifference(x: Vector, v: Vector, w: Vector, a: real, b: real, c: real, d: real)
    requires |x| == |v| == |w|
    requires Orthogonal(x, Residuals(x, v, a, b)) && Orthogonal(x, Residuals(x, w, c, d))
    ensures Orthogonal(x, Residuals(x, Difference(v, w), a - c, b - d))
  {
    DifferenceOfResiduals(x, v, w, a, b, c, d);
    DifferenceSums(Residuals(x, v, a, b), Residuals(x, w, c, d), x);
  }

  lemma FitIsOrthogonal(x: Vector, y: Vector) returns (a: real, b: real)
    requires |x| == |y| > 0 && Sxx(x) != 0.0
    ensures a == Intercept(x, y) && b == Slope(x, y) && Orthogonal(x, Residuals(x, y, a, b))
  {
    a, b := Intercept(x, y), Slope(x, y);
    ResidualsAreOrthogonal(x, y);
  }

  /** Fitting `mic - far` gives the difference of the two fits. */
  lemma {:induction false} FitIsLinear(x: Vector, mic: Vector, far: Vector)
    requires |x| == |mic| == |far| >= 2 && StrictlyIncreasing(x) && Sxx(x) != 0.0
    ensures Slope(x, Difference(mic, far)) == Slope(x, mic) - Slope(x, far)
    ensures Intercept(x, Difference(mic, far)) == Intercept(x, mic) - Intercept(x, far)
  {
    var a1, b1 := FitIsOrthogonal(x, mic);
    var a2, b2 := FitIsOrthogonal(x, far);
    var a, b := FitIsOrthogonal(x, Difference(mic, far));
    OrthogonalDifference(x, mic, far, a1, b1, a2, b2);
    OneOrthogonalLine(x, Difference(mic, far), a, b, a1 - a2, b1 - b2);
  }
}
