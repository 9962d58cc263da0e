/** Least squares over the reals, as backend/app/core/capacity_forecast.py:64-70
    computes it: the slope from the products of the deviations from the means. */
module Regression {

  function SumTo(s: seq<real>, n: nat): real
    requires n <= |s|
  {
    if n == 0 then 0.0 else SumTo(s, n - 1) + s[n - 1]
  }

  function Sum(s: seq<real>): real { SumTo(s, |s|) }

  function Times(a: real, b: real): real { a * b }

  function DotTo(p: seq<real>, q: seq<real>, n: nat): real
    requires n <= |p| == |q|
  {
    if n == 0 then 0.0 else DotTo(p, q, n - 1) + Times(p[n - 1], q[n - 1])
  }

  /** The sum of the products of two samples, pair by pair. */
  function Dot(p: seq<real>, q: seq<real>): real
    requires |p| == |q|
  {
    DotTo(p, q, |p|)
  }

  function Minus(p: seq<real>, q: seq<real>): (r: seq<real>)
    requires |p| == |q|
    ensures |r| == |p| && forall i :: 0 <= i < |p| ==> r[i] == p[i] - q[i]
  {
    seq(|p|, i requires 0 <= i < |p| => p[i] - q[i])
  }

  function Mean(s: seq<real>): real
    requires s != []
  {
    Sum(s) / (|s| as real)
  }

  function Deviations(s: seq<real>): (r: seq<real>)
    requires s != []
    ensures |r| == |s| && forall i :: 0 <= i < |s| ==> r[i] == s[i] - Mean(s)
  {
    seq(|s|, i requires 0 <= i < |s| => s[i] - Mean(s))
  }

  /** The denominator of the slope. */
  function Spread(xs: seq<real>): real
    requires xs != []
  {
    Dot(Deviations(xs), Deviations(xs))
  }

  function Slope(xs: seq<real>, ys: seq<real>): real
    requires |xs| == |ys| > 0
  {
    if Spread(xs) != 0.0 then Dot(Deviations(xs), Deviations(ys)) / Spread(xs) else 0.0
  }

  /** The values of the line `a + b * x`. */
  function Line(xs: seq<real>, a: real, b: real): (r: seq<real>)
    ensures |r| == |xs| && forall i :: 0 <= i < |xs| ==> r[i] == a + b * xs[i]
  {
    seq(|xs|, i requires 0 <= i < |xs| => a + b * xs[i])
  }

  function Intercept(xs: seq<real>, ys: seq<real>): real
    requires |xs| == |ys| > 0
  {
    Mean(ys) - Slope(xs, ys) * Mean(xs)
  }

  /** The line through the means with the computed slope. */
  function Best(xs: seq<real>, ys: seq<real>): (r: seq<real>)
    requires |xs| == |ys| > 0
    ensures |r| == |xs|
  {
    Line(xs, Intercept(xs, ys), Slope(xs, ys))
  }

  /** The squared distance of two samples: of the readings from a line, or of one
      line from another. */
  function Distance(p: seq<real>, q: seq<real>): real
    requires |p| == |q|
  {
    Dot(Minus(p, q), Minus(p, q))
  }

  // ---------- Sums of products ----------

  lemma {:induction false} SignOfProduct(a: real, b: real)
    ensures (a > 0.0 && b > 0.0) || (a < 0.0 && b < 0.0) ==> Times(a, b) > 0.0
    ensures a == 0.0 ==> Times(a, b) == 0.0
  {}

  lemma {:induction false} SquaresAreNotNegative(p: seq<real>, n: nat)
    requires n <= |p|
    ensures DotTo(p, p, n) >= 0.0
  {
    if n > 0 {
      SquaresAreNotNegative(p, n - 1);
      SignOfProduct(p[n - 1], p[n - 1]);
    }
  }

  lemma {:induction false} OnlyZeroIsSquaredToZero(p: seq<real>, k: nat, n: nat)
    requires k < n <= |p| && p[k] != 0.0
    ensures DotTo(p, p, n) > 0.0
  {
    SquaresAreNotNegative(p, n - 1);
    SignOfProduct(p[n - 1], p[n - 1]);
    if k < n - 1 { OnlyZeroIsSquaredToZero(p, k, n - 1); }
  }

  lemma {:induction false} Distribute(d: real, b: real, r: real, u: real, w: real, s: real, t: real)
    requires w == d + b * u
    ensures (d * s + b * t) + Times(r, w) == d * (s + r) + b * (t + Times(r, u))
  {
    assert r * w == d * r + b * (r * u);
  }

  lemma {:induction false} DotOfLine(r: seq<real>, u: seq<real>, d: real, b: real, w: seq<real>, n: nat)
    requires n <= |r| == |u| == |w| && forall i :: 0 <= i < |w| ==> w[i] == d + b * u[i]
    ensures DotTo(r, w, n) == d * SumTo(r, n) + b * DotTo(r, u, n)
  {
    if n > 0 {
      DotOfLine(r, u, d, b, w, n - 1);
      Distribute(d, b, r[n - 1], u[n - 1], w[n - 1], SumTo(r, n - 1), DotTo(r, u, n - 1));
    }
  }

  lemma {:induction false} SumOfResiduals(v: seq<real>, u: seq<real>, s: real, r: seq<real>, n: nat)
    requires n <= |v| == |u| == |r| && forall i :: 0 <= i < |r| ==> r[i] == v[i] - s * u[i]
    ensures SumTo(r, n) == SumTo(v, n) - s * SumTo(u, n)
  {
    if n > 0 {
      SumOfResiduals(v, u, s, r, n - 1);
      assert s * (SumTo(u, n - 1) + u[n - 1]) == s * SumTo(u, n - 1) + s * u[n - 1];
    }
  }

  lemma {:induction false} DotOfResiduals(v: seq<real>, u: seq<real>, s: real, r: seq<real>, n: nat)
    requires n <= |v| == |u| == |r| && forall i :: 0 <= i < |r| ==> r[i] == v[i] - s * u[i]
    ensures DotTo(r, u, n) == DotTo(u, v, n) - s * DotTo(u, u, n)
  {
    if n > 0 {
      DotOfResiduals(v, u, s, r, n - 1);
      AddResidual(DotTo(u, v, n - 1), DotTo(u, u, n - 1), s, v[n - 1], u[n - 1], r[n - 1]);
    }
  }

  lemma {:induction false} AddResidual(uv: real, uu: real, s: real, v: real, u: real, r: real)
    requires r == v - s * u
    ensures (uv - s * uu) + Times(r, u) == (uv + Times(u, v)) - s * (uu + Times(u, u))
  {}

  lemma {:induction false} OneMoreTimes(n: nat, c: real)
    ensures ((n + 1) as real) * c == (n as real) * c + c
  {
    assert (n + 1) as real == n as real + 1.0;
    assert (n as real + 1.0) * c == (n as real) * c + c;
  }

  /** Deviations from a centre add up to the sum less that many centres. */
  lemma {:induction false} SumOfShifted(s: seq<real>, c: real, u: seq<real>, n: nat)
    requires n <= |u| == |s| && forall i :: 0 <= i < |s| ==> u[i] == s[i] - c
    ensures SumTo(u, n) == SumTo(s, n) - (n as real) * c
  {
    if n > 0 {
      SumOfShifted(s, c, u, n - 1);
      OneMoreTimes(n - 1, c);
    }
  }

  lemma {:induction false} Quotient(a: real, b: real)
    requires b != 0.0
    ensures a / b * b == a && b * (a / b) == a
  {
    var q := a / b;
    assert q * b == a;
    assert b * q == q * b;
  }

  lemma {:induction false} DeviationsCancel(s: seq<real>)
    requires s != []
    ensures Sum(Deviations(s)) == 0.0
  {
    SumOfShifted(s, Mean(s), Deviations(s), |s|);
    Quotient(Sum(s), |s| as real);
  }

  lemma {:induction false} SquareOfSum(p: real, q: real)
    ensures Times(p + q, p + q) == Times(p, p) + Times(q, q) + 2.0 * Times(p, q)
  {}

  lemma {:induction false} DistanceSplits(p: seq<real>, q: seq<real>, r: seq<real>, n: nat)
    requires n <= |p| == |q| == |r| && forall i :: 0 <= i < |r| ==> r[i] == p[i] + q[i]
    ensures DotTo(r, r, n) == DotTo(p, p, n) + DotTo(q, q, n) + 2.0 * DotTo(p, q, n)
  {
    if n > 0 {
      DistanceSplits(p, q, r, n - 1);
      SquareOfSum(p[n - 1], q[n - 1]);
    }
  }

  // ---------- The normal equations ----------

  lemma {:induction false} ResidualAt(x: real, y: real, mx: real, my: real, s: real)
    ensures y - ((my - s * mx) + s * x) == (y - my) - s * (x - mx)
  {}

  /** The residuals of the regression line, in terms of the deviations. */
  lemma {:induction false} ResidualsOfBest(xs: seq<real>, ys: seq<real>) returns (s: real)
    requires |xs| == |ys| > 0 && Spread(xs) != 0.0
    ensures s == Slope(xs, ys) && s * Spread(xs) == Dot(Deviations(xs), Deviations(ys))
    ensures forall i :: 0 <= i < |xs| ==> Minus(ys, Best(xs, ys))[i] == Deviations(ys)[i] - s * Deviations(xs)[i]
  {
    s := Slope(xs, ys);
    Quotient(Dot(Deviations(xs), Deviations(ys)), Spread(xs));
    forall i | 0 <= i < |xs| ensures Minus(ys, Best(xs, ys))[i] == Deviations(ys)[i] - s * Deviations(xs)[i] {
      ResidualAt(xs[i], ys[i], Mean(xs), Mean(ys), s);
    }
  }

  lemma {:induction false} ResidualsCancel(v: seq<real>, u: seq<real>, s: real, r: seq<real>)
    requires |v| == |u| == |r| && Sum(v) == 0.0 && Sum(u) == 0.0 && s * Dot(u, u) == Dot(u, v)
    requires forall i :: 0 <= i < |r| ==> r[i] == v[i] - s * u[i]
    ensures Sum(r) == 0.0 && Dot(r, u) == 0.0
  {
    SumOfResiduals(v, u, s, r, |r|);
    DotOfResiduals(v, u, s, r, |r|);
  }

  /** The residuals of the regression line cancel, and cancel against the
      abscissae too. */
  lemma {:induction false} NormalEquations(xs: seq<real>, ys: seq<real>)
    requires |xs| == |ys| > 0 && Spread(xs) != 0.0
    ensures Sum(Minus(ys, Best(xs, ys))) == 0.0
    ensures Dot(Minus(ys, Best(xs, ys)), Deviations(xs)) == 0.0
  {
    var s := ResidualsOfBest(xs, ys);
    DeviationsCancel(xs);
    DeviationsCancel(ys);
    ResidualsCancel(Deviations(ys), Deviations(xs), s, Minus(ys, Best(xs, ys)));
  }

  lemma {:induction false} Orthogonal(r: seq<real>, w: seq<real>, u: seq<real>, d: real, b: real, q: seq<real>)
    requires |r| == |w| == |u| == |q| && Sum(r) == 0.0 && Dot(r, u) == 0.0
    requires forall i :: 0 <= i < |w| ==> w[i] == d + b * u[i]
    requires forall i :: 0 <= i < |q| ==> q[i] == r[i] + w[i]
    ensures Dot(q, q) == Dot(r, r) + Dot(w, w)
  {
    DotOfLine(r, u, d, b, w, |r|);
    DistanceSplits(r, w, q, |r|);
  }

  lemma {:induction false} DifferenceOfLines(x: real, mx: real, a: real, b: real, my: real, s: real)
    ensures ((my - s * mx) + s * x) - (a + b * x) == (my - a - b * mx) + (s - b) * (x - mx)
  {}

  lemma {:induction false} GapAt(xs: seq<real>, ys: seq<real>, a: real, b: real, s: real, d: real, e: real, i: nat)
    requires |xs| == |ys| && i < |xs| && s == Slope(xs, ys) && d == Mean(ys) - a - b * Mean(xs) && e == s - b
    ensures Minus(Best(xs, ys), Line(xs, a, b))[i] == d + e * Deviations(xs)[i]
  {
    DifferenceOfLines(xs[i], Mean(xs), a, b, Mean(ys), s);
  }

  /** The regression line and any other differ by a line in the deviations. */
  lemma {:induction false} GapBetweenLines(xs: seq<real>, ys: seq<real>, a: real, b: real) returns (d: real, e: real)
    requires |xs| == |ys| > 0
    ensures forall i :: 0 <= i < |xs| ==> Minus(Best(xs, ys), Line(xs, a, b))[i] == d + e * Deviations(xs)[i]
  {
    d, e := Mean(ys) - a - b * Mean(xs), Slope(xs, ys) - b;
    forall i: nat | i < |xs| ensures Minus(Best(xs, ys), Line(xs, a, b))[i] == d + e * Deviations(xs)[i] {
      GapAt(xs, ys, a, b, Slope(xs, ys), d, e, i);
    }
  }

  /** Any line misses the readings by as much as the regression line does, plus
      its own distance from the regression line. */
  lemma {:induction false} ErrorOfAnyLine(xs: seq<real>, ys: seq<real>, a: real, b: real)
    requires |xs| == |ys| > 0 && Spread(xs) != 0.0
    ensures Distance(ys, Line(xs, a, b)) == Distance(ys, Best(xs, ys)) + Distance(Best(xs, ys), Line(xs, a, b))
  {
    var m, l := Best(xs, ys), Line(xs, a, b);
    var d, e := GapBetweenLines(xs, ys, a, b);
    NormalEquations(xs, ys);
    Orthogonal(Minus(ys, m), Minus(m, l), Deviations(xs), d, e, Minus(ys, l));
  }

  lemma {:induction false} TwoPointsFixALine(x: real, y: real, a: real, b: real, c: real, d: real)
    requires x != y && a + b * x == c + d * x && a + b * y == c + d * y
    ensures a == c && b == d
  {
    var u, v := b - d, x - y;
    assert u * v == 0.0;
    assert u == u * v / v;
  }

  lemma {:induction false} DifferentSamplesAreApart(p: seq<real>, q: seq<real>, i: nat)
    requires |p| == |q| && i < |p|
    ensures Distance(p, q) >= 0.0
    ensures Distance(p, q) == 0.0 ==> p[i] == q[i]
  {
    var w := Minus(p, q);
    SquaresAreNotNegative(w, |w|);
    if w[i] != 0.0 { OnlyZeroIsSquaredToZero(w, i, |w|); }
  }

  lemma {:induction false} SpreadIsPositive(xs: seq<real>, i: nat, j: nat)
    requires i < |xs| && j < |xs| && xs[i] != xs[j]
    ensures Spread(xs) > 0.0
  {
    OnlyZeroIsSquaredToZero(Deviations(xs), if xs[i] != Mean(xs) then i else j, |xs|);
  }

  lemma {:induction false} ZeroVector(p: seq<real>, n: nat)
    requires n <= |p| && forall i :: 0 <= i < |p| ==> p[i] == 0.0
    ensures DotTo(p, p, n) == 0.0
  {
    if n > 0 {
      SignOfProduct(p[n - 1], p[n - 1]);
      ZeroVector(p, n - 1);
    }
  }

  /** Two lines are no distance apart exactly when they are the same line. */
  lemma {:induction false} LinesApart(xs: seq<real>, i: nat, j: nat, a: real, b: real, c: real, d: real)
    requires i < |xs| && j < |xs| && xs[i] != xs[j]
    ensures Distance(Line(xs, a, b), Line(xs, c, d)) >= 0.0
    ensures Distance(Line(xs, a, b), Line(xs, c, d)) == 0.0 <==> a == c && b == d
  {
    var p, q := Line(xs, a, b), Line(xs, c, d);
    DifferentSamplesAreApart(p, q, i);
    DifferentSamplesAreApart(p, q, j);
    if p[i] == q[i] && p[j] == q[j] { TwoPointsFixALine(xs[i], xs[j], a, b, c, d); }
    if a == c && b == d { ZeroVector(Minus(p, q), |p|); }
  }

  /** The regression line misses the readings least of all lines, and it is the
      only one that misses them that little. */
  lemma {:induction false} LeastSquares(xs: seq<real>, ys: seq<real>, i: nat, j: nat, a: real, b: real)
    requires |xs| == |ys| && i < |xs| && j < |xs| && xs[i] != xs[j]
    ensures Distance(ys, Best(xs, ys)) <= Distance(ys, Line(xs, a, b))
    ensures Distance(ys, Best(xs, ys)) == Distance(ys, Line(xs, a, b)) <==> a == Intercept(xs, ys) && b == Slope(xs, ys)
  {
    SpreadIsPositive(xs, i, j);
    ErrorOfAnyLine(xs, ys, a, b);
    LinesApart(xs, i, j, Intercept(xs, ys), Slope(xs, ys), a, b);
  }
}
