/** The single-pass bar accumulator: running sums that must equal formulas over the whole
    window of ticks. Prices are exact reals and `ln` is a parameter.
 */
module BarBuilder {
  import opened Extended
  import opened Optional

  const W32: nat := 0x1_0000_0000
  const W64: nat := 0x1_0000_0000_0000_0000
  const FRAC_PI_2: real := 1.57079632679489661923

  /** One observation. */
  datatype Tick = Tick(bid: real, ask: real, vbid: nat, vask: nat, ms: int, ci: real, accepted: nat, rejected: nat)

  /** A log return and the volume of the tick that closed it. */
  datatype Ret = Ret(r: real, vol: nat)

  /** Seconds since the first tick, and the mid. */
  datatype Pt = Pt(x: real, y: real)

  type Window = seq<Tick>

  // ---- Whole-window formulas ----

  /** Counters of 32 and 64 bits. */
  function Wrap32(n: nat): nat { n % W32 }

  function Wrap64(n: nat): nat { n % W64 }

  function Mid(t: Tick): real { (t.bid + t.ask) * 0.5 }

  function Mids(w: Window): (r: seq<real>)
    ensures |r| == |w| && forall i :: 0 <= i < |w| ==> r[i] == Mid(w[i])
  {
    seq(|w|, i requires 0 <= i < |w| => Mid(w[i]))
  }

  function Seconds(from: int, to: int): real { (to - from) as real / 1000.0 }

  /** The tick that counts as the first one for tick `i`: the 32-bit tick counter starts over at
      every multiple of 2^32, so below that it is tick 0. */
  function First(i: nat): (f: nat)
    ensures f <= i
    ensures i < W32 ==> f == 0
  {
    i / W32 * W32
  }

  function PointAt(w: Window, i: nat): Pt
    requires i < |w|
  {
    Pt(Seconds(w[First(i)].ms, w[i].ms), Mid(w[i]))
  }

  function Points(w: Window): (r: seq<Pt>)
    ensures |r| == |w| && forall i :: 0 <= i < |w| ==> r[i] == PointAt(w, i)
  {
    seq(|w|, i requires 0 <= i < |w| => PointAt(w, i))
  }

  /** Products and quotients under a name of their own. */
  function Prod(a: real, b: real): real { a * b }

  function Over(a: real, b: real): real
    requires b != 0.0
  {
    a / b
  }

  /** The returns between neighbouring ticks with positive mids. */
  function Returns(ln: real -> real, w: Window): seq<Ret> {
    if |w| < 2 then []
    else
      var n := |w| - 1;
      var front := Returns(ln, w[..n]);
      if Mid(w[n - 1]) > 0.0 && Mid(w[n]) > 0.0
      then front + [Ret(ln(Over(Mid(w[n]), Mid(w[n - 1]))), w[n].vbid + w[n].vask)] else front
  }

  /** The ticks with a real book. */
  function Booked(w: Window): seq<Tick> {
    if w == [] then []
    else
      var n := |w| - 1;
      if Mid(w[n]) > 0.0 && w[n].ask > w[n].bid then Booked(w[..n]) + [w[n]] else Booked(w[..n])
  }

  function SumOf<T>(s: seq<T>, f: T -> real): real {
    if s == [] then 0.0 else SumOf(s[..|s| - 1], f) + f(s[|s| - 1])
  }

  function CountOf<T>(s: seq<T>, f: T -> nat): nat {
    if s == [] then 0 else CountOf(s[..|s| - 1], f) + f(s[|s| - 1])
  }

  function Abs(x: real): real { if x < 0.0 then -x else x }

  function Sq(x: real): real { x * x }

  function Sign(x: real): real { if x > 0.0 then 1.0 else if x < 0.0 then -1.0 else 0.0 }

  function PtX(): Pt -> real { (p: Pt) => p.x }
  function PtY(): Pt -> real { (p: Pt) => p.y }
  function PtXY(): Pt -> real { (p: Pt) => Prod(p.x, p.y) }
  function PtXX(): Pt -> real { (p: Pt) => Prod(p.x, p.x) }
  function Square(): Ret -> real { (q: Ret) => Sq(q.r) }
  function SignedVol(): Ret -> real { (q: Ret) => Prod(Sign(q.r), q.vol as real) }
  function RetVol(): Ret -> real { (q: Ret) => q.vol as real }
  function SpreadBps(): Tick -> real {
    (t: Tick) => if Mid(t) != 0.0 then Over(t.ask - t.bid, Mid(t)) * 10000.0 else 0.0
  }
  function WeightedCi(): Tick -> real { (t: Tick) => Prod(t.ci, t.accepted as real) }

  /** Products of neighbouring absolute returns. */
  function Bipower(rs: seq<Ret>): real {
    if |rs| < 2 then 0.0
    else Bipower(rs[..|rs| - 1]) + Prod(Abs(rs[|rs| - 1].r), Abs(rs[|rs| - 2].r))
  }

  function MaxAbs(rs: seq<Ret>): (m: real)
    ensures m >= 0.0
    ensures forall i :: 0 <= i < |rs| ==> Abs(rs[i].r) <= m
    ensures m == 0.0 || exists i :: 0 <= i < |rs| && Abs(rs[i].r) == m
  {
    if rs == [] then 0.0
    else
      var n := |rs| - 1;
      var m := MaxAbs(rs[..n]);
      assert forall i :: 0 <= i < n ==> rs[..n][i] == rs[i];
      if Abs(rs[n].r) > m then Abs(rs[n].r) else m
  }

  lemma {:induction false} SumSnoc<T>(s: seq<T>, x: T, f: T -> real)
    ensures SumOf(s + [x], f) == SumOf(s, f) + f(x)
  {
    assert (s + [x])[..|s|] == s;
  }

  lemma {:induction false} CountSnoc<T>(s: seq<T>, x: T, f: T -> nat)
    ensures CountOf(s + [x], f) == CountOf(s, f) + f(x)
  {
    assert (s + [x])[..|s|] == s;
  }

  // ---- Inequalities that hold of every window ----

  lemma {:induction false} AbsSquare(x: real)
    ensures Sq(Abs(x)) == Sq(x) >= 0.0
  {
  }

  lemma {:induction false} TwoProducts(a: real, b: real)
    ensures 2.0 * (a * b) <= Sq(a) + Sq(b)
  {
    assert (a - b) * (a - b) >= 0.0;
  }

  /** Bipower variation never exceeds realized variance. */
  lemma {:induction false} BipowerBelowVariance(rs: seq<Ret>)
    ensures 0.0 <= Bipower(rs)
    ensures rs != [] ==> 2.0 * Bipower(rs) + Sq(rs[|rs| - 1].r) <= 2.0 * SumOf(rs, Square())
    ensures Bipower(rs) <= SumOf(rs, Square())
  {
    if rs != [] {
      var n := |rs| - 1;
      BipowerBelowVariance(rs[..n]);
      AbsSquare(rs[n].r);
      if n > 0 {
        var a, b := Abs(rs[n].r), Abs(rs[n - 1].r);
        AbsSquare(rs[n - 1].r);
        TwoProducts(a, b);
        assert rs[..n][n - 1] == rs[n - 1];
        assert a * b >= 0.0;
      }
    }
  }

  lemma {:induction false} SquareMonotone(a: real, b: real)
    requires 0.0 <= a <= b
    ensures Sq(a) <= Sq(b)
  {
  }

  /** `n` times the square of `m`. */
  function Times2(n: nat, m: real): real { n as real * Sq(m) }

  lemma {:induction false} Times2Step(n: nat, m: real)
    ensures Times2(n + 1, m) == Times2(n, m) + Sq(m)
  {
  }

  /** The largest squared return is within the variance, which is within `n` times it. */
  lemma {:induction false} VarianceBetween(rs: seq<Ret>, m: real)
    requires m >= 0.0 && forall i :: 0 <= i < |rs| ==> Abs(rs[i].r) <= m
    ensures 0.0 <= SumOf(rs, Square()) <= Times2(|rs|, m)
    ensures forall i :: 0 <= i < |rs| ==> Sq(Abs(rs[i].r)) <= SumOf(rs, Square())
  {
    if rs != [] {
      var n := |rs| - 1;
      forall i | 0 <= i < n
        ensures Abs(rs[..n][i].r) <= m
      {
        assert rs[..n][i] == rs[i];
      }
      VarianceBetween(rs[..n], m);
      AbsSquare(rs[n].r);
      SquareMonotone(Abs(rs[n].r), m);
      Times2Step(n, m);
      hide Times2, Abs, Sq;
      forall i | 0 <= i < |rs|
        ensures Sq(Abs(rs[i].r)) <= SumOf(rs, Square())
      {
        if i < n {
          assert rs[..n][i] == rs[i];
        }
      }
    }
  }

  lemma {:induction false} MaxReturnAttained(rs: seq<Ret>)
    ensures Sq(MaxAbs(rs)) <= SumOf(rs, Square())
  {
    VarianceBetween(rs, MaxAbs(rs));
    assert Sq(0.0) == 0.0;
    hide SumOf, Abs, Sq, Times2;
    if MaxAbs(rs) != 0.0 {
      var i :| 0 <= i < |rs| && Abs(rs[i].r) == MaxAbs(rs);
    }
  }

  /** The tail indicator squared is within the realized variance, which is within `n` times it. */
  lemma {:induction false} MaxReturnBounds(rs: seq<Ret>)
    ensures Sq(MaxAbs(rs)) <= SumOf(rs, Square()) <= Times2(|rs|, MaxAbs(rs))
  {
    MaxReturnAttained(rs);
    VarianceBetween(rs, MaxAbs(rs));
    hide SumOf, Abs, MaxAbs, Times2;
  }

  /** Signed volume is within total volume. */
  lemma {:induction false} ImbalanceBounded(rs: seq<Ret>)
    ensures SumOf(rs, RetVol()) >= 0.0
    ensures -SumOf(rs, RetVol()) <= SumOf(rs, SignedVol()) <= SumOf(rs, RetVol())
  {
    if rs != [] {
      ImbalanceBounded(rs[..|rs| - 1]);
    }
  }

  // ---- The regression ----

  function Sx(p: seq<Pt>): real { SumOf(p, PtX()) }
  function Sy(p: seq<Pt>): real { SumOf(p, PtY()) }
  function Sxy(p: seq<Pt>): real { SumOf(p, PtXY()) }
  function Sxx(p: seq<Pt>): real { SumOf(p, PtXX()) }

  lemma {:induction false} CompleteSquare(n: real, sx: real, sxx: real, x: real)
    ensures n * (sxx - 2.0 * x * sx + n * x * x) == (n * sxx - sx * sx) + (sx - n * x) * (sx - n * x)
  {
    var t := n * x;
    assert n * (n * x * x) == t * t;
    assert n * (2.0 * x * sx) == 2.0 * t * sx;
  }

  lemma {:induction false} SquareNonNegative(t: real)
    ensures t * t >= 0.0
  {
  }

  lemma {:induction false} NonNegativeFactor(n: real, q: real)
    requires n >= 1.0 && n * q >= 0.0
    ensures q >= 0.0
  {
    assert q == (n * q) / n;
  }

  lemma {:induction false} CauchyStep(n: real, sx: real, sxx: real, x: real)
    requires n >= 1.0 && n * sxx - sx * sx >= 0.0
    ensures (n + 1.0) * (sxx + x * x) - (sx + x) * (sx + x) >= 0.0
  {
    var q := sxx - 2.0 * x * sx + n * x * x;
    CompleteSquare(n, sx, sxx, x);
    SquareNonNegative(sx - n * x);
    NonNegativeFactor(n, q);
    var xx := x * x;
    assert n * x * x == n * xx;
    assert (n + 1.0) * (sxx + xx) == n * sxx + n * xx + sxx + xx;
    assert (sx + x) * (sx + x) == sx * sx + 2.0 * x * sx + xx;
  }

  /** The regression denominator is never negative. */
  lemma {:induction false} DenominatorNonNegative(p: seq<Pt>)
    ensures |p| as real * Sxx(p) - Sx(p) * Sx(p) >= 0.0
  {
    if |p| == 1 {
      assert p == [] + [p[0]];
      SumSnoc([], p[0], PtX());
      SumSnoc([], p[0], PtXX());
    } else if p != [] {
      var n := |p| - 1;
      DenominatorNonNegative(p[..n]);
      CauchyStep(n as real, Sx(p[..n]), Sxx(p[..n]), p[n].x);
      assert |p| as real == n as real + 1.0;
    }
  }

  /** Squared error of the line `a + b x`. */
  function Sse(p: seq<Pt>, a: real, b: real): real {
    SumOf(p, (q: Pt) => Sq(q.y - a - b * q.x))
  }

  /** How far the line `a + b x` is from meeting the two normal equations. */
  function Residual(p: seq<Pt>, a: real, b: real): real { Sy(p) - |p| as real * a - b * Sx(p) }

  function Moment(p: seq<Pt>, a: real, b: real): real { Sxy(p) - a * Sx(p) - b * Sxx(p) }

  lemma {:induction false} PointShift(u: real, x: real, d: real, e: real)
    ensures (u - d - e * x) * (u - d - e * x)
         == u * u + (d * d + 2.0 * d * (e * x) + (e * x) * (e * x)) - 2.0 * d * u - 2.0 * (e * x) * u
  {
  }

  /** The increase of the squared error when a line is moved by `(d, e)`. */
  function Increase(n: real, sx: real, sxx: real, d: real, e: real): real {
    n * (d * d) + 2.0 * (d * e) * sx + (e * e) * sxx
  }

  /** Twice a product. */
  function Cross(c: real, r: real): real { 2.0 * c * r }

  lemma {:induction false} CrossAdd(c: real, x: real, y: real, z: real)
    requires x == y + z
    ensures Cross(c, x) == Cross(c, y) + Cross(c, z)
  {
  }

  lemma {:induction false} IncreaseStep(n: real, sx: real, sxx: real, x: real, d: real, e: real)
    ensures Increase(n + 1.0, sx + x, sxx + x * x, d, e)
         == Increase(n, sx, sxx, d, e) + d * d + 2.0 * d * (e * x) + (e * x) * (e * x)
  {
    assert (n + 1.0) * (d * d) == n * (d * d) + d * d;
    assert 2.0 * (d * e) * (sx + x) == 2.0 * (d * e) * sx + 2.0 * (d * e) * x;
    assert (e * e) * (sxx + x * x) == (e * e) * sxx + (e * e) * (x * x);
    assert (e * x) * (e * x) == (e * e) * (x * x);
    assert d * (e * x) == (d * e) * x;
  }

  lemma {:induction false} ShiftStep(n: real, sx: real, sxx: real, a: real, b: real, x: real, y: real, d: real, e: real)
    ensures var u := y - a - b * x;
            Sq(y - (a + d) - (b + e) * x)
            == Sq(u) + Increase(n + 1.0, sx + x, sxx + x * x, d, e) - Increase(n, sx, sxx, d, e)
               - Cross(d, u) - Cross(e, x * u)
  {
    var u := y - a - b * x;
    IncreaseStep(n, sx, sxx, x, d, e);
    hide Increase;
    PointShift(u, x, d, e);
    assert (b + e) * x == b * x + e * x;
    assert y - (a + d) - (b + e) * x == u - d - e * x;
    assert 2.0 * (e * x) * u == Cross(e, x * u);
  }

  lemma {:induction false} SseStep(p: seq<Pt>, a: real, b: real)
    requires p != []
    ensures var n := |p| - 1;
            Sse(p, a, b) == Sse(p[..n], a, b) + Sq(p[n].y - a - b * p[n].x)
  {
  }

  /** The increase of the squared error contributed by the last point. */
  lemma {:induction false} LastShift(p: seq<Pt>, a: real, b: real, d: real, e: real)
    requires p != []
    ensures var n, q := |p| - 1, p[|p| - 1];
            var u := q.y - a - b * q.x;
            Sq(q.y - (a + d) - (b + e) * q.x)
            == Sq(u) + Increase(|p| as real, Sx(p), Sxx(p), d, e) - Increase(n as real, Sx(p[..n]), Sxx(p[..n]), d, e)
               - Cross(d, u) - Cross(e, q.x * u)
  {
    var n, q := |p| - 1, p[|p| - 1];
    assert Sx(p) == Sx(p[..n]) + q.x && Sxx(p) == Sxx(p[..n]) + q.x * q.x && |p| as real == n as real + 1.0;
    hide Sx, Sxx, Increase, Sq, Cross;
    ShiftStep(n as real, Sx(p[..n]), Sxx(p[..n]), a, b, q.x, q.y, d, e);
  }

  lemma {:induction false} CrossLast(p: seq<Pt>, a: real, b: real, d: real, e: real)
    requires p != []
    ensures var n, q := |p| - 1, p[|p| - 1];
            var u := q.y - a - b * q.x;
            && Cross(d, Residual(p, a, b)) == Cross(d, Residual(p[..n], a, b)) + Cross(d, u)
            && Cross(e, Moment(p, a, b)) == Cross(e, Moment(p[..n], a, b)) + Cross(e, q.x * u)
  {
    var n, q := |p| - 1, p[|p| - 1];
    var u := q.y - a - b * q.x;
    ResidualStep(p, a, b);
    MomentStep(p, a, b);
    hide Residual, Moment;
    CrossAdd(d, Residual(p, a, b), Residual(p[..n], a, b), u);
    CrossAdd(e, Moment(p, a, b), Moment(p[..n], a, b), q.x * u);
    hide Cross;
  }

  lemma {:induction false} NothingShifts(a: real, b: real, d: real, e: real)
    ensures Sse([], a, b) == 0.0 && Increase(0.0, Sx([]), Sxx([]), d, e) == 0.0
    ensures Cross(d, Residual([], a, b)) == 0.0 && Cross(e, Moment([], a, b)) == 0.0
  {
    assert Sx([]) == 0.0 && Sxx([]) == 0.0 && Sy([]) == 0.0 && Sxy([]) == 0.0;
  }

  /** Squared error of a moved line, exactly. */
  lemma {:induction false} SseShift(p: seq<Pt>, a: real, b: real, d: real, e: real)
    ensures Sse(p, a + d, b + e)
         == Sse(p, a, b) + Increase(|p| as real, Sx(p), Sxx(p), d, e)
            - Cross(d, Residual(p, a, b)) - Cross(e, Moment(p, a, b))
  {
    hide Sse, Increase, Residual, Moment, Sx, Sxx, Sq, Cross;
    if p == [] {
      NothingShifts(a, b, d, e);
      NothingShifts(a + d, b + e, d, e);
    } else {
      SseShift(p[..|p| - 1], a, b, d, e);
      SseStep(p, a, b);
      SseStep(p, a + d, b + e);
      LastShift(p, a, b, d, e);
      CrossLast(p, a, b, d, e);
    }
  }

  lemma {:induction false} ResidualStep(p: seq<Pt>, a: real, b: real)
    requires p != []
    ensures var n := |p| - 1;
            Residual(p, a, b) == Residual(p[..n], a, b) + (p[n].y - a - b * p[n].x)
  {
    var n := |p| - 1;
    assert |p| as real * a == n as real * a + a;
    assert b * Sx(p) == b * Sx(p[..n]) + b * p[n].x;
  }

  lemma {:induction false} MomentStep(p: seq<Pt>, a: real, b: real)
    requires p != []
    ensures var n := |p| - 1;
            Moment(p, a, b) == Moment(p[..n], a, b) + p[n].x * (p[n].y - a - b * p[n].x)
  {
    var n := |p| - 1;
    var x := p[n].x;
    assert a * Sx(p) == a * Sx(p[..n]) + a * x;
    assert b * Sxx(p) == b * Sxx(p[..n]) + b * (x * x);
    assert x * (p[n].y - a - b * x) == x * p[n].y - a * x - b * (x * x);
  }

  lemma {:induction false} IncreaseNonNegative(n: real, sx: real, sxx: real, d: real, e: real)
    requires n >= 1.0 && n * sxx - sx * sx >= 0.0
    ensures Increase(n, sx, sxx, d, e) >= 0.0
  {
    var i := Increase(n, sx, sxx, d, e);
    var g := n * d + e * sx;
    assert n * i == g * g + (e * e) * (n * sxx - sx * sx) by {
      var nd, es := n * d, e * sx;
      assert n * (n * (d * d)) == nd * nd;
      assert n * (2.0 * (d * e) * sx) == 2.0 * nd * es;
      assert (e * e) * (sx * sx) == es * es;
      assert n * ((e * e) * sxx) == (e * e) * (n * sxx);
      assert (e * e) * (n * sxx - sx * sx) == (e * e) * (n * sxx) - (e * e) * (sx * sx);
      assert g * g == nd * nd + 2.0 * nd * es + es * es;
    }
    assert g * g >= 0.0 && e * e >= 0.0;
    assert (e * e) * (n * sxx - sx * sx) >= 0.0;
    NonNegativeFactor(n, i);
  }

  /** A line meeting both normal equations minimizes the squared error. */
  lemma {:induction false} NormalEquationsMinimize(p: seq<Pt>, a: real, b: real, a': real, b': real)
    requires p != [] && Residual(p, a, b) == 0.0 && Moment(p, a, b) == 0.0
    ensures Sse(p, a, b) <= Sse(p, a', b')
  {
    var d, e := a' - a, b' - b;
    SseShift(p, a, b, d, e);
    DenominatorNonNegative(p);
    IncreaseNonNegative(|p| as real, Sx(p), Sxx(p), d, e);
    assert a + d == a' && b + e == b';
  }

  /** The denominator and slope the flush computes from its running sums. */
  function Denominator(n: real, sx: real, sxx: real): real
    requires n != 0.0
  {
    sxx - n * (sx / n) * (sx / n)
  }

  function Slope(n: real, sx: real, sy: real, sxy: real, sxx: real): real
    requires n != 0.0 && Denominator(n, sx, sxx) != 0.0
  {
    (sxy - n * (sx / n) * (sy / n)) / Denominator(n, sx, sxx)
  }

  function FitSlope(p: seq<Pt>): real
    requires p != [] && Denominator(|p| as real, Sx(p), Sxx(p)) != 0.0
  {
    Slope(|p| as real, Sx(p), Sy(p), Sxy(p), Sxx(p))
  }

  function FitIntercept(p: seq<Pt>): real
    requires p != [] && Denominator(|p| as real, Sx(p), Sxx(p)) != 0.0
  {
    Sy(p) / |p| as real - FitSlope(p) * (Sx(p) / |p| as real)
  }

  /** The flushed slope is that of the least-squares line through the window's points. */
  lemma {:induction false} SlopeIsLeastSquares(p: seq<Pt>, a: real, b: real)
    requires p != [] && Denominator(|p| as real, Sx(p), Sxx(p)) != 0.0
    ensures Sse(p, FitIntercept(p), FitSlope(p)) <= Sse(p, a, b)
  {
    MeetsNormalEquations(|p| as real, Sx(p), Sy(p), Sxy(p), Sxx(p));
    NormalEquationsMinimize(p, FitIntercept(p), FitSlope(p), a, b);
  }

  lemma {:induction false} MeetsNormalEquations(n: real, sx: real, sy: real, sxy: real, sxx: real)
    requires n >= 1.0 && Denominator(n, sx, sxx) != 0.0
    ensures var b := Slope(n, sx, sy, sxy, sxx);
            var a := sy / n - b * (sx / n);
            sy - n * a - b * sx == 0.0 && sxy - a * sx - b * sxx == 0.0
  {
    var xm, ym := sx / n, sy / n;
    Quotient(sx, n);
    Quotient(sy, n);
    var den := Denominator(n, sx, sxx);
    var num := sxy - n * xm * ym;
    var b := num / den;
    var a := ym - b * xm;
    Quotient(num, den);
    assert n * xm * xm == sx * xm && n * xm * ym == sx * ym;
    assert n * a == n * ym - b * (n * xm) by {
      assert n * (b * xm) == b * (n * xm);
    }
    assert a * sx == ym * sx - b * (sx * xm) by {
      assert (b * xm) * sx == b * (sx * xm);
    }
    assert b * (sxx - sx * xm) == b * sxx - b * (sx * xm);
    assert sy - n * a - b * sx == 0.0;
    assert den == sxx - sx * xm && num == sxy - sx * ym && b * den == num;
    assert sxy - a * sx - b * sxx == 0.0;
  }

  lemma {:induction false} Quotient(x: real, n: real)
    requires n != 0.0
    ensures n * (x / n) == x
  {
  }

  // ---- The bar of a whole window ----

  /** A finished bar; `None` spread means no book was seen. Rounding to storage widths is left out. */
  datatype Bar = Bar(openMs: int, closeMs: int, open: real, high: real, low: real, close: real,
                     vbid: nat, vask: nat, ticks: nat,
                     realizedVar: real, bipowerVar: real, drift: real, volImbalance: real,
                     avgSpreadBps: Option<real>, maxAbsReturn: real, avgCi: real, rejectRate: real)

  function BidVol(): Tick -> nat { (t: Tick) => t.vbid }
  function AskVol(): Tick -> nat { (t: Tick) => t.vask }
  function Accepted(): Tick -> nat { (t: Tick) => t.accepted }
  function Rejected(): Tick -> nat { (t: Tick) => t.rejected }

  function Clamp32(n: nat): nat { if n < W32 then n else W32 - 1 }

  /** Slope of the mid, scaled by the bar's duration and close; 0 where it is not defined. */
  function Drift(n: nat, lastX: real, close: real, sx: real, sy: real, sxy: real, sxx: real): real {
    if n >= 2 && lastX > 0.0 && Abs(close) > 0.0000000001
       && Abs(Denominator(n as real, sx, sxx)) > 0.000000000001
    then Slope(n as real, sx, sy, sxy, sxx) * lastX / close else 0.0
  }

  function Ratio(a: real, b: real): real { if b > 0.0 then a / b else 0.0 }

  /** The bar these sums make. */
  function BarFrom(openMs: int, closeMs: int, open: real, high: real, low: real, close: real, vbid: nat, vask: nat,
                   n: nat, rv: real, bipower: real, lastX: real, sx: real, sy: real, sxy: real, sxx: real,
                   ofi: real, vol: real, spread: real, books: nat, maxAbs: real,
                   ci: real, accepted: nat, rejected: nat): Bar
  {
    Bar(openMs, closeMs, open, high, low, close, Clamp32(vbid), Clamp32(vask), n, rv, bipower * FRAC_PI_2,
        Drift(n, lastX, close, sx, sy, sxy, sxx), Ratio(ofi, vol),
        if books > 0 then Some(Over(spread, books as real)) else None, maxAbs,
        Ratio(ci, accepted as real), Ratio(rejected as real, Wrap64(accepted + rejected) as real))
  }

  /** The bar a whole window makes; there is none when the 32-bit tick counter reads zero. */
  function BarOf(ln: real -> real, w: Window): Bar
    requires Wrap32(|w|) > 0
  {
    SmallWrap(|w|);
    var rs, p, last, first := Returns(ln, w), Points(w), w[|w| - 1], w[First(|w| - 1)];
    BarFrom(first.ms, last.ms, Mid(first), Highest(Mids(w)).v, Lowest(Mids(w)).v, Mid(last),
            Wrap64(CountOf(w, BidVol())), Wrap64(CountOf(w, AskVol())), Wrap32(|w|),
            SumOf(rs, Square()), Bipower(rs), p[|w| - 1].x, Sx(p), Sy(p), Sxy(p), Sxx(p),
            SumOf(rs, SignedVol()), SumOf(rs, RetVol()),
            SumOf(Booked(w), SpreadBps()), Wrap32(|Booked(w)|), MaxAbs(rs),
            SumOf(w, WeightedCi()), Wrap64(CountOf(w, Accepted())), Wrap64(CountOf(w, Rejected())))
  }

  lemma {:induction false} SmallWrap(n: nat)
    ensures Wrap32(n) > 0 ==> n > 0
    ensures n < W32 ==> Wrap32(n) == n
  {
  }

  /** Below 2^32 ticks nothing wraps: the bar opens with the window, counts every tick and every book,
      and measures every time from the first tick. */
  lemma {:induction false} BarOfWholeWindow(ln: real -> real, w: Window)
    requires 0 < |w| < W32
    ensures Wrap32(|w|) == |w|
    ensures var b, p, bk := BarOf(ln, w), Points(w), Booked(w);
            && b.openMs == w[0].ms && b.open == Mid(w[0]) && b.ticks == |w|
            && (forall i :: 0 <= i < |w| ==> p[i] == Pt(Seconds(w[0].ms, w[i].ms), Mid(w[i])))
            && b.drift == Drift(|w|, p[|w| - 1].x, b.close, Sx(p), Sy(p), Sxy(p), Sxx(p))
            && b.avgSpreadBps
               == if bk == [] then None else Some(Over(SumOf(bk, SpreadBps()), |bk| as real))
  {
    hide Booked, SumOf, Mid, Drift, Over, Wrap32, Wrap64, CountOf, Bipower, MaxAbs, Returns, Highest, Lowest, Ratio;
    hide Seconds, First;
    BookedShorter(w);
    SmallWrap(|w|);
    SmallWrap(|Booked(w)|);
  }

  lemma {:induction false} BarPrices(ln: real -> real, w: Window)
    requires Wrap32(|w|) > 0
    ensures |w| > 0 && Highest(Mids(w)).Fin? && Lowest(Mids(w)).Fin?
    ensures var b := BarOf(ln, w);
            && b.high == Highest(Mids(w)).v && b.low == Lowest(Mids(w)).v
            && b.open == Mid(w[First(|w| - 1)]) && b.close == Mid(w[|w| - 1])
  {
    hide SumOf, Bipower, MaxAbs, CountOf, Drift, Highest, Lowest, Wrap32, Wrap64, Ratio, Over, First;
    hide Returns, Points, Booked, Mid, Clamp32;
    SmallWrap(|w|);
  }

  lemma {:induction false} PriceLaws(ln: real -> real, w: Window)
    requires Wrap32(|w|) > 0
    ensures var b := BarOf(ln, w);
            b.low <= b.open <= b.high && b.low <= b.close <= b.high
  {
    hide BarOf, Wrap32, Highest, Lowest, Mids, Mid, First;
    BarPrices(ln, w);
    PricesWithin(w, First(|w| - 1));
    PricesWithin(w, |w| - 1);
  }

  lemma {:induction false} ReturnLaws(ln: real -> real, w: Window)
    requires Wrap32(|w|) > 0
    ensures var b := BarOf(ln, w);
            && -1.0 <= b.volImbalance <= 1.0
            && 0.0 <= b.bipowerVar <= FRAC_PI_2 * b.realizedVar
            && Sq(b.maxAbsReturn) <= b.realizedVar <= Times2(|Returns(ln, w)|, b.maxAbsReturn)
  {
    hide SumOf, Bipower, MaxAbs, CountOf, Drift, Sq, Times2, Highest, Lowest, Wrap32, Wrap64, Ratio, Over, First;
    hide Returns, Points, Booked, Mids, Mid, Clamp32, Abs;
    var rs := Returns(ln, w);
    BipowerBelowVariance(rs);
    MaxReturnBounds(rs);
    ImbalanceBounded(rs);
    RatioBounded(SumOf(rs, SignedVol()), SumOf(rs, RetVol()));
  }

  lemma {:induction false} QualityLaw(ln: real -> real, w: Window)
    requires Wrap32(|w|) > 0
    ensures 0.0 <= BarOf(ln, w).rejectRate
    ensures BarOf(ln, w).rejectRate <= 1.0 <==> CountsFit(w)
  {
    hide SumOf, Bipower, MaxAbs, CountOf, Drift, Highest, Lowest, Wrap32, Ratio, Over, First;
    hide Returns, Points, Booked, Mids, Mid, Clamp32;
    RejectRateExactly(Wrap64(CountOf(w, Accepted())), Wrap64(CountOf(w, Rejected())));
  }

  /** The quality and shape laws of every bar. */
  lemma {:induction false} BarLaws(ln: real -> real, w: Window)
    requires Wrap32(|w|) > 0
    ensures var b := BarOf(ln, w);
            && b.low <= b.open <= b.high && b.low <= b.close <= b.high
            && -1.0 <= b.volImbalance <= 1.0
            && 0.0 <= b.bipowerVar <= FRAC_PI_2 * b.realizedVar
            && Sq(b.maxAbsReturn) <= b.realizedVar <= Times2(|Returns(ln, w)|, b.maxAbsReturn)
            && 0.0 <= b.rejectRate && (b.rejectRate <= 1.0 <==> CountsFit(w))
  {
    hide BarOf, Sq, Times2, CountOf, Wrap32, Returns;
    PriceLaws(ln, w);
    ReturnLaws(ln, w);
    QualityLaw(ln, w);
  }

  /** The counters the bar divides, each of 64 bits, together stay within 2^64. */
  predicate CountsFit(w: Window) { Wrap64(CountOf(w, Accepted())) + Wrap64(CountOf(w, Rejected())) <= W64 }

  lemma {:induction false} RejectRateExactly(acc: nat, rej: nat)
    requires acc < W64 && rej < W64
    ensures Ratio(rej as real, Wrap64(acc + rej) as real) >= 0.0
    ensures Ratio(rej as real, Wrap64(acc + rej) as real) <= 1.0 <==> acc + rej <= W64
  {
    hide Ratio;
    if acc + rej < W64 {
      assert Wrap64(acc + rej) == acc + rej;
      RatioBounded(rej as real, (acc + rej) as real);
    } else {
      assert Wrap64(acc + rej) == acc + rej - W64;
      RatioAbove(rej as real, (acc + rej - W64) as real);
    }
  }

  /** Divided by less than itself, or by nothing. */
  lemma {:induction false} RatioAbove(a: real, b: real)
    requires a > b >= 0.0
    ensures b == 0.0 ==> Ratio(a, b) == 0.0
    ensures b > 0.0 ==> Ratio(a, b) > 1.0
  {
  }

  lemma {:induction false} PricesWithin(w: Window, i: nat)
    requires i < |w|
    ensures Highest(Mids(w)).Fin? && Lowest(Mids(w)).Fin?
    ensures Lowest(Mids(w)).v <= Mid(w[i]) <= Highest(Mids(w)).v
  {
    hide Mid;
    assert Mids(w)[i] in Mids(w);
  }

  lemma {:induction false} RatioBounded(a: real, b: real)
    requires -b <= a <= b
    ensures -1.0 <= Ratio(a, b) <= 1.0
    ensures a >= 0.0 ==> Ratio(a, b) >= 0.0
  {
  }

  // ---- What the running sums must be ----

  ghost predicate OpenIs(w: Window, n: nat, open: real, openMs: int, firstMs: int) {
    && n == Wrap32(|w|)
    && (w != [] ==> open == Mid(w[First(|w| - 1)]) && openMs == firstMs == w[First(|w| - 1)].ms)
  }

  ghost predicate ExtremesAre(w: Window, high: Ext, low: Ext) {
    high == Highest(Mids(w)) && low == Lowest(Mids(w))
  }

  ghost predicate CloseIs(w: Window, close: real, closeMs: int) {
    w != [] ==> close == Mid(w[|w| - 1]) && closeMs == w[|w| - 1].ms
  }

  ghost predicate VolumeIs(w: Window, vbid: nat, vask: nat) {
    vbid == Wrap64(CountOf(w, BidVol())) && vask == Wrap64(CountOf(w, AskVol()))
  }

  ghost predicate RegressionIs(w: Window, sx: real, sy: real, sxy: real, sxx: real, lastX: real) {
    && sx == Sx(Points(w)) && sy == Sy(Points(w)) && sxy == Sxy(Points(w)) && sxx == Sxx(Points(w))
    && lastX == if w == [] then 0.0 else Points(w)[|w| - 1].x
  }

  ghost predicate VariationIs(rs: seq<Ret>, rv: real, prevAbs: real, bipower: real, maxAbs: real) {
    && rv == SumOf(rs, Square())
    && prevAbs == (if rs == [] then -1.0 else Abs(rs[|rs| - 1].r))
    && bipower == Bipower(rs) && maxAbs == MaxAbs(rs)
  }

  ghost predicate FlowIs(rs: seq<Ret>, ofi: real, vol: real) {
    ofi == SumOf(rs, SignedVol()) && vol == SumOf(rs, RetVol())
  }

  ghost predicate PrevIs(w: Window, prevMid: real) {
    prevMid == if w == [] then 0.0 else Mid(w[|w| - 1])
  }

  ghost predicate BookIs(w: Window, spread: real, n: nat) {
    spread == SumOf(Booked(w), SpreadBps()) && n == Wrap32(|Booked(w)|)
  }

  ghost predicate QualityIs(w: Window, ci: real, accepted: nat, rejected: nat) {
    && ci == SumOf(w, WeightedCi())
    && accepted == Wrap64(CountOf(w, Accepted())) && rejected == Wrap64(CountOf(w, Rejected()))
  }

  lemma {:induction false} SmallMod(a: nat, m: nat)
    requires a < m
    ensures a % m == a
  {
  }

  lemma {:induction false} WrapAdd(a: nat, b: nat, m: nat)
    requires m > 0
    ensures (a % m + b) % m == (a + b) % m
  {
    var q := a / m;
    assert a + b == m * q + (a % m + b);
    WrapShift(a % m + b, q, m);
  }

  lemma {:induction false} WrapShift(a: nat, q: nat, m: nat)
    requires m > 0
    ensures (m * q + a) % m == a % m
  {
    var k := a / m;
    assert m * q + a == m * (q + k) + a % m;
    WrapUnique(m * q + a, q + k, a % m, m);
  }

  lemma {:induction false} WrapUnique(x: nat, q: nat, r: nat, m: nat)
    requires m > 0 && x == m * q + r && r < m
    ensures x % m == r
  {
    var q', r' := x / m, x % m;
    Gap(m, q, q');
    Gap(m, q', q);
  }

  lemma {:induction false} Gap(m: nat, p: int, q: int)
    ensures p < q ==> m * p + m <= m * q
  {
    if p < q {
      var d := q - p - 1;
      assert m * d >= 0;
      assert m * q == m * p + m + m * d;
    }
  }

  lemma {:induction false} TickWraps(n: nat)
    ensures Wrap32(Wrap32(n) + 1) == Wrap32(n + 1)
    ensures n < W32 ==> Wrap32(n) == n
  {
    WrapAdd(n, 1, W32);
    if n < W32 {
      SmallMod(n, W32);
    }
  }

  lemma {:induction false} CountWraps<T>(s: seq<T>, x: T, f: T -> nat)
    ensures Wrap64(Wrap64(CountOf(s, f)) + f(x)) == Wrap64(CountOf(s + [x], f))
  {
    CountSnoc(s, x, f);
    WrapAdd(CountOf(s, f), f(x), W64);
  }

  /** The counter starts over exactly at the ticks that count as first. */
  lemma {:induction false} FirstStep(n: nat)
    ensures Wrap32(n + 1) == 1 ==> First(n) == n
    ensures n > 0 && Wrap32(n + 1) != 1 ==> First(n) == First(n - 1)
  {
  }

  lemma {:induction false} OpenStep(w: Window, t: Tick, n: nat, open: real, openMs: int, firstMs: int)
    requires OpenIs(w, n, open, openMs, firstMs)
    ensures if Wrap32(n + 1) == 1 then OpenIs(w + [t], Wrap32(n + 1), Mid(t), t.ms, t.ms)
            else OpenIs(w + [t], Wrap32(n + 1), open, openMs, firstMs)
  {
    TickWraps(|w|);
    FirstStep(|w|);
    if w == [] {
      SmallWrap(1);
    }
    hide Mid, Wrap32, First;
  }

  lemma {:induction false} ExtremesStep(w: Window, t: Tick, high: Ext, low: Ext)
    requires ExtremesAre(w, high, low)
    ensures ExtremesAre(w + [t], Raise(high, Mid(t)), Lower(low, Mid(t)))
  {
    assert Mids(w + [t]) == Mids(w) + [Mid(t)];
    ExtremesSnoc(Mids(w), Mid(t));
    hide Mid, Mids, Highest, Lowest, Raise, Lower;
  }

  lemma {:induction false} VolumeStep(w: Window, t: Tick, vbid: nat, vask: nat)
    requires VolumeIs(w, vbid, vask)
    ensures VolumeIs(w + [t], Wrap64(vbid + t.vbid), Wrap64(vask + t.vask))
  {
    CountWraps(w, t, BidVol());
    CountWraps(w, t, AskVol());
    hide CountOf, Wrap64;
  }

  lemma {:induction false} PointKept(w: Window, t: Tick, i: nat)
    requires i < |w|
    ensures PointAt(w + [t], i) == PointAt(w, i)
  {
    hide Mid, First, Seconds;
    assert (w + [t])[i] == w[i] && (w + [t])[First(i)] == w[First(i)];
  }

  lemma {:induction false} PointsSnoc(w: Window, t: Tick, firstMs: int)
    requires firstMs == (w + [t])[First(|w|)].ms
    ensures Points(w + [t]) == Points(w) + [Pt(Seconds(firstMs, t.ms), Mid(t))]
  {
    hide Mid, First, Seconds, PointAt, Points;
    assert PointAt(w + [t], |w|) == Pt(Seconds(firstMs, t.ms), Mid(t)) by { NewPoint(w, t); }
    forall i | 0 <= i < |w|
      ensures PointAt(w + [t], i) == PointAt(w, i)
    {
      PointKept(w, t, i);
    }
  }

  lemma {:induction false} NewPoint(w: Window, t: Tick)
    ensures PointAt(w + [t], |w|) == Pt(Seconds((w + [t])[First(|w|)].ms, t.ms), Mid(t))
  {
    hide Mid, First, Seconds;
  }

  lemma {:induction false} RegressionStep(w: Window, t: Tick, firstMs: int, sx: real, sy: real, sxy: real,
                                          sxx: real, lastX: real)
    requires RegressionIs(w, sx, sy, sxy, sxx, lastX)
    requires firstMs == (w + [t])[First(|w|)].ms
    ensures var x := Seconds(firstMs, t.ms);
            RegressionIs(w + [t], sx + x, sy + Mid(t), sxy + Prod(x, Mid(t)), sxx + Prod(x, x), x)
  {
    hide SumOf, Mid, Prod, First, Points, Seconds;
    var q := Pt(Seconds(firstMs, t.ms), Mid(t));
    PointsSnoc(w, t, firstMs);
    SumSnoc(Points(w), q, PtX());
    SumSnoc(Points(w), q, PtY());
    SumSnoc(Points(w), q, PtXY());
    SumSnoc(Points(w), q, PtXX());
  }

  function NextReturn(ln: real -> real, prev: real, t: Tick): Ret
    requires prev > 0.0
  {
    Ret(ln(Over(Mid(t), prev)), t.vbid + t.vask)
  }

  lemma {:induction false} ReturnsSnoc(ln: real -> real, w: Window, t: Tick)
    requires w != []
    requires Mid(w[|w| - 1]) > 0.0
    requires Mid(t) > 0.0
    ensures Returns(ln, w + [t]) == Returns(ln, w) + [NextReturn(ln, Mid(w[|w| - 1]), t)]
  {
    var v, n := w + [t], |w|;
    assert v[..n] == w;
  }

  lemma {:induction false} NoReturnSnoc(ln: real -> real, w: Window, t: Tick)
    requires w != [] ==> !(Mid(w[|w| - 1]) > 0.0 && Mid(t) > 0.0)
    ensures Returns(ln, w + [t]) == Returns(ln, w)
  {
    hide Mid, Over;
    assert (w + [t])[..|w|] == w;
  }

  lemma {:induction false} ReturnsSumsSnoc(rs: seq<Ret>, x: Ret)
    ensures SumOf(rs + [x], Square()) == SumOf(rs, Square()) + Sq(x.r)
    ensures SumOf(rs + [x], SignedVol()) == SumOf(rs, SignedVol()) + Prod(Sign(x.r), x.vol as real)
    ensures SumOf(rs + [x], RetVol()) == SumOf(rs, RetVol()) + x.vol as real
    ensures MaxAbs(rs + [x]) == if Abs(x.r) > MaxAbs(rs) then Abs(x.r) else MaxAbs(rs)
    ensures Bipower(rs + [x]) == if rs == [] then 0.0 else Bipower(rs) + Prod(Abs(x.r), Abs(rs[|rs| - 1].r))
  {
    SumSnoc(rs, x, Square());
    SumSnoc(rs, x, SignedVol());
    SumSnoc(rs, x, RetVol());
    assert (rs + [x])[..|rs|] == rs;
    hide SumOf, Sq, Sign, Abs, Prod;
  }

  lemma {:induction false} VariationStep(rs: seq<Ret>, x: Ret, rv: real, prevAbs: real, bipower: real, maxAbs: real)
    requires VariationIs(rs, rv, prevAbs, bipower, maxAbs)
    ensures VariationIs(rs + [x], rv + Sq(x.r), Abs(x.r),
                        if prevAbs >= 0.0 then bipower + Prod(Abs(x.r), prevAbs) else bipower,
                        if Abs(x.r) > maxAbs then Abs(x.r) else maxAbs)
  {
    ReturnsSumsSnoc(rs, x);
    assert rs == [] ==> Bipower(rs) == 0.0;
    assert rs != [] ==> Abs(rs[|rs| - 1].r) >= 0.0;
    hide SumOf, Bipower, MaxAbs, Abs, Sq, Prod;
  }

  lemma {:induction false} FlowStep(rs: seq<Ret>, x: Ret, ofi: real, vol: real)
    requires FlowIs(rs, ofi, vol)
    ensures FlowIs(rs + [x], ofi + Prod(Sign(x.r), x.vol as real), vol + x.vol as real)
  {
    ReturnsSumsSnoc(rs, x);
    hide SumOf, Sign, Prod;
  }

  lemma {:induction false} BookStep(w: Window, t: Tick, spread: real, n: nat)
    requires BookIs(w, spread, n)
    ensures if Mid(t) > 0.0 && t.ask > t.bid
            then BookIs(w + [t], spread + Over(t.ask - t.bid, Mid(t)) * 10000.0, Wrap32(n + 1))
            else BookIs(w + [t], spread, n)
  {
    assert (w + [t])[..|w|] == w;
    SumSnoc(Booked(w), t, SpreadBps());
    TickWraps(|Booked(w)|);
    hide SumOf, Mid, Over, Wrap32;
  }

  lemma {:induction false} QualityStep(w: Window, t: Tick, ci: real, accepted: nat, rejected: nat)
    requires QualityIs(w, ci, accepted, rejected)
    ensures QualityIs(w + [t], ci + Prod(t.ci, t.accepted as real),
                      Wrap64(accepted + t.accepted), Wrap64(rejected + t.rejected))
  {
    SumSnoc(w, t, WeightedCi());
    CountWraps(w, t, Accepted());
    CountWraps(w, t, Rejected());
    hide SumOf, CountOf, Prod, Wrap64;
  }

  /** Equal sums make equal bars. */
  lemma {:induction false} BarFromSums(ln: real -> real, w: Window, n: nat, open: real, openMs: int, firstMs: int,
                    high: Ext, low: Ext,
                    close: real, closeMs: int, vbid: nat, vask: nat,
                    sx: real, sy: real, sxy: real, sxx: real, lastX: real,
                    rv: real, prevAbs: real, bipower: real, maxAbs: real, ofi: real, vol: real,
                    spread: real, nSpread: nat, ci: real, accepted: nat, rejected: nat)
    requires Wrap32(|w|) > 0
    requires OpenIs(w, n, open, openMs, firstMs) && ExtremesAre(w, high, low)
    requires CloseIs(w, close, closeMs) && VolumeIs(w, vbid, vask)
    requires RegressionIs(w, sx, sy, sxy, sxx, lastX)
    requires VariationIs(Returns(ln, w), rv, prevAbs, bipower, maxAbs) && FlowIs(Returns(ln, w), ofi, vol)
    requires BookIs(w, spread, nSpread) && QualityIs(w, ci, accepted, rejected)
    ensures high.Fin? && low.Fin?
    ensures BarFrom(openMs, closeMs, open, high.v, low.v, close, vbid, vask, n, rv, bipower, lastX, sx, sy, sxy, sxx,
                    ofi, vol, spread, nSpread, maxAbs, ci, accepted, rejected)
         == BarOf(ln, w)
  {
    hide BarFrom, Wrap32, Wrap64, SumOf, CountOf, Mid, Points, Bipower, MaxAbs, First, Returns, Booked, Abs;
    SmallWrap(|w|);
    assert Mids(w) != [];
    hide Mids, Highest, Lowest;
  }

  // ---- The accumulator ----

  class BarAccumulator {
    const ln: real -> real
    var open: real
    var high: Ext
    var low: Ext
    var close: real
    var vbid: nat
    var vask: nat
    var tickCount: nat
    var openMs: int
    var closeMs: int
    var firstMs: int
    var sumX: real
    var sumY: real
    var sumXY: real
    var sumXX: real
    var lastX: real
    var prevMid: real
    var rvSum: real
    var prevAbsR: real
    var bipowerSum: real
    var maxAbsR: real
    var ofiSum: real
    var ofiTotalVol: real
    var sumSpreadBps: real
    var nSpreadSamples: nat
    var sumCi: real
    var sumAccepted: nat
    var sumRejected: nat
    /** The ticks since the last flush. */
    ghost var window: Window

    ghost predicate OpenOk(w: Window)
      reads this`tickCount, this`open, this`openMs, this`firstMs
    {
      OpenIs(w, tickCount, open, openMs, firstMs)
    }

    ghost predicate ExtremesOk(w: Window)
      reads this`high, this`low
    {
      ExtremesAre(w, high, low)
    }

    ghost predicate CloseOk(w: Window)
      reads this`close, this`closeMs
    {
      CloseIs(w, close, closeMs)
    }

    ghost predicate VolumeOk(w: Window)
      reads this`vbid, this`vask
    {
      VolumeIs(w, vbid, vask)
    }

    ghost predicate RegressionOk(w: Window)
      reads this`sumX, this`sumY, this`sumXY, this`sumXX, this`lastX
    {
      RegressionIs(w, sumX, sumY, sumXY, sumXX, lastX)
    }

    ghost predicate VariationOk(rs: seq<Ret>)
      reads this`rvSum, this`prevAbsR, this`bipowerSum, this`maxAbsR
    {
      VariationIs(rs, rvSum, prevAbsR, bipowerSum, maxAbsR)
    }

    ghost predicate FlowOk(rs: seq<Ret>)
      reads this`ofiSum, this`ofiTotalVol
    {
      FlowIs(rs, ofiSum, ofiTotalVol)
    }

    ghost predicate PrevOk(w: Window)
      reads this`prevMid
    {
      PrevIs(w, prevMid)
    }

    ghost predicate BookOk(w: Window)
      reads this`sumSpreadBps, this`nSpreadSamples
    {
      BookIs(w, sumSpreadBps, nSpreadSamples)
    }

    ghost predicate QualityOk(w: Window)
      reads this`sumCi, this`sumAccepted, this`sumRejected
    {
      QualityIs(w, sumCi, sumAccepted, sumRejected)
    }

    ghost predicate PricesOk(w: Window)
      reads this`tickCount, this`open, this`openMs, this`firstMs, this`high, this`low,
            this`close, this`closeMs, this`vbid, this`vask
    {
      OpenOk(w) && ExtremesOk(w) && CloseOk(w) && VolumeOk(w)
    }

    ghost predicate ReturnsOk(w: Window)
      reads this`prevMid, this`rvSum, this`prevAbsR, this`bipowerSum, this`maxAbsR, this`ofiSum, this`ofiTotalVol
    {
      VariationOk(Returns(ln, w)) && FlowOk(Returns(ln, w)) && PrevOk(w)
    }

    /** Every running sum is the formula of the ticks since the last flush. */
    ghost predicate Valid()
      reads this
    {
      PricesOk(window) && RegressionOk(window) && ReturnsOk(window) && BookOk(window) && QualityOk(window)
    }

    constructor (log: real -> real)
      ensures Valid() && window == [] && ln == log
    {
      ln := log;
      new;
      Reset();
    }

    lemma {:induction false} WindowCounted()
      requires Valid()
      ensures tickCount == Wrap32(|window|)
      ensures |window| < W32 ==> tickCount == |window|
    {
      TickWraps(|window|);
    }

    method ResetCandle()
      modifies this`tickCount, this`open, this`openMs, this`firstMs, this`high, this`low,
               this`close, this`closeMs, this`vbid, this`vask
      ensures PricesOk([])
    {
      open, high, low, close := 0.0, NegInf, PosInf, 0.0;
      vbid, vask, tickCount := 0, 0, 0;
      openMs, closeMs, firstMs := 0, 0, 0;
    }

    method ResetRegression()
      modifies this`sumX, this`sumY, this`sumXY, this`sumXX, this`lastX
      ensures RegressionOk([])
    {
      sumX, sumY, sumXY, sumXX, lastX := 0.0, 0.0, 0.0, 0.0, 0.0;
    }

    method ResetReturns()
      modifies this`prevMid, this`rvSum, this`prevAbsR, this`bipowerSum, this`maxAbsR, this`ofiSum, this`ofiTotalVol
      ensures ReturnsOk([])
    {
      prevMid, rvSum, prevAbsR, bipowerSum, maxAbsR := 0.0, 0.0, -1.0, 0.0, 0.0;
      ofiSum, ofiTotalVol := 0.0, 0.0;
    }

    method ResetQuality()
      modifies this`sumSpreadBps, this`nSpreadSamples, this`sumCi, this`sumAccepted, this`sumRejected
      ensures BookOk([]) && QualityOk([])
    {
      sumSpreadBps, nSpreadSamples := 0.0, 0;
      sumCi, sumAccepted, sumRejected := 0.0, 0, 0;
    }

    method ResetSums()
      modifies this`sumX, this`sumY, this`sumXY, this`sumXX, this`lastX,
               this`prevMid, this`rvSum, this`prevAbsR, this`bipowerSum, this`maxAbsR, this`ofiSum, this`ofiTotalVol,
               this`sumSpreadBps, this`nSpreadSamples, this`sumCi, this`sumAccepted, this`sumRejected
      ensures RegressionOk([]) && ReturnsOk([]) && BookOk([]) && QualityOk([])
    {
      hide RegressionOk, ReturnsOk, BookOk, QualityOk;
      ResetRegression();
      ResetReturns();
      ResetQuality();
    }

    method Reset()
      modifies this
      ensures Valid() && window == []
    {
      hide PricesOk, RegressionOk, ReturnsOk, BookOk, QualityOk;
      ResetCandle();
      ResetSums();
      window := [];
    }

    method IngestOpen(t: Tick, ghost w: Window)
      requires OpenOk(w)
      modifies this`tickCount, this`open, this`openMs, this`firstMs
      ensures OpenOk(w + [t])
    {
      OpenStep(w, t, tickCount, open, openMs, firstMs);
      hide OpenIs, Wrap32, Mid;
      tickCount := Wrap32(tickCount + 1);
      if tickCount == 1 {
        open, openMs, firstMs := Mid(t), t.ms, t.ms;
      }
    }

    method IngestExtremes(t: Tick, ghost w: Window)
      requires ExtremesOk(w)
      modifies this`high, this`low
      ensures ExtremesOk(w + [t])
    {
      ExtremesStep(w, t, high, low);
      high, low := Raise(high, Mid(t)), Lower(low, Mid(t));
      hide ExtremesAre, Raise, Lower, Mid;
    }

    method IngestClose(t: Tick, ghost w: Window)
      modifies this`close, this`closeMs
      ensures CloseOk(w + [t])
    {
      close, closeMs := Mid(t), t.ms;
    }

    method IngestVolume(t: Tick, ghost w: Window)
      requires VolumeOk(w)
      modifies this`vbid, this`vask
      ensures VolumeOk(w + [t])
    {
      VolumeStep(w, t, vbid, vask);
      vbid, vask := Wrap64(vbid + t.vbid), Wrap64(vask + t.vask);
      hide VolumeIs, Wrap64;
    }

    lemma {:induction false} FirstKnown(w: Window)
      requires PricesOk(w)
      ensures w != [] ==> firstMs == w[First(|w| - 1)].ms
    {
      hide ExtremesOk, CloseOk, VolumeOk, Mid, Wrap32, First;
    }

    method IngestRegression(t: Tick, ghost w: Window)
      requires RegressionOk(w) && PricesOk(w + [t])
      modifies this`sumX, this`sumY, this`sumXY, this`sumXX, this`lastX
      ensures RegressionOk(w + [t])
    {
      hide PricesOk, RegressionIs, Prod, Mid, Seconds, First;
      FirstKnown(w + [t]);
      RegressionStep(w, t, firstMs, sumX, sumY, sumXY, sumXX, lastX);
      var mid := Mid(t);
      var x := Seconds(firstMs, t.ms);
      sumX, sumY, sumXY, sumXX, lastX := sumX + x, sumY + mid, sumXY + Prod(x, mid), sumXX + Prod(x, x), x;
    }

    method IngestSpread(t: Tick, ghost w: Window)
      requires BookOk(w)
      modifies this`sumSpreadBps, this`nSpreadSamples
      ensures BookOk(w + [t])
    {
      BookStep(w, t, sumSpreadBps, nSpreadSamples);
      hide BookIs, Over, Mid, Wrap32;
      var mid := Mid(t);
      if mid > 0.0 && t.ask > t.bid {
        sumSpreadBps := sumSpreadBps + Over(t.ask - t.bid, mid) * 10000.0;
        nSpreadSamples := Wrap32(nSpreadSamples + 1);
      }
    }

    method IngestVariation(r: real, ghost rs: seq<Ret>, ghost x: Ret)
      requires VariationOk(rs) && x.r == r
      modifies this`rvSum, this`prevAbsR, this`bipowerSum, this`maxAbsR
      ensures VariationOk(rs + [x])
    {
      VariationStep(rs, x, rvSum, prevAbsR, bipowerSum, maxAbsR);
      hide VariationIs, Sq, Abs, Prod;
      var absR := Abs(r);
      rvSum := rvSum + Sq(r);
      if absR > maxAbsR {
        maxAbsR := absR;
      }
      if prevAbsR >= 0.0 {
        bipowerSum := bipowerSum + Prod(absR, prevAbsR);
      }
      prevAbsR := absR;
    }

    method IngestFlow(r: real, tickVol: nat, ghost rs: seq<Ret>)
      requires FlowOk(rs)
      modifies this`ofiSum, this`ofiTotalVol
      ensures FlowOk(rs + [Ret(r, tickVol)])
    {
      FlowStep(rs, Ret(r, tickVol), ofiSum, ofiTotalVol);
      hide FlowIs, Sign, Prod;
      ofiSum := ofiSum + Prod(Sign(r), tickVol as real);
      ofiTotalVol := ofiTotalVol + tickVol as real;
    }

    method IngestReturn(t: Tick, ghost w: Window)
      requires ReturnsOk(w)
      modifies this`prevMid, this`rvSum, this`prevAbsR, this`bipowerSum, this`maxAbsR, this`ofiSum, this`ofiTotalVol
      ensures ReturnsOk(w + [t])
    {
      hide VariationOk, FlowOk, Mid, Returns, Over;
      var mid := Mid(t);
      if prevMid > 0.0 && mid > 0.0 {
        ReturnsSnoc(ln, w, t);
        var r := ln(Over(mid, prevMid));
        IngestVariation(r, Returns(ln, w), Ret(r, t.vbid + t.vask));
        IngestFlow(r, t.vbid + t.vask, Returns(ln, w));
      } else {
        NoReturnSnoc(ln, w, t);
      }
      prevMid := mid;
    }

    method IngestQuality(t: Tick, ghost w: Window)
      requires QualityOk(w)
      modifies this`sumCi, this`sumAccepted, this`sumRejected
      ensures QualityOk(w + [t])
    {
      QualityStep(w, t, sumCi, sumAccepted, sumRejected);
      hide QualityIs, Prod, Wrap64;
      sumCi := sumCi + Prod(t.ci, t.accepted as real);
      sumAccepted, sumRejected := Wrap64(sumAccepted + t.accepted), Wrap64(sumRejected + t.rejected);
    }

    method IngestPrices(t: Tick, ghost w: Window)
      requires PricesOk(w)
      modifies this`tickCount, this`open, this`openMs, this`firstMs, this`high, this`low,
               this`close, this`closeMs, this`vbid, this`vask
      ensures PricesOk(w + [t])
    {
      hide OpenOk, ExtremesOk, CloseOk, VolumeOk;
      IngestOpen(t, w);
      IngestExtremes(t, w);
      IngestClose(t, w);
      IngestVolume(t, w);
    }

    method IngestSums(t: Tick, ghost w: Window)
      requires PricesOk(w + [t]) && RegressionOk(w) && ReturnsOk(w) && BookOk(w) && QualityOk(w)
      modifies this`sumX, this`sumY, this`sumXY, this`sumXX, this`lastX,
               this`prevMid, this`rvSum, this`prevAbsR, this`bipowerSum, this`maxAbsR, this`ofiSum, this`ofiTotalVol,
               this`sumSpreadBps, this`nSpreadSamples, this`sumCi, this`sumAccepted, this`sumRejected
      ensures RegressionOk(w + [t]) && ReturnsOk(w + [t]) && BookOk(w + [t]) && QualityOk(w + [t])
    {
      hide PricesOk, RegressionOk, ReturnsOk, BookOk, QualityOk;
      IngestRegression(t, w);
      IngestSpread(t, w);
      IngestReturn(t, w);
      IngestQuality(t, w);
    }

    /** Ingest one observation. */
    method Ingest(t: Tick)
      requires Valid()
      modifies this
      ensures Valid() && window == old(window) + [t]
    {
      hide PricesOk, RegressionOk, ReturnsOk, BookOk, QualityOk;
      IngestPrices(t, window);
      IngestSums(t, window);
      window := window + [t];
    }

    lemma {:induction false} BarKnown()
      requires Valid() && Wrap32(|window|) > 0
      ensures high.Fin? && low.Fin?
      ensures BarFrom(openMs, closeMs, open, high.v, low.v, close, vbid, vask, tickCount, rvSum, bipowerSum, lastX,
                      sumX, sumY, sumXY, sumXX, ofiSum, ofiTotalVol, sumSpreadBps, nSpreadSamples, maxAbsR,
                      sumCi, sumAccepted, sumRejected)
           == BarOf(ln, window)
    {
      hide BarOf, BarFrom, OpenIs, ExtremesAre, CloseIs, VolumeIs, RegressionIs, VariationIs, FlowIs, PrevIs, BookIs;
      hide QualityIs, Wrap32;
      BarFromSums(ln, window, tickCount, open, openMs, firstMs, high, low, close, closeMs, vbid, vask,
                  sumX, sumY, sumXY, sumXX, lastX, rvSum, prevAbsR, bipowerSum, maxAbsR, ofiSum,
                  ofiTotalVol, sumSpreadBps, nSpreadSamples, sumCi, sumAccepted, sumRejected);
    }

    /** Read the bar off the running sums. */
    method ReadBar() returns (b: Bar)
      requires Valid() && Wrap32(|window|) > 0
      ensures b == BarOf(ln, window)
    {
      BarKnown();
      hide BarOf, Valid, Over, Wrap64, Drift, Ratio, Clamp32;
      var spread := if nSpreadSamples > 0 then Some(Over(sumSpreadBps, nSpreadSamples as real)) else None;
      var total := Wrap64(sumAccepted + sumRejected);
      b := Bar(openMs, closeMs, open, high.v, low.v, close, Clamp32(vbid), Clamp32(vask), tickCount,
               rvSum, bipowerSum * FRAC_PI_2, Drift(tickCount, lastX, close, sumX, sumY, sumXY, sumXX),
               Ratio(ofiSum, ofiTotalVol), spread, maxAbsR,
               Ratio(sumCi, sumAccepted as real), Ratio(sumRejected as real, total as real));
    }

    /** Produce the bar of the window and start the next one. `None` when the tick counter
        reads zero: nothing was ingested, or a multiple of 2^32 ticks. */
    method Flush() returns (r: Option<Bar>)
      requires Valid()
      modifies this
      ensures Valid()
      ensures r.None? <==> Wrap32(|old(window)|) == 0
      ensures window == if r.None? then old(window) else []
      ensures r.Some? ==> r.value == BarOf(ln, old(window))
    {
      WindowCounted();
      hide Valid, BarOf, Wrap32;
      if tickCount == 0 {
        return None;
      }
      var bar := ReadBar();
      r := Some(bar);
      Reset();
    }
  }

  lemma {:induction false} BookedShorter(w: Window)
    ensures |Booked(w)| <= |w|
  {
    if w != [] {
      BookedShorter(w[..|w| - 1]);
    }
  }
}
