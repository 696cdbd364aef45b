/** Price grids: rounding half away from zero, the 2/5 grid of a brick size and the finer grid of
    its closes. Prices are exact reals; `floor(log10 x)` is the exponent `d` with
    `10^d <= x < 10^(d + 1)`.
 */
module Grid {

  function Abs(x: real): real { if x < 0.0 then -x else x }

  // ---- Rounding to a grid ----

  /** The nearest integer, halves away from zero. */
  function Round(x: real): int {
    if x >= 0.0 then (x + 0.5).Floor else -(0.5 - x).Floor
  }

  function Times(a: real, step: real): real { a * step }

  /** The `k`-th multiple of a step. */
  function At(k: int, step: real): real { Times(k as real, step) }

  function Ratio(x: real, step: real): real
    requires step > 0.0
  {
    x / step
  }

  /** A price moved to the nearest multiple of `step`; unchanged when the step is not positive. */
  function Snap(price: real, step: real): real {
    if step <= 0.0 then price else At(Round(Ratio(price, step)), step)
  }

  predicate OnGrid(x: real, step: real)
    requires step > 0.0
  {
    Snap(x, step) == x
  }

  lemma {:induction false} RatioScales(x: real, step: real)
    requires step > 0.0
    ensures Times(Ratio(x, step), step) == x
  {
  }

  lemma {:induction false} RatioOrder(x: real, y: real, step: real)
    requires step > 0.0
    ensures x <= y <==> Ratio(x, step) <= Ratio(y, step)
  {
    RatioScales(x, step);
    RatioScales(y, step);
    hide Ratio;
    var a, b := Ratio(x, step), Ratio(y, step);
    if a <= b {
      assert (b - a) * step >= 0.0;
    } else {
      assert (a - b) * step > 0.0;
    }
  }

  lemma {:induction false} RatioOfMultiple(k: int, step: real)
    requires step > 0.0
    ensures Ratio(At(k, step), step) == k as real
  {
  }

  lemma {:induction false} RatioAdds(x: real, y: real, step: real)
    requires step > 0.0
    ensures Ratio(x + y, step) == Ratio(x, step) + Ratio(y, step)
    ensures Ratio(x - y, step) == Ratio(x, step) - Ratio(y, step)
  {
  }

  /** Rounding is within a half, and integers stay. */
  lemma {:induction false} RoundNear(x: real)
    ensures x - 0.5 <= Round(x) as real <= x + 0.5
    ensures x >= 0.0 ==> Round(x) as real > x - 0.5
    ensures x < 0.0 ==> (Round(x) as real) < x + 0.5
  {
  }

  lemma {:induction false} RoundInt(k: int)
    ensures Round(k as real) == k
  {
  }

  /** No integer is closer. */
  lemma {:induction false} RoundNearest(x: real, k: int)
    ensures Abs(x - Round(x) as real) <= Abs(x - k as real)
  {
    RoundNear(x);
    hide Round;
    if k > Round(x) {
      assert k as real >= Round(x) as real + 1.0;
    } else if k < Round(x) {
      assert k as real <= Round(x) as real - 1.0;
    }
  }

  lemma {:induction false} RoundWithin(x: real, k: int)
    requires k as real - 0.5 < x < k as real + 0.5
    ensures Round(x) == k
  {
    RoundNear(x);
    hide Round;
    assert Round(x) as real < k as real + 1.0 && Round(x) as real > k as real - 1.0;
  }

  lemma {:induction false} RoundMonotone(x: real, y: real)
    requires x <= y
    ensures Round(x) <= Round(y)
  {
  }

  lemma {:induction false} ScaleDistance(a: real, b: real, step: real)
    requires step > 0.0
    ensures Abs(Times(a, step) - Times(b, step)) == Times(Abs(a - b), step)
  {
    assert a * step - b * step == (a - b) * step;
    if a - b >= 0.0 {
      assert (a - b) * step >= 0.0;
    } else {
      assert (b - a) * step > 0.0;
    }
  }

  lemma {:induction false} Distance(x: real, k: int, step: real)
    requires step > 0.0
    ensures Abs(x - At(k, step)) == Times(Abs(Ratio(x, step) - k as real), step)
  {
    RatioScales(x, step);
    ScaleDistance(Ratio(x, step), k as real, step);
    hide Times, Abs, Ratio;
  }

  lemma {:induction false} TimesMonotone(a: real, b: real, step: real)
    requires step > 0.0 && a <= b
    ensures Times(a, step) <= Times(b, step)
    ensures Times(0.5, step) == step / 2.0
  {
    assert (b - a) * step >= 0.0;
  }

  /** The snapped price is a multiple of the step, none is nearer, and it is within half a step. */
  lemma {:induction false} SnapNearest(price: real, step: real, k: int)
    requires step > 0.0
    ensures Abs(price - Snap(price, step)) <= Abs(price - At(k, step))
    ensures Abs(price - Snap(price, step)) <= step / 2.0
  {
    var x := Ratio(price, step);
    Distance(price, Round(x), step);
    Distance(price, k, step);
    RoundNearest(x, k);
    RoundNear(x);
    assert Abs(x - Round(x) as real) <= 0.5;
    assert Snap(price, step) == At(Round(x), step);
    hide Round, Ratio, At, Abs, Snap, Times;
    TimesMonotone(Abs(x - Round(x) as real), Abs(x - k as real), step);
    TimesMonotone(Abs(x - Round(x) as real), 0.5, step);
  }

  lemma {:induction false} SnapMonotone(p: real, q: real, step: real)
    requires p <= q
    ensures Snap(p, step) <= Snap(q, step)
  {
    if step > 0.0 {
      RatioOrder(p, q, step);
      RoundMonotone(Ratio(p, step), Ratio(q, step));
      hide Ratio, Round, Times;
      TimesMonotone(Round(Ratio(p, step)) as real, Round(Ratio(q, step)) as real, step);
    }
  }

  lemma {:induction false} SnapAt(k: int, step: real)
    requires step > 0.0
    ensures Snap(At(k, step), step) == At(k, step)
  {
    RatioOfMultiple(k, step);
    RoundInt(k);
    assert Round(Ratio(At(k, step), step)) == k;
    hide Ratio, Round, At, Times;
  }

  lemma {:induction false} SnapOnGrid(price: real, step: real)
    requires step > 0.0
    ensures OnGrid(Snap(price, step), step)
  {
    SnapAt(Round(Ratio(price, step)), step);
    hide Ratio, Round, At, Times;
  }

  // ---- Decades ----

  function Pow10(d: int): (p: real)
    ensures p > 0.0
    decreases if d < 0 then -d else d
  {
    if d == 0 then 1.0 else if d > 0 then 10.0 * Pow10(d - 1) else Pow10(d + 1) / 10.0
  }

  lemma {:induction false} Pow10Next(d: int)
    ensures Pow10(d + 1) == 10.0 * Pow10(d)
  {
  }

  lemma {:induction false} Pow10Increases(c: int, d: int)
    requires c <= d
    ensures Pow10(c) <= Pow10(d)
    decreases d - c
  {
    if c < d {
      Pow10Increases(c, d - 1);
      Pow10Next(d - 1);
    }
  }

  /** Steps left before `x` lies in `[1, 10)`. */
  function Away(x: real): nat
    requires x > 0.0
  {
    if x >= 10.0 then x.Floor else if x < 1.0 then Inverse(x).Floor else 0
  }

  function Inverse(x: real): (y: real)
    requires x > 0.0
    ensures y > 0.0
  {
    1.0 / x
  }

  lemma {:induction false} CloserDown(x: real)
    requires x >= 10.0
    ensures Away(x / 10.0) < Away(x)
  {
    assert x / 10.0 <= x - 1.0;
  }

  lemma {:induction false} InverseLarge(x: real)
    requires 0.0 < x < 1.0
    ensures Inverse(x) > 1.0
  {
  }

  lemma {:induction false} CloserUp(x: real)
    requires 0.0 < x < 1.0
    ensures Away(10.0 * x) < Away(x)
  {
    var y, z := Inverse(x), Inverse(10.0 * x);
    assert y * x == 1.0 && z * (10.0 * x) == 1.0;
    assert (10.0 * z - y) * x == 0.0;
    assert y == 10.0 * z;
    InverseLarge(x);
  }

  /** `floor(log10 x)`. */
  function FloorLog10(x: real): (d: int)
    requires x > 0.0
    decreases Away(x)
  {
    if x >= 10.0 then CloserDown(x); 1 + FloorLog10(x / 10.0)
    else if x < 1.0 then CloserUp(x); FloorLog10(10.0 * x) - 1
    else 0
  }

  lemma {:induction false} LogBrackets(x: real)
    requires x > 0.0
    ensures Pow10(FloorLog10(x)) <= x < Pow10(FloorLog10(x) + 1)
    decreases Away(x)
  {
    if x >= 10.0 {
      CloserDown(x);
      LogBrackets(x / 10.0);
      Pow10Next(FloorLog10(x / 10.0));
      Pow10Next(FloorLog10(x / 10.0) + 1);
    } else if x < 1.0 {
      CloserUp(x);
      LogBrackets(10.0 * x);
      Pow10Next(FloorLog10(10.0 * x));
      Pow10Next(FloorLog10(10.0 * x) - 1);
    } else {
      Pow10Next(0);
    }
  }

  /** The exponent is the only one that brackets `x`. */
  lemma {:induction false} LogUnique(x: real, d: int)
    requires x > 0.0 && Pow10(d) <= x < Pow10(d + 1)
    ensures FloorLog10(x) == d
  {
    LogBrackets(x);
    var e := FloorLog10(x);
    hide FloorLog10, Pow10;
    if d < e {
      Pow10Increases(d + 1, e);
    } else if e < d {
      Pow10Increases(e + 1, d);
    }
  }

  // ---- Brick sizes ----

  /** The unit of the fourth significant figure. */
  function Unit(x: real): (u: real)
    requires x > 0.0
    ensures u > 0.0
  {
    Pow10(FloorLog10(x) - 3)
  }

  /** A size rounded to four figures on the nearer of the 2-unit and 5-unit grids, ties to the
      2-unit grid; sizes that are not positive are returned unchanged. */
  function SnapTo25Grid(value: real): real {
    if value <= 0.0 then value
    else
      var s2, s5 := Snap(value, 2.0 * Unit(value)), Snap(value, 5.0 * Unit(value));
      if Abs(value - s2) <= Abs(value - s5) then s2 else s5
  }

  /** The grid of closes for a brick size: always the 2-unit one. */
  function GridStepForBrick(size: real): (g: real)
    ensures g > 0.0
  {
    if size <= 0.0 then 1.0 else 2.0 * Unit(size)
  }

  /** A decade runs from 1000 to 10000 units. */
  lemma {:induction false} UnitBrackets(x: real)
    requires x > 0.0
    ensures 1000.0 * Unit(x) <= x < 10000.0 * Unit(x)
  {
    LogBrackets(x);
    var d := FloorLog10(x);
    Pow10Next(d);
    Pow10Next(d - 1);
    Pow10Next(d - 2);
    Pow10Next(d - 3);
  }

  lemma {:induction false} UnitUnique(x: real, y: real)
    requires x > 0.0 && 1000.0 * Unit(x) <= y < 10000.0 * Unit(x)
    ensures Unit(y) == Unit(x)
  {
    var d := FloorLog10(x);
    Pow10Next(d);
    Pow10Next(d - 1);
    Pow10Next(d - 2);
    Pow10Next(d - 3);
    LogUnique(y, d);
  }

  lemma {:induction false} NextUnit(x: real, y: real)
    requires x > 0.0 && y == 10000.0 * Unit(x)
    ensures Unit(y) == 10.0 * Unit(x)
  {
    var d := FloorLog10(x);
    Pow10Next(d + 1);
    Pow10Next(d);
    Pow10Next(d - 1);
    Pow10Next(d - 2);
    Pow10Next(d - 3);
    LogUnique(y, d + 1);
  }

  lemma {:induction false} TimesScale(k: int, c: real, u: real)
    ensures At(k, c * u) == k as real * c * u
    ensures k as real * c >= 0.0 && u > 0.0 ==> At(k, c * u) >= 0.0
  {
  }

  lemma {:induction false} EndsOnGrids(u: real)
    requires u > 0.0
    ensures OnGrid(1000.0 * u, 2.0 * u) && OnGrid(10000.0 * u, 2.0 * u)
    ensures OnGrid(1000.0 * u, 5.0 * u) && OnGrid(10000.0 * u, 5.0 * u)
  {
    assert At(500, 2.0 * u) == 1000.0 * u && At(5000, 2.0 * u) == 10000.0 * u;
    assert At(200, 5.0 * u) == 1000.0 * u && At(2000, 5.0 * u) == 10000.0 * u;
    hide At, Snap;
    SnapAt(500, 2.0 * u);
    SnapAt(5000, 2.0 * u);
    SnapAt(200, 5.0 * u);
    SnapAt(2000, 5.0 * u);
  }

  /** Both grids contain the ends of the decade, so snapping stays inside it. */
  lemma {:induction false} SnapInDecade(value: real)
    requires value > 0.0
    ensures 1000.0 * Unit(value) <= Snap(value, 2.0 * Unit(value)) <= 10000.0 * Unit(value)
    ensures 1000.0 * Unit(value) <= Snap(value, 5.0 * Unit(value)) <= 10000.0 * Unit(value)
  {
    var u := Unit(value);
    UnitBrackets(value);
    EndsOnGrids(u);
    hide Unit, Snap, At;
    SnapMonotone(1000.0 * u, value, 2.0 * u);
    SnapMonotone(value, 10000.0 * u, 2.0 * u);
    SnapMonotone(1000.0 * u, value, 5.0 * u);
    SnapMonotone(value, 10000.0 * u, 5.0 * u);
  }

  /** The snapped size is a point of one of the two grids, no point of either is nearer, and the
      error is within one unit: a thousandth of the value. */
  lemma {:induction false} Snap25Nearest(value: real, k: int)
    requires value > 0.0
    ensures OnGrid(SnapTo25Grid(value), 2.0 * Unit(value)) || OnGrid(SnapTo25Grid(value), 5.0 * Unit(value))
    ensures Abs(value - SnapTo25Grid(value)) <= Abs(value - At(k, 2.0 * Unit(value)))
    ensures Abs(value - SnapTo25Grid(value)) <= Abs(value - At(k, 5.0 * Unit(value)))
    ensures 1000.0 * Abs(value - SnapTo25Grid(value)) <= value
  {
    var u := Unit(value);
    UnitBrackets(value);
    SnapNearest(value, 2.0 * u, k);
    SnapNearest(value, 5.0 * u, k);
    SnapOnGrid(value, 2.0 * u);
    SnapOnGrid(value, 5.0 * u);
    hide Unit, Snap, At;
  }

  /** A positive size that snapping leaves alone. */
  predicate Snapped(size: real) { size > 0.0 && SnapTo25Grid(size) == size }

  lemma {:induction false} SnappedWithin(s: real)
    requires s > 0.0 && (OnGrid(s, 2.0 * Unit(s)) || OnGrid(s, 5.0 * Unit(s)))
    ensures Snapped(s)
  {
    hide Snap, Unit;
  }

  /** Snapping twice changes nothing, also where the first snap crosses into the next decade. */
  lemma {:induction false} Snap25Idempotent(value: real)
    requires value > 0.0
    ensures Snapped(SnapTo25Grid(value))
  {
    var u, s := Unit(value), SnapTo25Grid(value);
    SnapInDecade(value);
    Snap25Nearest(value, 0);
    if s < 10000.0 * u {
      UnitUnique(value, s);
    } else {
      NextUnit(value, s);
      EndsOnGrids(10.0 * u);
    }
    hide Snap, Unit, SnapTo25Grid, At;
    SnappedWithin(s);
  }

  /** Half way between two points of the grid. */
  predicate OnHalf(x: real, step: real)
    requires step > 0.0
  {
    x == At(Ratio(x, step).Floor, step) + step / 2.0
  }

  lemma {:induction false} RatioHalf(step: real)
    requires step > 0.0
    ensures Ratio(step / 2.0, step) == 0.5
  {
  }

  lemma {:induction false} HalfIsHalf(k: int, step: real)
    requires step > 0.0
    ensures OnHalf(At(k, step) + step / 2.0, step)
  {
    RatioOfMultiple(k, step);
    RatioHalf(step);
    RatioAdds(At(k, step), step / 2.0, step);
    assert Ratio(At(k, step) + step / 2.0, step).Floor == k;
    hide Ratio, At;
  }

  lemma {:induction false} FivesOnTwos(k: int, u: real)
    requires u > 0.0
    ensures k % 2 == 0 ==> At(k, 5.0 * u) == At(5 * (k / 2), 2.0 * u)
    ensures k % 2 == 1 ==> At(k, 5.0 * u) == At(5 * (k / 2) + 2, 2.0 * u) + u
  {
    var j := k / 2;
    assert k == 2 * j + k % 2;
    TimesScale(k, 5.0, u);
    TimesScale(5 * j, 2.0, u);
    TimesScale(5 * j + 2, 2.0, u);
    assert (5 * j) as real == 5.0 * j as real;
    assert k as real == 2.0 * j as real + (k % 2) as real;
  }

  /** A brick size is at least 500 steps of its close grid, and lies on that grid or half way
      between two of its points. */
  lemma {:induction false} BrickOnGrid(size: real)
    requires Snapped(size)
    ensures size >= 500.0 * GridStepForBrick(size)
    ensures OnGrid(size, GridStepForBrick(size)) || OnHalf(size, GridStepForBrick(size))
  {
    var u := Unit(size);
    UnitBrackets(size);
    if size == Snap(size, 5.0 * u) {
      var k := Round(Ratio(size, 5.0 * u));
      FivesOnTwos(k, u);
      if k % 2 == 0 {
        SnapAt(5 * (k / 2), 2.0 * u);
      } else {
        HalfIsHalf(5 * (k / 2) + 2, 2.0 * u);
      }
    }
    hide Unit, Ratio, Round, At, OnHalf;
  }

  /** Snapping a half-way price moves it by half a step, away from zero. */
  lemma {:induction false} SnapHalf(x: real, step: real)
    requires step > 0.0 && OnHalf(x, step)
    ensures Snap(x, step) == if x >= 0.0 then x + step / 2.0 else x - step / 2.0
  {
    var k := Ratio(x, step).Floor;
    RatioOfMultiple(k, step);
    RatioAdds(At(k, step), step / 2.0, step);
    RatioHalf(step);
    assert Ratio(0.0, step) == 0.0;
    RatioOrder(0.0, x, step);
    assert Ratio(x, step) == k as real + 0.5;
    NextPoint(k, step);
    hide Ratio, Times;
  }

  lemma {:induction false} NextPoint(k: int, step: real)
    ensures At(k + 1, step) == At(k, step) + step
    ensures At(k, step) + At(1, step) == At(k + 1, step)
  {
    assert (k + 1) as real == k as real + 1.0;
  }

  lemma {:induction false} AtAdds(j: int, k: int, step: real)
    ensures At(j + k, step) == At(j, step) + At(k, step)
    ensures At(j - k, step) == At(j, step) - At(k, step)
  {
    assert (j + k) as real == j as real + k as real;
    assert (j - k) as real == j as real - k as real;
  }

  /** A step of a grid size from a grid point lands on the grid. */
  lemma {:induction false} GridPlusGrid(x: real, s: real, step: real)
    requires step > 0.0 && OnGrid(x, step) && OnGrid(s, step)
    ensures OnGrid(x + s, step) && OnGrid(x - s, step)
  {
    var j, k := Round(Ratio(x, step)), Round(Ratio(s, step));
    AtAdds(j, k, step);
    SnapAt(j + k, step);
    SnapAt(j - k, step);
    hide At, Round, Ratio;
  }

  /** A half-way size from a grid point lands half way. */
  lemma {:induction false} GridPlusHalf(x: real, s: real, step: real)
    requires step > 0.0 && OnGrid(x, step) && OnHalf(s, step)
    ensures OnHalf(x + s, step) && OnHalf(x - s, step)
  {
    var j, k := Round(Ratio(x, step)), Ratio(s, step).Floor;
    AtAdds(j, k, step);
    AtAdds(j, k + 1, step);
    NextPoint(k, step);
    HalfIsHalf(j + k, step);
    HalfIsHalf(j - (k + 1), step);
    hide At, Round, Ratio, OnHalf;
  }

  // ---- The close grids form a chain ----

  /** Every multiple of `b` is a multiple of `a`. */
  ghost predicate Divides(a: real, b: real) { exists n: int :: b == At(n, a) }

  /** A close grid: two units of some decade, or the grid of a size that is not positive. */
  ghost predicate IsStep(g: real) { g == 1.0 || exists k: int :: g == 2.0 * Pow10(k) }

  lemma {:induction false} OnFiner(x: real, a: real, b: real)
    requires a > 0.0 && b > 0.0 && OnGrid(x, b) && Divides(a, b)
    ensures OnGrid(x, a)
  {
    hide Round, Ratio;
    var n :| b == At(n, a);
    var k := Round(Ratio(x, b));
    AtOfAt(k, n, a);
    SnapAt(k * n, a);
  }

  lemma {:induction false} AtOfAt(k: int, n: int, a: real)
    ensures At(k, At(n, a)) == At(k * n, a)
  {
    assert (k * n) as real == k as real * n as real;
  }

  lemma {:induction false} PowerIsInt(d: nat) returns (n: int)
    ensures Pow10(d) == n as real
  {
    if d == 0 {
      n := 1;
    } else {
      n := PowerIsInt(d - 1);
      n := 10 * n;
    }
  }

  lemma {:induction false} PowerSum(c: int, d: nat)
    ensures Pow10(c + d) == Times(Pow10(d), Pow10(c))
  {
    if d == 0 {
      assert Pow10(0) == 1.0;
    } else {
      hide Pow10, Times;
      PowerSum(c, d - 1);
      Pow10Next(c + d - 1);
      Pow10Next(d - 1);
      TenTimes(Pow10(d - 1), Pow10(c));
    }
  }

  lemma {:induction false} TenTimes(a: real, b: real)
    ensures Times(10.0 * a, b) == 10.0 * Times(a, b)
  {
  }

  lemma {:induction false} FiveTimes(n: int, p: real)
    ensures 2.0 * Times((5 * n) as real, p) == Times(10.0 * n as real, p)
  {
    assert (5 * n) as real == 5.0 * n as real;
  }

  lemma {:induction false} TwiceAt(n: int, p: real)
    ensures At(n, 2.0 * p) == 2.0 * Times(n as real, p)
  {
  }

  lemma {:induction false} TwosDivide(c: int, d: int)
    requires c <= d
    ensures Divides(2.0 * Pow10(c), 2.0 * Pow10(d))
  {
    hide Pow10, Times, At;
    var n := PowerIsInt(d - c);
    PowerSum(c, d - c);
    TwiceAt(n, Pow10(c));
    assert 2.0 * Pow10(d) == At(n, 2.0 * Pow10(c));
  }

  lemma {:induction false} TwosAndOne(k: int)
    ensures k >= 0 ==> Divides(1.0, 2.0 * Pow10(k))
    ensures k < 0 ==> Divides(2.0 * Pow10(k), 1.0)
  {
    if k >= 0 {
      var n := PowerIsInt(k);
      assert 2.0 * Pow10(k) == At(2 * n, 1.0);
    } else {
      var n := PowerIsInt(-k - 1);
      PowerSum(k, -k);
      Pow10Next(-k - 1);
      assert Pow10(0) == 1.0;
      hide Pow10;
      TwiceAt(5 * n, Pow10(k));
      FiveTimes(n, Pow10(k));
      TenTimes(n as real, Pow10(k));
    }
  }

  /** Of any two close grids one contains the other. */
  lemma {:induction false} StepsNest(a: real, b: real)
    requires IsStep(a) && IsStep(b)
    ensures a > 0.0 && b > 0.0 && (Divides(a, b) || Divides(b, a))
  {
    if a == 1.0 && b == 1.0 {
      assert b == At(1, a);
    } else if a == 1.0 {
      var k :| b == 2.0 * Pow10(k);
      TwosAndOne(k);
    } else if b == 1.0 {
      var k :| a == 2.0 * Pow10(k);
      TwosAndOne(k);
    } else {
      var j, k :| a == 2.0 * Pow10(j) && b == 2.0 * Pow10(k);
      if j <= k {
        TwosDivide(j, k);
      } else {
        TwosDivide(k, j);
      }
    }
  }
}
