/** Every field of a finished bar as a formula over its ticks: for any window of fewer than 2^32 of them. */
module BarFormulas {
  import opened Extended
  import opened Optional
  import opened BarBuilder

  function Price(t: Tick): real { (t.bid + t.ask) / 2.0 }

  function Sum(xs: seq<real>): real { if xs == [] then 0.0 else Sum(xs[..|xs| - 1]) + xs[|xs| - 1] }

  function Total(ns: seq<nat>): nat { if ns == [] then 0 else Total(ns[..|ns| - 1]) + ns[|ns| - 1] }

  lemma {:induction false} SumAs<T>(s: seq<T>, f: T -> real, xs: seq<real>)
    requires |xs| == |s| && forall k :: 0 <= k < |s| ==> xs[k] == f(s[k])
    ensures SumOf(s, f) == Sum(xs)
  {
    if s != [] {
      SumAs(s[..|s| - 1], f, xs[..|s| - 1]);
    }
  }

  lemma {:induction false} TotalAs<T>(s: seq<T>, f: T -> nat, ns: seq<nat>)
    requires |ns| == |s| && forall k :: 0 <= k < |s| ==> ns[k] == f(s[k])
    ensures CountOf(s, f) == Total(ns)
  {
    if s != [] {
      TotalAs(s[..|s| - 1], f, ns[..|s| - 1]);
    }
  }

  // ---- Prices, volumes and quality ----

  /** The bar opens and closes with its first and last tick, lies between the extremes of its prices, and counts
      volumes of 64 bits, kept in 32. */
  lemma {:induction false} PriceFormula(ln: real -> real, w: Window)
    requires 0 < |w| < 0x1_0000_0000
    ensures Wrap32(|w|) > 0
    ensures var b, n := BarOf(ln, w), |w| - 1;
            && b.openMs == w[0].ms && b.closeMs == w[n].ms && b.ticks == |w|
            && b.open == Price(w[0]) && b.close == Price(w[n])
            && (forall k :: 0 <= k <= n ==> b.low <= Price(w[k]) <= b.high)
            && (exists k :: 0 <= k <= n && Price(w[k]) == b.high)
            && (exists k :: 0 <= k <= n && Price(w[k]) == b.low)
  {
    hide SumOf, Bipower, MaxAbs, CountOf, Drift, Highest, Lowest, Wrap64, Ratio, Over;
    hide Returns, Points, Booked, Clamp32;
    SmallWrap(|w|);
    forall k | 0 <= k < |w|
      ensures Mids(w)[k] == Price(w[k]) && Mids(w)[k] in Mids(w)
    {
    }
    assert Highest(Mids(w)).Fin? && Lowest(Mids(w)).Fin?;
  }

  lemma {:induction false} VolumeFormula(ln: real -> real, w: Window)
    requires 0 < |w| < 0x1_0000_0000
    ensures Wrap32(|w|) > 0
    ensures var b := BarOf(ln, w);
            var vbid := Total(seq(|w|, k requires 0 <= k < |w| => w[k].vbid)) % 0x1_0000_0000_0000_0000;
            var vask := Total(seq(|w|, k requires 0 <= k < |w| => w[k].vask)) % 0x1_0000_0000_0000_0000;
            && b.vbid == (if vbid > 0xFFFF_FFFF then 0xFFFF_FFFF else vbid)
            && b.vask == (if vask > 0xFFFF_FFFF then 0xFFFF_FFFF else vask)
  {
    hide SumOf, Bipower, MaxAbs, CountOf, Drift, Highest, Lowest, Ratio, Over, Returns, Points, Booked, Mids, Mid;
    SmallWrap(|w|);
    TotalAs(w, BidVol(), seq(|w|, k requires 0 <= k < |w| => w[k].vbid));
    TotalAs(w, AskVol(), seq(|w|, k requires 0 <= k < |w| => w[k].vask));
  }

  /** Confidence is averaged over accepted observations, and the reject rate is over all of them; 0 where there
      are none. */
  lemma {:induction false} QualityFormula(ln: real -> real, w: Window)
    requires 0 < |w| < 0x1_0000_0000
    ensures Wrap32(|w|) > 0
    ensures var b := BarOf(ln, w);
            var acc := Total(seq(|w|, k requires 0 <= k < |w| => w[k].accepted)) % 0x1_0000_0000_0000_0000;
            var rej := Total(seq(|w|, k requires 0 <= k < |w| => w[k].rejected)) % 0x1_0000_0000_0000_0000;
            var all := (acc + rej) % 0x1_0000_0000_0000_0000;
            var ci := Sum(seq(|w|, k requires 0 <= k < |w| => w[k].ci * w[k].accepted as real));
            && b.avgCi == (if acc > 0 then ci / acc as real else 0.0)
            && b.rejectRate == (if all > 0 then rej as real / all as real else 0.0)
  {
    hide SumOf, Bipower, MaxAbs, CountOf, Drift, Highest, Lowest, Over, Returns, Points, Booked, Mids, Mid;
    SmallWrap(|w|);
    TotalAs(w, BarBuilder.Accepted(), seq(|w|, k requires 0 <= k < |w| => w[k].accepted));
    TotalAs(w, BarBuilder.Rejected(), seq(|w|, k requires 0 <= k < |w| => w[k].rejected));
    SumAs(w, WeightedCi(), seq(|w|, k requires 0 <= k < |w| => w[k].ci * w[k].accepted as real));
  }

  // ---- Returns ----

  /** Ticks with a positive price right after a tick with a positive price. */
  predicate Live(w: Window, i: nat) { 0 < i < |w| && Price(w[i - 1]) > 0.0 && Price(w[i]) > 0.0 }

  /** A real book on a positive price. */
  predicate Book(w: Window, i: nat) { i < |w| && Price(w[i]) > 0.0 && w[i].ask > w[i].bid }

  function LiveTick(w: Window): nat -> bool { (i: nat) => Live(w, i) }

  function BookTick(w: Window): nat -> bool { (i: nat) => Book(w, i) }

  /** The ascending list of the positions with the property. */
  ghost predicate Lists(at: seq<nat>, n: nat, p: nat -> bool) {
    && (forall k :: 0 <= k < |at| ==> at[k] < n && p(at[k]))
    && (forall k, l :: 0 <= k < l < |at| ==> at[k] < at[l])
    && (forall i: nat :: i < n && p(i) ==> i in at)
  }

  lemma {:induction false} ListsSnoc(at: seq<nat>, n: nat, p: nat -> bool)
    requires Lists(at, n, p)
    ensures Lists(if p(n) then at + [n] else at, n + 1, p)
  {
    var r := if p(n) then at + [n] else at;
    assert forall k :: 0 <= k < |at| ==> r[k] == at[k];
    assert p(n) ==> r[|at|] == n;
    forall i: nat | i <= n && p(i)
      ensures i in r
    {
      assert i < n ==> i in at;
    }
  }

  /** The return of tick `i` and the volume that came with it. */
  function ReturnAt(ln: real -> real, w: Window, i: nat): real
    requires Live(w, i)
  {
    ln(Price(w[i]) / Price(w[i - 1]))
  }

  ghost predicate ReturnsAre(ln: real -> real, w: Window, at: seq<nat>, rs: seq<Ret>) {
    && |at| == |rs|
    && forall k :: 0 <= k < |at| ==>
         Live(w, at[k]) && rs[k] == Ret(ReturnAt(ln, w, at[k]), w[at[k]].vbid + w[at[k]].vask)
  }

  lemma {:induction false} ReturnStep(ln: real -> real, w: Window, n: nat)
    requires n < |w|
    ensures var front := Returns(ln, w[..n]);
            Returns(ln, w[..n + 1])
            == front + if Live(w, n) then [Ret(ReturnAt(ln, w, n), w[n].vbid + w[n].vask)] else []
  {
    assert w[..n + 1][..n] == w[..n];
    assert Mid(w[n]) == Price(w[n]) && (n > 0 ==> Mid(w[n - 1]) == Price(w[n - 1]));
  }

  lemma {:induction false} ReturnList(ln: real -> real, w: Window, n: nat) returns (at: seq<nat>)
    requires n <= |w|
    ensures Lists(at, n, LiveTick(w)) && ReturnsAre(ln, w, at, Returns(ln, w[..n]))
  {
    hide Returns, Live, Lists;
    if n == 0 {
      at := [];
      NoReturns(ln, w);
    } else {
      var f := ReturnList(ln, w, n - 1);
      ListsSnoc(f, n - 1, LiveTick(w));
      ReturnStep(ln, w, n - 1);
      at := if Live(w, n - 1) then f + [n - 1] else f;
    }
  }

  lemma {:induction false} NoReturns(ln: real -> real, w: Window)
    ensures Returns(ln, w[..0]) == [] && Lists([], 0, LiveTick(w))
  {
  }

  function Positive(x: real): real { if x < 0.0 then -x else x }

  /** Realized variance is the sum of the squared returns, bipower variance pi/2 times the sum of the products of
      neighbouring absolute ones, and the tail indicator the largest absolute one. */
  lemma {:induction false} VarianceFormula(ln: real -> real, w: Window) returns (at: seq<nat>)
    requires 0 < |w| < 0x1_0000_0000
    ensures Wrap32(|w|) > 0
    ensures Lists(at, |w|, LiveTick(w)) && forall k :: 0 <= k < |at| ==> Live(w, at[k])
    ensures var b, r := BarOf(ln, w), seq(|at|, k requires 0 <= k < |at| => ReturnAt(ln, w, at[k]));
            && b.realizedVar == Sum(seq(|r|, k requires 0 <= k < |r| => r[k] * r[k]))
            && b.bipowerVar
               == 1.57079632679489661923
                  * Sum(seq(|r|, k requires 0 <= k < |r| => Neighbours(r, k)))
            && (forall k :: 0 <= k < |r| ==> Positive(r[k]) <= b.maxAbsReturn)
            && (if r == [] then b.maxAbsReturn == 0.0 else exists k :: 0 <= k < |r| && Positive(r[k]) == b.maxAbsReturn)
  {
    SmallWrap(|w|);
    at := ReturnList(ln, w, |w|);
    assert w[..|w|] == w;
    var rs, r := Returns(ln, w), seq(|at|, k requires 0 <= k < |at| => ReturnAt(ln, w, at[k]));
    hide SumOf, Bipower, MaxAbs, CountOf, Drift, Highest, Lowest, Ratio, Over, Returns, Points, Booked, Mids, Mid;
    hide Lists, Live, ReturnAt, Wrap64, Clamp32, Neighbours;
    SumAs(rs, Square(), seq(|r|, k requires 0 <= k < |r| => r[k] * r[k]));
    BipowerAs(rs, r, seq(|r|, k requires 0 <= k < |r| => Neighbours(r, k)));
    LargestAs(rs, r);
  }

  /** The product of an absolute return and the one before it. */
  function Neighbours(r: seq<real>, k: nat): real
    requires k < |r|
  {
    if k == 0 then 0.0 else Positive(r[k]) * Positive(r[k - 1])
  }

  lemma {:induction false} BipowerAs(rs: seq<Ret>, r: seq<real>, xs: seq<real>)
    requires |rs| == |r| == |xs| && forall k :: 0 <= k < |r| ==> r[k] == rs[k].r && xs[k] == Neighbours(r, k)
    ensures Bipower(rs) == Sum(xs)
  {
    hide Neighbours, Bipower;
    if r != [] {
      var n := |r| - 1;
      forall k | 0 <= k < n
        ensures Neighbours(r[..n], k) == Neighbours(r, k)
      {
        NeighboursPrefix(r, n, k);
      }
      BipowerAs(rs[..n], r[..n], xs[..n]);
      BipowerStep(rs, r);
    } else {
      NoBipower();
    }
  }

  lemma {:induction false} NeighboursPrefix(r: seq<real>, n: nat, k: nat)
    requires k < n <= |r|
    ensures Neighbours(r[..n], k) == Neighbours(r, k)
  {
  }

  lemma {:induction false} NoBipower()
    ensures Bipower([]) == 0.0
  {
  }

  lemma {:induction false} BipowerStep(rs: seq<Ret>, r: seq<real>)
    requires |rs| == |r| > 0 && forall k :: 0 <= k < |r| ==> r[k] == rs[k].r
    ensures Bipower(rs) == Bipower(rs[..|r| - 1]) + Neighbours(r, |r| - 1)
  {
    var n := |r| - 1;
    if n > 0 {
      assert Abs(rs[n].r) == Positive(r[n]) && Abs(rs[n - 1].r) == Positive(r[n - 1]);
    }
  }

  lemma {:induction false} LargestAs(rs: seq<Ret>, r: seq<real>)
    requires |rs| == |r| && forall k :: 0 <= k < |r| ==> r[k] == rs[k].r
    ensures forall k :: 0 <= k < |r| ==> Positive(r[k]) <= MaxAbs(rs)
    ensures if r == [] then MaxAbs(rs) == 0.0 else exists k :: 0 <= k < |r| && Positive(r[k]) == MaxAbs(rs)
  {
    forall k | 0 <= k < |r|
      ensures Positive(r[k]) == Abs(rs[k].r)
    {
    }
    hide Positive, Abs;
    if r != [] {
      assert Positive(r[0]) <= MaxAbs(rs);
      if MaxAbs(rs) == 0.0 {
        ZeroLargest(rs, r);
      } else {
        var i :| 0 <= i < |rs| && Abs(rs[i].r) == MaxAbs(rs);
        assert Positive(r[i]) == MaxAbs(rs);
      }
    }
  }

  lemma {:induction false} ZeroLargest(rs: seq<Ret>, r: seq<real>)
    requires |rs| == |r| > 0 && r[0] == rs[0].r && MaxAbs(rs) == 0.0
    ensures Positive(r[0]) == 0.0
  {
    assert Abs(rs[0].r) <= MaxAbs(rs);
  }

  /** The imbalance weighs the volume of each return by its sign; 0 where there is no volume. */
  lemma {:induction false} FlowFormula(ln: real -> real, w: Window) returns (at: seq<nat>)
    requires 0 < |w| < 0x1_0000_0000
    ensures Wrap32(|w|) > 0
    ensures Lists(at, |w|, LiveTick(w)) && forall k :: 0 <= k < |at| ==> Live(w, at[k])
    ensures var r := seq(|at|, k requires 0 <= k < |at| => ReturnAt(ln, w, at[k]));
            var v := seq(|at|, k requires 0 <= k < |at| => (w[at[k]].vbid + w[at[k]].vask) as real);
            var flow := Sum(seq(|at|, k requires 0 <= k < |at| =>
                                        if r[k] > 0.0 then v[k] else if r[k] < 0.0 then -v[k] else 0.0));
            BarOf(ln, w).volImbalance == if Sum(v) > 0.0 then flow / Sum(v) else 0.0
  {
    SmallWrap(|w|);
    at := ReturnList(ln, w, |w|);
    assert w[..|w|] == w;
    var rs := Returns(ln, w);
    var r := seq(|at|, k requires 0 <= k < |at| => ReturnAt(ln, w, at[k]));
    var v := seq(|at|, k requires 0 <= k < |at| => (w[at[k]].vbid + w[at[k]].vask) as real);
    hide SumOf, Bipower, MaxAbs, CountOf, Drift, Highest, Lowest, Over, Returns, Points, Booked, Mids, Mid;
    hide Lists, Live, ReturnAt, Wrap64, Clamp32, Neighbours;
    SumAs(rs, RetVol(), v);
    SumAs(rs, SignedVol(), seq(|at|, k requires 0 <= k < |at| =>
                                       if r[k] > 0.0 then v[k] else if r[k] < 0.0 then -v[k] else 0.0));
  }

  // ---- Spread ----

  lemma {:induction false} BookList(w: Window, n: nat) returns (at: seq<nat>)
    requires n <= |w|
    ensures Lists(at, n, BookTick(w))
    ensures |at| == |Booked(w[..n])| && forall k :: 0 <= k < |at| ==> Book(w, at[k]) && Booked(w[..n])[k] == w[at[k]]
  {
    hide Book, Lists;
    if n == 0 {
      at := [];
      NoBooks(w);
    } else {
      var f := BookList(w, n - 1);
      ListsSnoc(f, n - 1, BookTick(w));
      BookStep(w, n - 1);
      at := if Book(w, n - 1) then f + [n - 1] else f;
    }
  }

  lemma {:induction false} NoBooks(w: Window)
    ensures Booked(w[..0]) == [] && Lists([], 0, BookTick(w))
  {
  }

  lemma {:induction false} BookStep(w: Window, n: nat)
    requires n < |w|
    ensures Booked(w[..n + 1]) == Booked(w[..n]) + if Book(w, n) then [w[n]] else []
  {
    assert w[..n + 1][..n] == w[..n];
    assert Mid(w[n]) == Price(w[n]);
  }

  lemma {:induction false} ListsLength(at: seq<nat>, n: nat, p: nat -> bool)
    requires Lists(at, n, p)
    ensures |at| <= n
  {
    if at != [] {
      var m := |at| - 1;
      Climbing(at, m);
    }
  }

  lemma {:induction false} Climbing(at: seq<nat>, k: nat)
    requires k < |at| && forall i, l :: 0 <= i < l < |at| ==> at[i] < at[l]
    ensures k <= at[k]
  {
    if k > 0 {
      Climbing(at, k - 1);
    }
  }

  /** The spread is the mean over the real books, in basis points of the price; absent where there is none. */
  lemma {:induction false} SpreadFormula(ln: real -> real, w: Window) returns (at: seq<nat>)
    requires 0 < |w| < 0x1_0000_0000
    ensures Wrap32(|w|) > 0
    ensures Lists(at, |w|, BookTick(w)) && forall k :: 0 <= k < |at| ==> Book(w, at[k])
    ensures var bps := seq(|at|, k requires 0 <= k < |at| =>
                                   (w[at[k]].ask - w[at[k]].bid) / Price(w[at[k]]) * 10000.0);
            BarOf(ln, w).avgSpreadBps == if at == [] then None else Some(Sum(bps) / |at| as real)
  {
    SmallWrap(|w|);
    at := BookList(w, |w|);
    ListsLength(at, |w|, BookTick(w));
    SmallWrap(|at|);
    assert w[..|w|] == w;
    var bps := seq(|at|, k requires 0 <= k < |at| => (w[at[k]].ask - w[at[k]].bid) / Price(w[at[k]]) * 10000.0);
    forall k | 0 <= k < |at|
      ensures bps[k] == SpreadBps()(Booked(w)[k])
    {
      assert Mid(w[at[k]]) == Price(w[at[k]]);
    }
    hide SumOf, Bipower, MaxAbs, CountOf, Drift, Highest, Lowest, Returns, Points, Booked, Mids, Mid;
    hide Lists, Book, Wrap64, Clamp32, Ratio, SpreadBps;
    SumAs(Booked(w), SpreadBps(), bps);
  }

  // ---- Drift ----

  /** Seconds since the first tick. */
  function Elapsed(w: Window): (x: seq<real>)
    ensures |x| == |w| && forall k :: 0 <= k < |w| ==> x[k] == (w[k].ms - w[0].ms) as real / 1000.0
  {
    seq(|w|, k requires 0 <= k < |w| => (w[k].ms - w[0].ms) as real / 1000.0)
  }

  function Prices(w: Window): (y: seq<real>)
    ensures |y| == |w| && forall k :: 0 <= k < |w| ==> y[k] == Price(w[k])
  {
    seq(|w|, k requires 0 <= k < |w| => Price(w[k]))
  }

  /** How far the line `a + b x` misses a point, squared. */
  function Miss(x: real, y: real, a: real, b: real): real { (y - a - b * x) * (y - a - b * x) }

  /** The squared error of that line. */
  function SquaredError(x: seq<real>, y: seq<real>, a: real, b: real): real
    requires |x| == |y|
  {
    Sum(seq(|x|, k requires 0 <= k < |x| => Miss(x[k], y[k], a, b)))
  }

  /** How far the times are spread, and 0 exactly when they are all equal. */
  function Scatter(x: seq<real>): real
    requires x != []
  {
    Sum(seq(|x|, k requires 0 <= k < |x| => x[k] * x[k])) - Sum(x) * Sum(x) / |x| as real
  }

  predicate PointsAre(p: seq<Pt>, x: seq<real>, y: seq<real>) {
    |p| == |x| == |y| && forall k :: 0 <= k < |p| ==> p[k] == Pt(x[k], y[k])
  }

  lemma {:induction false} WindowPoints(w: Window)
    requires |w| < 0x1_0000_0000
    ensures PointsAre(Points(w), Elapsed(w), Prices(w))
  {
    forall k | 0 <= k < |w|
      ensures Points(w)[k] == Pt(Elapsed(w)[k], Prices(w)[k])
    {
      assert First(k) == 0 && Mid(w[k]) == Price(w[k]);
    }
  }

  lemma {:induction false} SseAs(p: seq<Pt>, x: seq<real>, y: seq<real>, a: real, b: real)
    requires PointsAre(p, x, y)
    ensures Sse(p, a, b) == SquaredError(x, y, a, b)
  {
    var f := (q: Pt) => Sq(q.y - a - b * q.x);
    forall q: Pt
      ensures f(q) == Miss(q.x, q.y, a, b)
    {
      MissAs(q, a, b);
    }
    hide Sq, Miss;
    SumAs(p, f, seq(|x|, k requires 0 <= k < |x| => Miss(x[k], y[k], a, b)));
    assert Sse(p, a, b) == SumOf(p, f);
  }

  lemma {:induction false} MissAs(q: Pt, a: real, b: real)
    ensures Sq(q.y - a - b * q.x) == Miss(q.x, q.y, a, b)
  {
  }

  lemma {:induction false} DenominatorAs(n: real, sx: real, sxx: real)
    requires n != 0.0
    ensures Denominator(n, sx, sxx) == sxx - sx * sx / n
  {
    var m := sx / n;
    assert n * m == sx;
    assert n * m * m == sx * m;
    assert sx * m == sx * sx / n;
  }

  lemma {:induction false} ScatterAs(p: seq<Pt>, x: seq<real>, y: seq<real>)
    requires PointsAre(p, x, y) && p != []
    ensures Denominator(|p| as real, Sx(p), Sxx(p)) == Scatter(x)
  {
    SumAs(p, PtX(), x);
    SumAs(p, PtXX(), seq(|x|, k requires 0 <= k < |x| => x[k] * x[k]));
    DenominatorAs(|p| as real, Sx(p), Sxx(p));
  }

  /** The line of least squared error, where there is one. */
  lemma {:induction false} BestLine(p: seq<Pt>, x: seq<real>, y: seq<real>) returns (a: real)
    requires PointsAre(p, x, y) && p != [] && Denominator(|p| as real, Sx(p), Sxx(p)) != 0.0
    ensures forall c, d :: SquaredError(x, y, a, FitSlope(p)) <= SquaredError(x, y, c, d)
  {
    hide Sse, SquaredError, FitSlope, FitIntercept;
    a := FitIntercept(p);
    SseAs(p, x, y, a, FitSlope(p));
    forall c, d
      ensures SquaredError(x, y, a, FitSlope(p)) <= SquaredError(x, y, c, d)
    {
      SseAs(p, x, y, c, d);
      SlopeIsLeastSquares(p, c, d);
    }
  }

  /** Slope times duration over close, with two ticks or more and none of the three next to nothing. */
  function Drifted(n: nat, lastX: real, close: real, scatter: real, slope: real): real {
    if n >= 2 && lastX > 0.0 && Positive(close) > 0.0000000001 && Positive(scatter) > 0.000000000001
    then slope * lastX / close else 0.0
  }

  /** Drift is the slope of the line that fits the prices best, times the duration and over the close; 0 where
      there is no such line, no duration or no close to speak of. */
  lemma {:induction false} DriftFormula(ln: real -> real, w: Window) returns (a: real, slope: real)
    requires 0 < |w| < 0x1_0000_0000
    ensures Wrap32(|w|) > 0
    ensures var b, x, y := BarOf(ln, w), Elapsed(w), Prices(w);
            && (Scatter(x) != 0.0 ==> forall c, d :: SquaredError(x, y, a, slope) <= SquaredError(x, y, c, d))
            && b.drift == Drifted(|w|, x[|w| - 1], y[|w| - 1], Scatter(x), slope)
  {
    hide BarOf, Drift, Wrap32, Scatter, SquaredError, Denominator, Slope, FitSlope, Elapsed, Prices, Points, PointsAre;
    hide Sx, Sy, Sxy, Sxx, Drifted;
    WindowPoints(w);
    BarDrift(ln, w);
    var p, x, y := Points(w), Elapsed(w), Prices(w);
    ScatterAs(p, x, y);
    a, slope := 0.0, 0.0;
    if Scatter(x) != 0.0 {
      slope := FitSlope(p);
      a := BestLine(p, x, y);
    }
    LastPoint(p, x, y);
    DriftAs(p, x[|w| - 1], y[|w| - 1], Scatter(x), slope);
  }

  lemma {:induction false} LastPoint(p: seq<Pt>, x: seq<real>, y: seq<real>)
    requires PointsAre(p, x, y) && p != []
    ensures p[|p| - 1].x == x[|p| - 1]
  {
  }

  lemma {:induction false} BarDrift(ln: real -> real, w: Window)
    requires 0 < |w| < 0x1_0000_0000
    ensures Wrap32(|w|) > 0
    ensures var p := Points(w);
            BarOf(ln, w).drift
            == Drift(|w|, p[|w| - 1].x, Prices(w)[|w| - 1], Sx(p), Sy(p), Sxy(p), Sxx(p))
  {
    hide Drift, Sx, Sy, Sxy, Sxx, Points, BarOf, Wrap32;
    BarOfWholeWindow(ln, w);
    PriceFormula(ln, w);
  }

  lemma {:induction false} DriftAs(p: seq<Pt>, lastX: real, close: real, scatter: real, slope: real)
    requires p != [] && scatter == Denominator(|p| as real, Sx(p), Sxx(p))
    requires scatter != 0.0 ==> slope == FitSlope(p)
    ensures Drift(|p|, lastX, close, Sx(p), Sy(p), Sxy(p), Sxx(p))
         == Drifted(|p|, lastX, close, scatter, slope)
  {
    hide Sx, Sy, Sxy, Sxx, Denominator, Slope;
  }
}
