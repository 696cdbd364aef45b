/** The log2 latency histogram: recording, windows, and quantiles, one operation at a time. */
module Lag {
  import opened Optional

  const BUCKETS: nat := 16
  const W32: nat := 0x1_0000_0000
  const U32_MAX: nat := 0xFFFF_FFFF

  // ---- Buckets and edges ----

  function Pow2(k: nat): (p: nat)
    ensures p >= 1
  {
    if k == 0 then 1 else 2 * Pow2(k - 1)
  }

  /** Significant bits of `n`: the word size minus its leading zeros. */
  function BitLen(n: nat): nat { if n == 0 then 0 else BitLen(n / 2) + 1 }

  function Bucket(ms: nat): (k: nat)
    ensures k < BUCKETS
  {
    if BitLen(ms) < BUCKETS - 1 then BitLen(ms) else BUCKETS - 1
  }

  /** What a quantile in bucket `k` reports: its largest value, or anything at all in the last one. */
  function Edge(k: nat): nat { if k + 1 == BUCKETS then U32_MAX else Pow2(k) - 1 }

  function Min(a: nat, b: nat): nat { if a <= b then a else b }

  function Max(a: nat, b: nat): nat { if a <= b then b else a }

  lemma {:induction false} BitLenRange(n: nat)
    ensures n < Pow2(BitLen(n))
    ensures n > 0 ==> BitLen(n) > 0 && Pow2(BitLen(n) - 1) <= n
    decreases n
  {
    if n > 0 {
      BitLenRange(n / 2);
      if n / 2 > 0 {
        assert Pow2(BitLen(n) - 1) == 2 * Pow2(BitLen(n / 2) - 1);
      }
    }
  }

  lemma {:induction false} Pow2Monotone(j: nat, k: nat)
    requires j <= k
    ensures Pow2(j) <= Pow2(k)
    decreases k
  {
    if j < k {
      Pow2Monotone(j, k - 1);
    }
  }

  lemma {:induction false} Pow2Of14()
    ensures Pow2(14) == 16_384
  {
    assert Pow2(4) == 16;
    assert Pow2(8) == 16 * Pow2(4);
    assert Pow2(12) == 16 * Pow2(8);
  }

  /** Bucket 0 is exactly 0; bucket `k` is `[2^(k-1), 2^k - 1]`; the last is open. */
  lemma {:induction false} BucketRange(ms: nat)
    ensures Bucket(ms) == 0 <==> ms == 0
    ensures 0 < Bucket(ms) < BUCKETS - 1 ==> Pow2(Bucket(ms) - 1) <= ms < Pow2(Bucket(ms)) && ms < 16_384
    ensures Bucket(ms) == BUCKETS - 1 ==> ms >= 16_384
  {
    BitLenRange(ms);
    Pow2Of14();
    if Bucket(ms) < BUCKETS - 1 {
      Pow2Monotone(Bucket(ms), 14);
    } else {
      Pow2Monotone(14, BitLen(ms) - 1);
    }
  }

  lemma {:induction false} BucketMonotone(a: nat, b: nat)
    requires Bucket(a) < Bucket(b)
    ensures a < b
  {
    BucketRange(a);
    BucketRange(b);
    if Bucket(a) > 0 {
      Pow2Monotone(Bucket(a), Bucket(b) - 1);
      if Bucket(b) == BUCKETS - 1 {
        Pow2Of14();
      }
    }
  }

  /** A bucket's upper edge bounds its samples from above, and by less than twice. */
  lemma {:induction false} EdgeBounds(ms: nat)
    requires ms < W32
    ensures ms <= Edge(Bucket(ms))
    ensures 0 < ms < 16_384 ==> Edge(Bucket(ms)) < 2 * ms
    ensures ms == 0 ==> Edge(Bucket(ms)) == 0
    ensures ms >= 16_384 ==> Edge(Bucket(ms)) == U32_MAX
  {
    BucketRange(ms);
    if 0 < ms < 16_384 {
      assert Pow2(Bucket(ms)) == 2 * Pow2(Bucket(ms) - 1);
    }
  }

  lemma {:induction false} EdgeMonotone(j: nat, k: nat)
    requires j <= k < BUCKETS
    ensures Edge(j) <= Edge(k)
  {
    Pow2Monotone(j, k);
    Pow2Of14();
    if j < BUCKETS - 1 {
      Pow2Monotone(j, 14);
    }
  }

  // ---- Histograms of samples ----

  function CountIf(xs: seq<nat>, p: nat -> bool): (n: nat)
    ensures n <= |xs|
  {
    if xs == [] then 0 else CountIf(xs[..|xs| - 1], p) + (if p(xs[|xs| - 1]) then 1 else 0)
  }

  function InBucket(k: nat): nat -> bool { (x: nat) => Bucket(x) == k }

  function BelowBucket(k: nat): nat -> bool { (x: nat) => Bucket(x) < k }

  function Under(v: nat): nat -> bool { (x: nat) => x < v }

  function AtMost(v: nat): nat -> bool { (x: nat) => x <= v }

  /** How many samples fall in bucket `k`. */
  function Count(xs: seq<nat>, k: nat): nat { CountIf(xs, InBucket(k)) }

  function Maximum(xs: seq<nat>): (m: nat)
    ensures forall x :: x in xs ==> x <= m
    ensures xs == [] ==> m == 0
    ensures xs != [] ==> m in xs
  {
    if xs == [] then 0
    else
      var n := |xs| - 1;
      assert xs == xs[..n] + [xs[n]];
      Max(Maximum(xs[..n]), xs[n])
  }

  /** Sixteen 32-bit counters and the maximum. */
  datatype LagSnap = LagSnap(b: seq<nat>, max: nat)

  ghost predicate OkSnap(s: LagSnap) {
    |s.b| == BUCKETS && s.max < W32 && forall k :: 0 <= k < BUCKETS ==> s.b[k] < W32
  }

  /** The counters and maximum after recording `xs`; the counters wrap at 32 bits. */
  function SnapOf(xs: seq<nat>): (s: LagSnap)
    ensures |s.b| == BUCKETS && forall k :: 0 <= k < BUCKETS ==> s.b[k] == Count(xs, k) % W32
  {
    LagSnap(seq(BUCKETS, k requires 0 <= k < BUCKETS => Count(xs, k) % W32), Maximum(xs))
  }

  lemma {:induction false} CountsAdd(xs: seq<nat>, ys: seq<nat>, k: nat)
    ensures Count(xs + ys, k) == Count(xs, k) + Count(ys, k)
  {
    CountConcat(xs, ys, InBucket(k));
  }

  lemma {:induction false} CountWitness(xs: seq<nat>, p: nat -> bool) returns (x: nat)
    requires CountIf(xs, p) > 0
    ensures x in xs && p(x)
  {
    var n := |xs| - 1;
    if p(xs[n]) {
      x := xs[n];
    } else {
      x := CountWitness(xs[..n], p);
    }
  }

  /** One more sample moves one counter and perhaps the maximum. */
  lemma {:induction false} CountSnoc(xs: seq<nat>, ms: nat, k: nat)
    ensures Count(xs + [ms], k) == Count(xs, k) + if Bucket(ms) == k then 1 else 0
  {
    hide Bucket;
    assert (xs + [ms])[..|xs|] == xs;
  }

  lemma {:induction false} WrapNext(n: nat)
    ensures (n % W32 + 1) % W32 == (n + 1) % W32
  {
  }

  lemma {:induction false} SnapSnoc(xs: seq<nat>, ms: nat)
    ensures var s, k := SnapOf(xs), Bucket(ms);
            SnapOf(xs + [ms]) == LagSnap(s.b[k := (s.b[k] + 1) % W32], Max(s.max, ms))
  {
    hide Bucket, Count, Maximum;
    var s, k, r := SnapOf(xs), Bucket(ms), SnapOf(xs + [ms]);
    forall i | 0 <= i < BUCKETS
      ensures r.b[i] == if i == k then (s.b[k] + 1) % W32 else s.b[i]
    {
      CountSnoc(xs, ms, i);
      WrapNext(Count(xs, k));
    }
    MaximumSnoc(xs, ms);
  }

  lemma {:induction false} MaximumSnoc(xs: seq<nat>, ms: nat)
    ensures Maximum(xs + [ms]) == Max(Maximum(xs), ms)
  {
    assert (xs + [ms])[..|xs|] == xs;
  }

  lemma {:induction false} CountConcat(xs: seq<nat>, ys: seq<nat>, p: nat -> bool)
    ensures CountIf(xs + ys, p) == CountIf(xs, p) + CountIf(ys, p)
  {
    if ys == [] {
      assert xs + ys == xs;
    } else {
      var n := |ys| - 1;
      CountConcat(xs, ys[..n], p);
      assert (xs + ys)[..|xs| + n] == xs + ys[..n];
    }
  }

  lemma {:induction false} CountMonotone(xs: seq<nat>, p: nat -> bool, q: nat -> bool)
    requires forall x :: x in xs && p(x) ==> q(x)
    ensures CountIf(xs, p) <= CountIf(xs, q)
  {
    if xs != [] {
      var n := |xs| - 1;
      assert forall x :: x in xs[..n] ==> x in xs;
      CountMonotone(xs[..n], p, q);
    }
  }

  lemma {:induction false} CountSplit(xs: seq<nat>, k: nat)
    ensures CountIf(xs, BelowBucket(k + 1)) == CountIf(xs, BelowBucket(k)) + Count(xs, k)
  {
    if xs != [] {
      CountSplit(xs[..|xs| - 1], k);
    }
  }

  lemma {:induction false} CountAll(xs: seq<nat>, p: nat -> bool)
    requires forall x :: x in xs ==> p(x)
    ensures CountIf(xs, p) == |xs|
  {
    if xs != [] {
      assert forall x :: x in xs[..|xs| - 1] ==> x in xs;
      CountAll(xs[..|xs| - 1], p);
    }
  }

  lemma {:induction false} CountNone(xs: seq<nat>, p: nat -> bool)
    requires forall x :: x in xs ==> !p(x)
    ensures CountIf(xs, p) == 0
  {
    if xs != [] {
      assert forall x :: x in xs[..|xs| - 1] ==> x in xs;
      CountNone(xs[..|xs| - 1], p);
    }
  }

  lemma {:induction false} CountGap(xs: seq<nat>, p: nat -> bool, q: nat -> bool) returns (x: nat)
    requires CountIf(xs, p) > CountIf(xs, q)
    ensures x in xs && p(x) && !q(x)
  {
    var n := |xs| - 1;
    if p(xs[n]) && !q(xs[n]) {
      x := xs[n];
    } else {
      x := CountGap(xs[..n], p, q);
    }
  }

  lemma {:induction false} MaximumConcat(xs: seq<nat>, ys: seq<nat>)
    ensures Maximum(xs + ys) == Max(Maximum(xs), Maximum(ys))
  {
    var m := Maximum(xs + ys);
    assert forall x :: x in xs || x in ys ==> x in xs + ys;
    if xs + ys != [] {
      assert m in xs || m in ys;
    }
  }

  /** Sum of the first `k` counters. */
  function Cum(b: seq<nat>, k: nat): nat
    requires k <= |b|
  {
    if k == 0 then 0 else Cum(b, k - 1) + b[k - 1]
  }

  /** With exact counters the cumulative sums count the samples below a bucket. */
  lemma {:induction false} CumCounts(xs: seq<nat>, b: seq<nat>, k: nat)
    requires |b| == BUCKETS && k <= BUCKETS
    requires forall i :: 0 <= i < BUCKETS ==> b[i] == Count(xs, i)
    ensures Cum(b, k) == CountIf(xs, BelowBucket(k))
  {
    if k == 0 {
      CountNone(xs, BelowBucket(0));
    } else {
      CumCounts(xs, b, k - 1);
      CountSplit(xs, k - 1);
    }
  }

  lemma {:induction false} CumMonotone(b: seq<nat>, j: nat, k: nat)
    requires j <= k <= |b|
    ensures Cum(b, j) <= Cum(b, k)
  {
    if j < k {
      CumMonotone(b, j, k - 1);
    }
  }

  // ---- The histogram object ----

  class LagHist {
    var b: seq<nat>
    var max: nat
    /** The samples recorded since the last `Take`. */
    ghost var samples: seq<nat>

    ghost predicate Valid()
      reads this
    {
      LagSnap(b, max) == SnapOf(samples) && forall x :: x in samples ==> x < W32
    }

    constructor ()
      ensures Valid() && samples == []
    {
      b := seq(BUCKETS, _ => 0);
      max := 0;
      samples := [];
    }

    method Record(ms: nat)
      requires Valid() && ms < W32
      modifies this
      ensures Valid() && samples == old(samples) + [ms]
    {
      SnapSnoc(samples, ms);
      hide SnapOf, Bucket;
      b := b[Bucket(ms) := (b[Bucket(ms)] + 1) % W32];
      if ms > max {
        max := ms;
      }
      samples := samples + [ms];
    }

    /** Cumulative counts; nothing is reset. */
    method Snap() returns (s: LagSnap)
      requires Valid()
      ensures s == SnapOf(samples)
    {
      s := LagSnap(b, max);
    }

    /** Read and zero: one window. */
    method Take() returns (s: LagSnap)
      requires Valid()
      modifies this
      ensures Valid() && samples == [] && s == SnapOf(old(samples))
    {
      s := LagSnap(b, max);
      b := seq(BUCKETS, _ => 0);
      max := 0;
      samples := [];
    }
  }

  // ---- Quantiles ----

  function Total(s: LagSnap): nat
    requires |s.b| == BUCKETS
  {
    Cum(s.b, BUCKETS)
  }

  function Ceil(x: real): int { -((-x).Floor) }

  /** The 1-based rank a quantile asks for, clamped to `[1, n]`. */
  function RankOf(q: real, n: nat): nat
    requires n > 0
  {
    var r := Ceil(q * n as real);
    if r < 1 then 1 else if r > n then n else r
  }

  /** Bucket `k` holds rank `rank`. */
  ghost predicate HoldsRank(b: seq<nat>, k: nat, rank: nat) {
    k < |b| && Cum(b, k) < rank <= Cum(b, k + 1)
  }

  /** The upper edge of the bucket holding the quantile, capped at the maximum. */
  method Quantile(s: LagSnap, q: real) returns (r: Option<nat>)
    requires OkSnap(s)
    ensures r.None? <==> Total(s) == 0
    ensures r.Some? ==> exists k :: HoldsRank(s.b, k, RankOf(q, Total(s))) && r.value == Min(Edge(k), s.max)
  {
    var n := 0;
    for i := 0 to BUCKETS
      invariant n == Cum(s.b, i)
    {
      n := n + s.b[i];
    }
    if n == 0 {
      return None;
    }
    var rank := RankOf(q, n);
    var acc := 0;
    for k := 0 to BUCKETS
      invariant acc == Cum(s.b, k) < rank
    {
      acc := acc + s.b[k];
      if acc >= rank {
        assert HoldsRank(s.b, k, rank);
        return Some(Min(Edge(k), s.max));
      }
    }
    assert false;
  }

  /** `v` is the `rank`-th smallest of `xs`. */
  ghost predicate IsRankth(xs: seq<nat>, rank: nat, v: nat) {
    CountIf(xs, Under(v)) < rank <= CountIf(xs, AtMost(v))
  }

  /** No bucket of `xs` overflows its 32-bit counter. */
  ghost predicate Fits(xs: seq<nat>) {
    forall k :: 0 <= k < BUCKETS ==> Count(xs, k) < W32
  }

  /** The bucket holding a rank is the bucket of the order statistic of that rank. */
  lemma {:induction false} RankBucket(xs: seq<nat>, b: seq<nat>, rank: nat, v: nat, k: nat)
    requires |b| == BUCKETS && forall i :: 0 <= i < BUCKETS ==> b[i] == Count(xs, i)
    requires IsRankth(xs, rank, v) && HoldsRank(b, k, rank)
    ensures k == Bucket(v)
  {
    hide Cum, Count, Bucket;
    BucketRange(v);
    var kv := Bucket(v);
    CumCounts(xs, b, kv);
    CumCounts(xs, b, kv + 1);
    BucketEnds(xs, v);
    if k < kv {
      CumMonotone(b, k + 1, kv);
    } else if kv < k {
      CumMonotone(b, kv + 1, k);
    }
  }

  /** And that bucket does hold the rank. */
  lemma {:induction false} RankHeld(xs: seq<nat>, b: seq<nat>, rank: nat, v: nat)
    requires |b| == BUCKETS && forall i :: 0 <= i < BUCKETS ==> b[i] == Count(xs, i)
    requires IsRankth(xs, rank, v)
    ensures HoldsRank(b, Bucket(v), rank)
  {
    hide Cum, Count;
    var kv := Bucket(v);
    BucketRange(v);
    CumCounts(xs, b, kv);
    CumCounts(xs, b, kv + 1);
    BucketEnds(xs, v);
  }

  /** The samples below `v`'s bucket are under `v`, those at most `v` are not above it. */
  lemma {:induction false} BucketEnds(xs: seq<nat>, v: nat)
    ensures CountIf(xs, BelowBucket(Bucket(v))) <= CountIf(xs, Under(v))
    ensures CountIf(xs, AtMost(v)) <= CountIf(xs, BelowBucket(Bucket(v) + 1))
  {
    hide Bucket;
    var kv := Bucket(v);
    forall x: nat | Bucket(x) < kv
      ensures x < v
    {
      BucketMonotone(x, v);
    }
    forall x: nat | x <= v
      ensures Bucket(x) < kv + 1
    {
      if Bucket(x) > kv {
        BucketMonotone(v, x);
      }
    }
    CountMonotone(xs, BelowBucket(kv), Under(v));
    CountMonotone(xs, AtMost(v), BelowBucket(kv + 1));
  }

  lemma {:induction false} RankthIsSample(xs: seq<nat>, rank: nat, v: nat)
    requires IsRankth(xs, rank, v)
    ensures v in xs
  {
    var x := CountGap(xs, AtMost(v), Under(v));
  }

  /** A reported value is never below the order statistic it stands for, and for samples
      under 16,384 it is below twice it. From 16,384 on, in the open bucket, it is the cap. */
  lemma {:induction false} ReportBounds(xs: seq<nat>, b: seq<nat>, max: nat, rank: nat, v: nat, k: nat)
    requires |b| == BUCKETS && forall i :: 0 <= i < BUCKETS ==> b[i] == Count(xs, i)
    requires IsRankth(xs, rank, v) && HoldsRank(b, k, rank) && v < W32
    requires v <= max < W32
    ensures v <= Min(Edge(k), max)
    ensures 0 < v < 16_384 ==> Min(Edge(k), max) < 2 * v
    ensures v == 0 ==> Min(Edge(k), max) == 0
    ensures v >= 16_384 ==> Min(Edge(k), max) == max
  {
    RankBucket(xs, b, rank, v, k);
    EdgeBounds(v);
  }

  /** Every quantile of a recorded window bounds its true order statistic. */
  lemma {:induction false} QuantileBounds(xs: seq<nat>, rank: nat, v: nat, k: nat)
    requires Fits(xs) && IsRankth(xs, rank, v) && HoldsRank(SnapOf(xs).b, k, rank)
    requires forall x :: x in xs ==> x < W32
    ensures var r := Min(Edge(k), SnapOf(xs).max);
            && v <= r
            && (0 < v < 16_384 ==> r < 2 * v)
            && (v == 0 ==> r == 0)
            && (v >= 16_384 ==> r == Maximum(xs))
  {
    RankthIsSample(xs, rank, v);
    ReportBounds(xs, SnapOf(xs).b, Maximum(xs), rank, v, k);
  }

  /** "At most twice the true value" exactly: everywhere below the open bucket, and in it only as far
      as the maximum happens to allow. */
  lemma {:induction false} TwiceExactlyWhen(xs: seq<nat>, rank: nat, v: nat, k: nat)
    requires Fits(xs) && IsRankth(xs, rank, v) && HoldsRank(SnapOf(xs).b, k, rank)
    requires forall x :: x in xs ==> x < W32
    ensures Min(Edge(k), SnapOf(xs).max) <= 2 * v <==> v < 16_384 || Maximum(xs) <= 2 * v
  {
    hide HoldsRank, IsRankth, Fits, Edge;
    QuantileBounds(xs, rank, v, k);
  }

  /** Every rank from 1 to the number of samples has an order statistic. */
  lemma {:induction false} RankthExists(xs: seq<nat>, rank: nat, from: nat) returns (v: nat)
    requires CountIf(xs, Under(from)) < rank <= |xs|
    ensures IsRankth(xs, rank, v)
    decreases if from <= Maximum(xs) then Maximum(xs) + 1 - from else 0
  {
    if rank <= CountIf(xs, AtMost(from)) {
      v := from;
    } else {
      CountMonotone(xs, Under(from + 1), AtMost(from));
      if from >= Maximum(xs) {
        CountAll(xs, AtMost(from));
      }
      v := RankthExists(xs, rank, from + 1);
    }
  }

  lemma {:induction false} TotalOf(xs: seq<nat>)
    requires Fits(xs)
    ensures Total(SnapOf(xs)) == |xs|
  {
    CumCounts(xs, SnapOf(xs).b, BUCKETS);
    forall x: nat
      ensures Bucket(x) < BUCKETS
    {
      BucketRange(x);
    }
    CountAll(xs, BelowBucket(BUCKETS));
  }

  /** The whole way from the recorded samples to a report: for every `q` the answer stands for the
      sample of the rank `q` asks for, is never below it, and below twice it under 16,384. */
  method Report(h: LagHist, q: real) returns (r: Option<nat>)
    requires h.Valid() && Fits(h.samples)
    ensures r.None? <==> h.samples == []
    ensures r.Some? ==> exists v: nat :: IsRankth(h.samples, RankOf(q, |h.samples|), v)
    ensures r.Some? ==>
              forall v: nat :: IsRankth(h.samples, RankOf(q, |h.samples|), v) ==>
                v <= r.value && (0 < v < 16_384 ==> r.value < 2 * v) && (v == 0 ==> r.value == 0)
                && (v >= 16_384 ==> r.value == Maximum(h.samples))
  {
    var s := h.Snap();
    ghost var xs := h.samples;
    TotalOf(xs);
    hide Fits, IsRankth, Edge, Total, SnapOf, Maximum;
    r := Quantile(s, q);
    if r.Some? {
      ghost var rank := RankOf(q, |xs|);
      ghost var v := RankthFrom(xs, rank);
      ghost var k: nat :| HoldsRank(s.b, k, rank) && r.value == Min(Edge(k), s.max);
      ReportFor(xs, rank, k);
    }
  }

  lemma {:induction false} ReportFor(xs: seq<nat>, rank: nat, k: nat)
    requires Fits(xs) && HoldsRank(SnapOf(xs).b, k, rank) && forall x :: x in xs ==> x < W32
    ensures var r := Min(Edge(k), SnapOf(xs).max);
            forall v: nat :: IsRankth(xs, rank, v) ==>
              v <= r && (0 < v < 16_384 ==> r < 2 * v) && (v == 0 ==> r == 0) && (v >= 16_384 ==> r == Maximum(xs))
  {
    hide Fits, IsRankth, HoldsRank, Edge, SnapOf, Maximum, Min;
    forall v: nat | IsRankth(xs, rank, v)
      ensures var r := Min(Edge(k), SnapOf(xs).max);
              v <= r && (0 < v < 16_384 ==> r < 2 * v) && (v == 0 ==> r == 0) && (v >= 16_384 ==> r == Maximum(xs))
    {
      QuantileBounds(xs, rank, v, k);
    }
  }

  lemma {:induction false} RankthFrom(xs: seq<nat>, rank: nat) returns (v: nat)
    requires 1 <= rank <= |xs|
    ensures IsRankth(xs, rank, v)
  {
    CountNone(xs, Under(0));
    v := RankthExists(xs, rank, 0);
  }

  /** A counter that wraps loses its window: 2^32 samples read as none. */
  lemma {:induction false} WrappedWindowReadsEmpty(xs: seq<nat>)
    requires |xs| == W32 && forall x :: x in xs ==> x == 5
    ensures SnapOf(xs).b == SnapOf([]).b && Total(SnapOf(xs)) == 0 && !Fits(xs)
  {
    CountAll(xs, InBucket(Bucket(5)));
    forall k | 0 <= k < BUCKETS && k != Bucket(5)
      ensures Count(xs, k) == 0
    {
      CountNone(xs, InBucket(k));
    }
    assert Count(xs, Bucket(5)) == W32;
    forall k | 0 <= k < BUCKETS
      ensures SnapOf(xs).b[k] == 0 && SnapOf([]).b[k] == 0
    {
      assert Count([], k) == 0;
    }
    assert SnapOf(xs).b == SnapOf([]).b;
    CumZero(SnapOf(xs).b, BUCKETS);
  }

  lemma {:induction false} CumZero(b: seq<nat>, k: nat)
    requires k <= |b| && forall i :: 0 <= i < |b| ==> b[i] == 0
    ensures Cum(b, k) == 0
  {
    if k > 0 {
      CumZero(b, k - 1);
    }
  }

  /** In the open bucket "at most twice" does not hold. */
  lemma {:induction false} OpenBucketIsLoose()
    ensures var xs := [16_384, 100_000];
            && IsRankth(xs, 1, 16_384) && HoldsRank(SnapOf(xs).b, 15, 1)
            && Min(Edge(15), SnapOf(xs).max) == 100_000 > 2 * 16_384
  {
    var xs: seq<nat> := [16_384, 100_000];
    LeastOfTwo(16_384, 100_000);
    MaximumSnoc([16_384], 100_000);
    assert xs == [16_384] + [100_000] && Maximum([16_384]) == 16_384;
    FewFit(xs);
    hide IsRankth, HoldsRank, SnapOf, Maximum, Bucket;
    BucketRange(16_384);
    RankHeld(xs, SnapOf(xs).b, 1, 16_384);
    assert SnapOf(xs).max == Maximum(xs) by { MaxOfSnap(xs); }
  }

  lemma {:induction false} MaxOfSnap(xs: seq<nat>)
    ensures SnapOf(xs).max == Maximum(xs)
  {
  }

  lemma {:induction false} LeastOfTwo(a: nat, b: nat)
    requires a < b
    ensures IsRankth([a, b], 1, a)
  {
    assert [a, b][..1] == [a] && [a][..0] == [];
  }

  /** Fewer than 2^32 samples never overflow a counter. */
  lemma {:induction false} FewFit(xs: seq<nat>)
    requires |xs| < W32
    ensures Fits(xs) && forall i :: 0 <= i < BUCKETS ==> SnapOf(xs).b[i] == Count(xs, i)
  {
    hide Bucket;
  }

  // ---- Windows between snapshots ----

  /** Some counter went down: the source restarted. */
  predicate WentDown(cur: LagSnap, prev: LagSnap)
    requires |cur.b| == |prev.b| == BUCKETS
  {
    exists k :: 0 <= k < BUCKETS && cur.b[k] < prev.b[k]
  }

  /** The last non-empty bucket below `k`, if any. */
  function TopBucket(b: seq<nat>, k: nat): (r: Option<nat>)
    requires k <= |b|
    ensures r.None? ==> forall i :: 0 <= i < k ==> b[i] == 0
    ensures r.Some? ==> r.value < k && b[r.value] > 0 && forall i :: r.value < i < k ==> b[i] == 0
  {
    if k == 0 then None else if b[k - 1] > 0 then Some(k - 1) else TopBucket(b, k - 1)
  }

  function WindowMax(b: seq<nat>, cap: nat): nat {
    var t := TopBucket(b, |b|);
    if t.Some? then Min(Edge(t.value), cap) else 0
  }

  function Diffs(cur: LagSnap, prev: LagSnap): (b: seq<nat>)
    requires |cur.b| == |prev.b| == BUCKETS && !WentDown(cur, prev)
    ensures |b| == BUCKETS && forall k :: 0 <= k < BUCKETS ==> b[k] == cur.b[k] - prev.b[k]
  {
    seq(BUCKETS, k requires 0 <= k < BUCKETS && prev.b[k] <= cur.b[k] => cur.b[k] - prev.b[k])
  }

  /** The window between an earlier snapshot and this one. */
  function Since(cur: LagSnap, prev: LagSnap): LagSnap
    requires |cur.b| == |prev.b| == BUCKETS
  {
    if WentDown(cur, prev) then cur
    else LagSnap(Diffs(cur, prev), WindowMax(Diffs(cur, prev), cur.max))
  }

  /** The counters hold the counts of `ys`. */
  ghost predicate Holds(b: seq<nat>, ys: seq<nat>) {
    |b| == BUCKETS && forall k :: 0 <= k < BUCKETS ==> b[k] == Count(ys, k)
  }

  /** Recording `ys` after `xs` wraps no counter past its value at the earlier snapshot. */
  ghost predicate NoWrap(xs: seq<nat>, ys: seq<nat>) {
    forall k :: 0 <= k < BUCKETS ==> Count(xs, k) % W32 + Count(ys, k) < W32
  }

  lemma {:induction false} WrapOnce(a: nat, c: nat)
    requires a < W32
    ensures a + c < W32 ==> (a + c) % W32 == a + c
    ensures a + c >= W32 ==> (a + c) % W32 != a + c && (a + c) % W32 != c
    ensures a + c >= W32 ==> (a + c) % W32 < a || (a + c) % W32 - a != c
  {
  }

  /** The difference of two snapshots is exactly the histogram of what was recorded between
      them, if and only if no counter wrapped in between. */
  lemma {:induction false} SinceIsWindow(xs: seq<nat>, ys: seq<nat>)
    ensures Holds(Since(SnapOf(xs + ys), SnapOf(xs)).b, ys) <==> NoWrap(xs, ys)
  {
    hide Count, WindowMax;
    var cur, prev := SnapOf(xs + ys), SnapOf(xs);
    forall k | 0 <= k < BUCKETS
      ensures prev.b[k] + Count(ys, k) < W32 ==> cur.b[k] == prev.b[k] + Count(ys, k)
      ensures prev.b[k] + Count(ys, k) >= W32 ==>
                cur.b[k] != Count(ys, k) && (cur.b[k] < prev.b[k] || cur.b[k] - prev.b[k] != Count(ys, k))
    {
      CountsAdd(xs, ys, k);
      WrapOnce(prev.b[k], Count(ys, k));
    }
    if !NoWrap(xs, ys) {
      var k :| 0 <= k < BUCKETS && prev.b[k] + Count(ys, k) >= W32;
      assert Since(cur, prev).b[k] != Count(ys, k);
    }
  }

  lemma {:induction false} HeldSample(b: seq<nat>, ys: seq<nat>, y: nat)
    requires Holds(b, ys) && y in ys
    ensures b[Bucket(y)] > 0
  {
    var k := Bucket(y);
    if Count(ys, k) == 0 {
      CountPositive(ys, InBucket(k), y);
    }
  }

  lemma {:induction false} CountPositive(xs: seq<nat>, p: nat -> bool, x: nat)
    requires x in xs && p(x)
    ensures CountIf(xs, p) > 0
  {
    var n := |xs| - 1;
    if x != xs[n] {
      assert x in xs[..n];
      CountPositive(xs[..n], p, x);
    }
  }

  /** Every sample of the window is within the window maximum. */
  lemma {:induction false} WindowMaxCovers(b: seq<nat>, ys: seq<nat>, cap: nat, y: nat)
    requires Holds(b, ys) && y in ys && y <= cap < W32
    ensures y <= WindowMax(b, cap)
  {
    HeldSample(b, ys, y);
    var t := TopBucket(b, BUCKETS).value;
    assert Bucket(y) <= t;
    EdgeBounds(y);
    EdgeMonotone(Bucket(y), t);
  }

  /** Quantiles of a window between snapshots keep the bounds, though its exact maximum is lost. */
  lemma {:induction false} SinceQuantileBounds(xs: seq<nat>, ys: seq<nat>, rank: nat, v: nat, k: nat)
    requires NoWrap(xs, ys) && IsRankth(ys, rank, v)
    requires forall x :: x in xs + ys ==> x < W32
    requires HoldsRank(Since(SnapOf(xs + ys), SnapOf(xs)).b, k, rank)
    ensures var r := Min(Edge(k), Since(SnapOf(xs + ys), SnapOf(xs)).max);
            v <= r && (0 < v < 16_384 ==> r < 2 * v) && (v == 0 ==> r == 0)
  {
    var w := Since(SnapOf(xs + ys), SnapOf(xs));
    SinceIsWindow(xs, ys);
    RankthIsSample(ys, rank, v);
    assert v in xs + ys;
    SinceShape(xs, ys);
    WindowMaxCovers(w.b, ys, Maximum(xs + ys), v);
    ReportBounds(ys, w.b, w.max, rank, v, k);
  }

  /** "At most twice the true value" exactly, for a window between snapshots: in the open bucket it hangs
      on the maximum of everything recorded. */
  lemma {:induction false} SinceTwiceExactlyWhen(xs: seq<nat>, ys: seq<nat>, rank: nat, v: nat, k: nat)
    requires NoWrap(xs, ys) && IsRankth(ys, rank, v)
    requires forall x :: x in xs + ys ==> x < W32
    requires HoldsRank(Since(SnapOf(xs + ys), SnapOf(xs)).b, k, rank)
    ensures Min(Edge(k), Since(SnapOf(xs + ys), SnapOf(xs)).max) <= 2 * v
            <==> v < 16_384 || Maximum(xs + ys) <= 2 * v
  {
    hide HoldsRank, IsRankth, Since, SnapOf, NoWrap, Holds;
    var w := Since(SnapOf(xs + ys), SnapOf(xs));
    SinceQuantileBounds(xs, ys, rank, v, k);
    if v >= 16_384 {
      SinceShape(xs, ys);
      OpenBucketMax(ys, w.b, Maximum(xs + ys), rank, v, k);
    }
  }

  /** A rank in the open bucket reports the maximum of everything recorded. */
  lemma {:induction false} OpenBucketMax(ys: seq<nat>, b: seq<nat>, cap: nat, rank: nat, v: nat, k: nat)
    requires Holds(b, ys) && IsRankth(ys, rank, v) && HoldsRank(b, k, rank)
    requires v >= 16_384 && cap < W32
    ensures Min(Edge(k), WindowMax(b, cap)) == cap
  {
    hide HoldsRank, IsRankth;
    RankthIsSample(ys, rank, v);
    RankBucket(ys, b, rank, v, k);
    BucketRange(v);
    HeldSample(b, ys, v);
  }

  lemma {:induction false} SinceShape(xs: seq<nat>, ys: seq<nat>)
    requires NoWrap(xs, ys)
    ensures var w := Since(SnapOf(xs + ys), SnapOf(xs));
            Holds(w.b, ys) && w.max == WindowMax(w.b, Maximum(xs + ys))
  {
    hide Count, WindowMax, Bucket, Maximum;
    SinceIsWindow(xs, ys);
    var cur, prev := SnapOf(xs + ys), SnapOf(xs);
    forall k | 0 <= k < BUCKETS
      ensures cur.b[k] >= prev.b[k]
    {
      CountsAdd(xs, ys, k);
      WrapOnce(prev.b[k], Count(ys, k));
    }
    assert !WentDown(cur, prev);
  }

  // ---- Merging windows ----

  function SatAdd(a: nat, b: nat): nat { Min(a + b, U32_MAX) }

  function Merged(a: LagSnap, o: LagSnap): (r: LagSnap)
    requires |a.b| == |o.b| == BUCKETS
    ensures |r.b| == BUCKETS
  {
    LagSnap(seq(BUCKETS, k requires 0 <= k < BUCKETS => SatAdd(a.b[k], o.b[k])), Max(a.max, o.max))
  }

  /** Fold another window into this one, counter by counter. */
  method Merge(a: LagSnap, o: LagSnap) returns (r: LagSnap)
    requires |a.b| == |o.b| == BUCKETS
    ensures r == Merged(a, o)
  {
    var b := a.b;
    for k := 0 to BUCKETS
      invariant |b| == BUCKETS
      invariant b[..k] == Merged(a, o).b[..k] && b[k..] == a.b[k..]
    {
      b := b[k := SatAdd(b[k], o.b[k])];
    }
    assert b == b[..BUCKETS];
    r := LagSnap(b, Max(a.max, o.max));
  }

  /** Drained windows merge to the window of both, while the counters have room. */
  lemma {:induction false} MergeIsConcat(xs: seq<nat>, ys: seq<nat>)
    requires Fits(xs + ys)
    ensures Merged(SnapOf(xs), SnapOf(ys)) == SnapOf(xs + ys)
  {
    hide Count;
    var r, w := Merged(SnapOf(xs), SnapOf(ys)), SnapOf(xs + ys);
    forall k | 0 <= k < BUCKETS
      ensures r.b[k] == w.b[k]
    {
      CountsAdd(xs, ys, k);
      assert Count(xs + ys, k) < W32;
    }
    MaximumConcat(xs, ys);
  }

  /** The maximum of adjacent windows is that of the whole window. `c1` and `c2` are the
      cumulative maxima at the two later snapshots: where the earlier cap would bind, it is
      the later one too. */
  lemma {:induction false} WindowMaxMerges(b1: seq<nat>, ys: seq<nat>, b2: seq<nat>, zs: seq<nat>,
                                           whole: seq<nat>, c1: nat, c2: nat)
    requires Holds(b1, ys) && Holds(b2, zs) && Holds(whole, ys + zs)
    requires (forall y :: y in ys ==> y <= c1) && (c2 == c1 || c2 in zs) && c1 <= c2
    ensures Max(WindowMax(b1, c1), WindowMax(b2, c2)) == WindowMax(whole, c2)
  {
    hide Count, Edge, Bucket;
    forall k | 0 <= k < BUCKETS
      ensures whole[k] == b1[k] + b2[k]
    {
      CountsAdd(ys, zs, k);
    }
    var t1, t2, t := TopBucket(b1, BUCKETS), TopBucket(b2, BUCKETS), TopBucket(whole, BUCKETS);
    assert t == if t2.None? || (t1.Some? && t1.value > t2.value) then t1 else t2;
    if t1.Some? && (t2.None? || t1.value > t2.value) {
      CapAgrees(b1, ys, b2, zs, c1, c2);
      if t2.Some? {
        EdgeMonotone(t2.value, t1.value);
      }
    } else if t1.Some? {
      EdgeMonotone(t1.value, t2.value);
    }
  }

  /** If the earlier window reaches a higher bucket, the later one did not raise the maximum. */
  lemma {:induction false} CapAgrees(b1: seq<nat>, ys: seq<nat>, b2: seq<nat>, zs: seq<nat>, c1: nat, c2: nat)
    requires Holds(b1, ys) && Holds(b2, zs)
    requires (forall y :: y in ys ==> y <= c1) && (c2 == c1 || c2 in zs) && c1 <= c2
    requires var t1, t2 := TopBucket(b1, BUCKETS), TopBucket(b2, BUCKETS);
             t1.Some? && (t2.None? || t1.value > t2.value)
    ensures c1 == c2
  {
    var t1, t2 := TopBucket(b1, BUCKETS), TopBucket(b2, BUCKETS);
    var y := CountWitness(ys, InBucket(t1.value));
    if c2 in zs {
      HeldSample(b2, zs, c2);
      assert Bucket(c2) < Bucket(y);
      BucketMonotone(c2, y);
    }
  }

  /** Adjacent windows between three snapshots merge to the window from the first to the last. */
  lemma {:induction false} AdjacentWindowsMerge(xs: seq<nat>, ys: seq<nat>, zs: seq<nat>)
    requires NoWrap(xs, ys + zs)
    ensures var a, b, c := SnapOf(xs), SnapOf(xs + ys), SnapOf(xs + ys + zs);
            Merged(Since(b, a), Since(c, b)) == Since(c, a)
  {
    hide Count, WindowMax, Maximum;
    forall k | 0 <= k < BUCKETS
      ensures Count(xs, k) % W32 + Count(ys, k) < W32
      ensures Count(xs + ys, k) % W32 + Count(zs, k) < W32
      ensures Count(ys + zs, k) == Count(ys, k) + Count(zs, k) < W32
    {
      CountsAdd(ys, zs, k);
      CountsAdd(xs, ys, k);
      WrapOnce(Count(xs, k) % W32, Count(ys, k));
    }
    assert NoWrap(xs, ys) && NoWrap(xs + ys, zs);
    assert xs + ys + zs == xs + (ys + zs);
    SinceShape(xs, ys);
    SinceShape(xs + ys, zs);
    SinceShape(xs, ys + zs);
    var a, b, c := SnapOf(xs), SnapOf(xs + ys), SnapOf(xs + ys + zs);
    var w1, w2, w := Since(b, a), Since(c, b), Since(c, a);
    MaximumConcat(xs + ys, zs);
    assert forall y :: y in ys ==> y in xs + ys;
    WindowMaxMerges(w1.b, ys, w2.b, zs, w.b, Maximum(xs + ys), Maximum(xs + ys + zs));
    assert forall k :: 0 <= k < BUCKETS ==> Merged(w1, w2).b[k] == w.b[k];
  }
}
