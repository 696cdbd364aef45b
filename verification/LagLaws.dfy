/** What a quantile, a window between snapshots and a merged window say, in samples and counts.
 */
module LagLaws {
  import opened Lag
  import opened Optional

  // ---- Which sample a quantile stands for ----

  /** How many samples are at most `v`. */
  ghost function HowMany(xs: seq<nat>, v: nat): nat { |Places(xs, v)| }

  ghost function Places(xs: seq<nat>, v: nat): set<nat> { set i: nat | i < |xs| && xs[i] <= v }

  lemma {:induction false} HowManyCounted(xs: seq<nat>, v: nat)
    ensures CountIf(xs, AtMost(v)) == HowMany(xs, v)
  {
    if xs != [] {
      var n: nat := |xs| - 1;
      HowManyCounted(xs[..n], v);
      assert Places(xs, v) == Places(xs[..n], v) + if xs[n] <= v then {n} else {};
    }
  }

  /** The rank is the least one that is at least `q` of the samples, within 1 and all of them. */
  lemma {:induction false} RankLaw(q: real, n: nat)
    requires n > 0
    ensures 1 <= RankOf(q, n) <= n
    ensures q <= 1.0 ==> RankOf(q, n) as real >= q * n as real
    ensures RankOf(q, n) > 1 ==> RankOf(q, n) as real - 1.0 < q * n as real
    ensures q > 1.0 ==> RankOf(q, n) == n
  {
    Scaled(q, n);
  }

  lemma {:induction false} Scaled(q: real, n: nat)
    requires n > 0
    ensures q <= 1.0 ==> q * n as real <= n as real
    ensures q > 1.0 ==> q * n as real > n as real
  {
    assert (1.0 - q) * n as real == n as real - q * n as real;
  }

  /** `v` is the smallest sample with at least `q` of all samples at or below it; the largest one when `q` is
      above 1. */
  ghost predicate IsQuantile(xs: seq<nat>, q: real, v: nat) {
    && v in xs
    && if q > 1.0 then forall x :: x in xs ==> x <= v
       else && HowMany(xs, v) as real >= q * |xs| as real
            && forall u :: u in xs && u < v ==> (HowMany(xs, u) as real) < q * |xs| as real
  }

  lemma {:induction false} QuantileIsRankth(xs: seq<nat>, q: real, v: nat)
    requires xs != [] && IsRankth(xs, RankOf(q, |xs|), v)
    ensures IsQuantile(xs, q, v)
  {
    hide CountIf, RankOf, HowMany;
    var rank := RankOf(q, |xs|);
    RankLaw(q, |xs|);
    RankthIsSample(xs, rank, v);
    HowManyCounted(xs, v);
    forall u | u in xs && u < v
      ensures 1 <= HowMany(xs, u) < rank
    {
      HowManyCounted(xs, u);
      CountMonotone(xs, AtMost(u), Under(v));
      CountedItself(xs, u);
    }
    if q > 1.0 {
      forall x | x in xs
        ensures x <= v
      {
        AllBelow(xs, v, x);
      }
    }
  }

  lemma {:induction false} CountedItself(xs: seq<nat>, u: nat)
    requires u in xs
    ensures HowMany(xs, u) >= 1
  {
    var i: nat :| i < |xs| && xs[i] == u;
    assert i in Places(xs, u);
  }

  /** If all samples are counted at or below `v`, none is above. */
  lemma {:induction false} AllBelow(xs: seq<nat>, v: nat, x: nat)
    requires CountIf(xs, AtMost(v)) >= |xs| && x in xs
    ensures x <= v
  {
    var n := |xs| - 1;
    assert CountIf(xs[..n], AtMost(v)) <= n;
    if x != xs[n] {
      assert x in xs[..n];
      AllBelow(xs[..n], v, x);
    }
  }

  lemma {:induction false} QuantileUnique(xs: seq<nat>, q: real, u: nat, v: nat)
    requires IsQuantile(xs, q, u) && IsQuantile(xs, q, v)
    ensures u == v
  {
    hide HowMany;
  }

  /** The largest value of the power-of-two bucket of a sample below 16,384. */
  ghost predicate Tops(top: nat, v: nat) {
    exists k: nat :: top == Pow2(k) - 1 && v <= top && (k > 0 ==> Pow2(k - 1) <= v)
  }

  /** What a report says of the sample it stands for: the top of its bucket, and the largest sample where that is
      less or the bucket is the open one. */
  ghost predicate Reports(xs: seq<nat>, v: nat, r: nat) {
    if v >= 16_384 then r == Maximum(xs)
    else exists top: nat :: Tops(top, v) && r == if top <= Maximum(xs) then top else Maximum(xs)
  }

  lemma {:induction false} BucketTop(v: nat)
    requires v < 16_384
    ensures Tops(Edge(Bucket(v)), v) && Bucket(v) < 15
  {
    BucketRange(v);
    var k := Bucket(v);
    assert k < 15 ==> Edge(k) == Pow2(k) - 1;
    if k == 0 {
      assert Pow2(0) == 1;
    }
  }

  /** From the recorded samples to the report: none exactly when nothing was recorded, and for every `q` the
      bucket of the one sample it stands for. */
  method Answer(h: LagHist, q: real) returns (r: Option<nat>)
    requires h.Valid() && Fits(h.samples)
    ensures r.None? <==> h.samples == []
    ensures r.Some? ==> exists v: nat :: IsQuantile(h.samples, q, v) && Reports(h.samples, v, r.value)
  {
    hide Fits, IsRankth, Edge, Total, SnapOf, Maximum, IsQuantile, Reports;
    var s := h.Snap();
    ghost var xs := h.samples;
    TotalOf(xs);
    SnapNarrow(xs);
    r := Quantile(s, q);
    if r.Some? {
      ghost var rank := RankOf(q, |xs|);
      ghost var v := RankthFrom(xs, rank);
      ghost var k: nat :| HoldsRank(s.b, k, rank) && r.value == Min(Edge(k), s.max);
      QuantileIsRankth(xs, q, v);
      ReportsFor(xs, rank, v, k);
    }
  }

  lemma {:induction false} SnapNarrow(xs: seq<nat>)
    requires forall x :: x in xs ==> x < W32
    ensures OkSnap(SnapOf(xs))
  {
    hide Count;
  }

  lemma {:induction false} ReportsFor(xs: seq<nat>, rank: nat, v: nat, k: nat)
    requires Fits(xs) && IsRankth(xs, rank, v) && HoldsRank(SnapOf(xs).b, k, rank)
    requires forall x :: x in xs ==> x < W32
    ensures Reports(xs, v, Min(Edge(k), SnapOf(xs).max))
  {
    hide IsRankth, HoldsRank, Edge, Maximum, Tops;
    QuantileBounds(xs, rank, v, k);
    if v < 16_384 {
      FitsCounted(xs);
      RankBucket(xs, SnapOf(xs).b, rank, v, k);
      BucketTop(v);
      MaxOfSnap(xs);
    }
  }

  lemma {:induction false} FitsCounted(xs: seq<nat>)
    requires Fits(xs)
    ensures forall i :: 0 <= i < BUCKETS ==> SnapOf(xs).b[i] == Count(xs, i)
  {
    hide Count;
  }

  // ---- Windows between snapshots ----

  /** A counter that went down means a restart, and then the later snapshot is the window; else the counters are
      subtracted, and the maximum is the top of the last bucket with something in it, or the recorded one where
      that is less. */
  lemma {:induction false} SinceLaw(cur: LagSnap, prev: LagSnap)
    requires |cur.b| == |prev.b| == 16
    ensures (exists k :: 0 <= k < 16 && cur.b[k] < prev.b[k]) ==> Since(cur, prev) == cur
    ensures (forall k :: 0 <= k < 16 ==> cur.b[k] >= prev.b[k]) ==>
              var w := Since(cur, prev);
              && |w.b| == 16 && (forall k :: 0 <= k < 16 ==> w.b[k] == cur.b[k] - prev.b[k])
              && ((forall k :: 0 <= k < 16 ==> w.b[k] == 0) ==> w.max == 0)
              && (forall k :: 0 <= k < 16 && w.b[k] > 0 && (forall i :: k < i < 16 ==> w.b[i] == 0) ==>
                   var top := if k == 15 then 0xFFFF_FFFF else Pow2(k) - 1;
                   w.max == if top <= cur.max then top else cur.max)
  {
  }

  /** Merged counters add up and stop at their largest value; the maximum is the larger one. */
  lemma {:induction false} MergeLaw(a: LagSnap, o: LagSnap)
    requires |a.b| == |o.b| == 16
    ensures var r := Merged(a, o);
            && |r.b| == 16
            && (forall k :: 0 <= k < 16 ==>
                 r.b[k] == if a.b[k] + o.b[k] > 0xFFFF_FFFF then 0xFFFF_FFFF else a.b[k] + o.b[k])
            && r.max == if a.max < o.max then o.max else a.max
  {
  }
}
