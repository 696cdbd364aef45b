/** Rolling a candle series up to a coarser bucket size through a hash map of buckets,
    and the laws that tie rollup to resampling and to itself.
 */
module OhlcRollup {
  import opened IntSets
  import opened Ohlc
  import opened Optional

  type Buckets = map<int, Bar>

  /** Fold a bar into the bucket starting at `bs`; an open leg leaves the close alone. */
  function Touch(m: Buckets, tf: int, bs: int, bar: Bar, closes: bool): Buckets {
    if bs in m then
      var st := m[bs];
      m[bs := Bar(st.ts, st.closeTs, st.open, MaxR(st.high, bar.high), MinR(st.low, bar.low),
                  if closes then bar.close else st.close,
                  Add64(st.vbid, bar.vbid), Add64(st.vask, bar.vask), View(Saturating, st.ticks + bar.ticks))]
    else
      m[bs := bar.(ts := bs, closeTs := bs + tf - 1)]
  }

  /** The bar opens and closes in different buckets. */
  predicate Straddles(tf: int, b: Bar)
    requires tf > 0
  {
    BucketStart(b.ts, tf) != BucketStart(b.closeTs, tf)
  }

  function AddBar(m: Buckets, tf: int, b: Bar): Buckets
    requires tf > 0
  {
    var openBs, closeBs := BucketStart(b.ts, tf), BucketStart(b.closeTs, tf);
    if openBs == closeBs then Touch(m, tf, openBs, b, true)
    else Touch(Touch(m, tf, openBs, b, false), tf, closeBs, b, true)
  }

  function Fill(tf: int, series: seq<Bar>): Buckets
    requires tf > 0
  {
    if series == [] then map[] else AddBar(Fill(tf, series[..|series| - 1]), tf, series[|series| - 1])
  }

  /** The buckets by ascending key. */
  ghost function Ordered(m: Buckets): seq<Bar>
    decreases |m.Keys|
  {
    if m.Keys == {} then []
    else
      var k := MaxOf(m.Keys);
      assert (m - {k}).Keys == m.Keys - {k};
      Ordered(m - {k}) + [m[k]]
  }

  ghost function RollupSpec(tf: int, series: seq<Bar>): seq<Bar>
    requires tf > 0
  {
    Ordered(Fill(tf, series))
  }

  /** Roll a series up. The source asserts the size conditions. */
  method Rollup(series: seq<Bar>, srcTf: int, dstTf: int) returns (out: seq<Bar>)
    requires srcTf > 0 && dstTf > 0 && dstTf >= srcTf && dstTf % srcTf == 0
    ensures out == RollupSpec(dstTf, series)
  {
    var buckets: Buckets := map[];
    for i := 0 to |series|
      invariant buckets == Fill(dstTf, series[..i])
    {
      hide Touch;
      assert series[..i + 1][..i] == series[..i];
      var bar := series[i];
      var openBs := BucketStart(bar.ts, dstTf);
      var closeBs := BucketStart(bar.closeTs, dstTf);
      if openBs == closeBs {
        buckets := Touch(buckets, dstTf, openBs, bar, true);
      } else {
        buckets := Touch(buckets, dstTf, openBs, bar, false);
        buckets := Touch(buckets, dstTf, closeBs, bar, true);
      }
    }
    assert series[..|series|] == series;
    out := InKeyOrder(buckets);
  }

  /** Take the buckets out by key, largest first. */
  method InKeyOrder(m: Buckets) returns (out: seq<Bar>)
    ensures out == Ordered(m)
  {
    var left := m;
    out := [];
    while left.Keys != {}
      invariant Ordered(left) + out == Ordered(m)
      decreases |left.Keys|
    {
      var k := FindMax(left.Keys);
      assert (left - {k}).Keys == left.Keys - {k};
      assert Ordered(left - {k}) + [left[k]] + out == Ordered(left - {k}) + ([left[k]] + out);
      out := [left[k]] + out;
      left := left - {k};
    }
  }

  // ---- A well-ordered series rolls up by runs ----

  ghost predicate Ascending(tf: int, series: seq<Bar>)
    requires tf > 0
  {
    forall i, k :: 0 <= i <= k < |series| ==> BucketStart(series[i].ts, tf) <= BucketStart(series[k].ts, tf)
  }

  ghost predicate Whole(tf: int, series: seq<Bar>)
    requires tf > 0
  {
    forall i :: 0 <= i < |series| ==> !Straddles(tf, series[i])
  }

  /** Every bucket sits under its own start. */
  ghost predicate Keyed(m: Buckets) {
    forall k :: k in m ==> m[k].ts == k
  }

  lemma {:induction false} OrderedPutLast(m: Buckets, k: int, v: Bar)
    requires forall x :: x in m ==> x <= k
    ensures Ordered(m[k := v]) == Ordered(m - {k}) + [v]
  {
    var r := m[k := v];
    assert k in r.Keys;
    assert MaxOf(r.Keys) == k;
    assert r - {k} == m - {k};
  }

  lemma {:induction false} OrderedKeys(m: Buckets)
    requires Keyed(m) && m.Keys != {}
    ensures Ordered(m) != [] && Ordered(m)[|Ordered(m)| - 1].ts == MaxOf(m.Keys)
    ensures Ordered(m) == Ordered(m - {MaxOf(m.Keys)}) + [m[MaxOf(m.Keys)]]
  {
  }

  /** In ascending bucket order without straddlers the map only ever grows at its end, so the
      hash-map rollup is the fold of consecutive runs. */
  lemma {:induction false} RollupIsRuns(tf: int, series: seq<Bar>)
    requires tf > 0 && Ascending(tf, series) && Whole(tf, series)
    ensures RollupSpec(tf, series) == Runs(Saturating, tf, series)
    ensures Keyed(Fill(tf, series))
    ensures forall k :: k in Fill(tf, series) ==>
              series != [] && k <= BucketStart(series[|series| - 1].ts, tf)
  {
    if series != [] {
      var front, b := series[..|series| - 1], series[|series| - 1];
      assert series == front + [b];
      RollupIsRuns(tf, front);
      PushAllSnoc(Saturating, tf, [], front, b);
      RollLast(Fill(tf, front), tf, b);
    }
  }

  lemma {:induction false} RollLast(m: Buckets, tf: int, b: Bar)
    requires tf > 0 && !Straddles(tf, b) && Keyed(m)
    requires forall k :: k in m ==> k <= BucketStart(b.ts, tf)
    ensures Ordered(AddBar(m, tf, b)) == Push(Saturating, tf, Ordered(m), b)
    ensures Keyed(AddBar(m, tf, b)) && AddBar(m, tf, b).Keys == m.Keys + {BucketStart(b.ts, tf)}
  {
    var k := BucketStart(b.ts, tf);
    var r := AddBar(m, tf, b);
    OrderedPutLast(m, k, r[k]);
    if m.Keys != {} {
      OrderedKeys(m);
      if k in m {
        assert MaxOf(m.Keys) == k;
      } else {
        assert m - {k} == m;
        assert MaxOf(m.Keys) in m;
      }
    } else {
      assert m == map[] && m - {k} == m;
    }
  }

  // ---- Resampling commutes with rollup ----

  /** What a resampler has produced: bucket starts on the grid, strictly ascending. */
  ghost predicate Candles(tf: int, out: seq<Bar>)
    requires tf > 0
  {
    && OnGrid(tf, out)
    && (forall i, k :: 0 <= i < k < |out| ==> out[i].ts < out[k].ts)
    && (forall i :: 0 <= i < |out| ==> out[i].ticks < W32)
  }

  lemma {:induction false} FeedAllCandles(tf: int, s: Resampler, recs: seq<Record>)
    requires tf > 0 && Candles(tf, s.out)
    ensures Candles(tf, FeedAll(tf, s, recs).out)
    decreases |recs|
  {
    if recs != [] {
      BucketBounds(recs[0].ts, tf);
      FeedAllCandles(tf, Feed(tf, s, recs[0]), recs[1..]);
    }
  }

  /** Candles of a finer size are ascending and whole for every multiple of it. */
  lemma {:induction false} CandlesNest(n: int, m: int, out: seq<Bar>)
    requires n > 0 && m > 0 && m % n == 0 && Candles(n, out)
    ensures Ascending(m, out) && Whole(m, out)
  {
    forall i, k | 0 <= i <= k < |out|
      ensures BucketStart(out[i].ts, m) <= BucketStart(out[k].ts, m)
    {
      BucketMonotone(out[i].ts, out[k].ts, m);
    }
    forall i | 0 <= i < |out|
      ensures !Straddles(m, out[i])
    {
      BucketsNest(out[i].ts, n, m);
    }
  }

  /** For any records in any order, rolling the `n` candles up to `m` folds the records that
      the `n` resampler kept; only the tick counter shows how it was counted. */
  lemma {:induction false} RolledFoldsKept(recs: seq<Record>, n: int, m: int)
    requires n > 0 && m > 0 && m % n == 0
    ensures var fine := Resample(n, recs);
            && RollupSpec(m, fine) == ViewAll(Saturating, Runs(Exact, m, fine))
            && Runs(Wrapping, m, Kept(n, None, 0.0, recs)) == ViewAll(Wrapping, Runs(Exact, m, fine))
  {
    var fine := Resample(n, recs);
    FeedAllCandles(n, START, recs);
    CandlesNest(n, m, fine);
    RollupIsRuns(m, fine);
    RunsView(Saturating, m, fine);
    RunsView(Wrapping, m, fine);
    ResampleFoldsKept(n, START, recs);
    RunsCompose(Wrapping, n, m, Kept(n, None, 0.0, recs));
  }

  /** For time-ordered records and nested sizes, resampling to `n` and rolling up to `m` gives
      the candles of resampling to `m`: as many, equal in every field but the tick count, and
      the tick counts are two views of the same exact sum of the `n` counts. */
  lemma {:induction false} ResampleCommutes(recs: seq<Record>, n: int, m: int)
    requires n > 0 && m > 0 && m % n == 0 && TimeOrdered(recs)
    ensures var exact := Runs(Exact, m, Resample(n, recs));
            && RollupSpec(m, Resample(n, recs)) == ViewAll(Saturating, exact)
            && Resample(m, recs) == ViewAll(Wrapping, exact)
  {
    RolledFoldsKept(recs, n, m);
    ResampleFoldsKept(m, START, recs);
    TimeOrderedKeepsAll(n, None, 0.0, recs);
    TimeOrderedKeepsAll(m, None, 0.0, recs);
  }

  /** The two sides agree in full exactly when no bucket's `n` counts add up past 32 bits,
      save for sums that wrap to the saturated value. */
  lemma {:induction false} CommutesExactlyWhen(recs: seq<Record>, n: int, m: int)
    requires n > 0 && m > 0 && m % n == 0 && TimeOrdered(recs)
    ensures RollupSpec(m, Resample(n, recs)) == Resample(m, recs)
       <==> forall i :: 0 <= i < |Runs(Exact, m, Resample(n, recs))| ==>
              Runs(Exact, m, Resample(n, recs))[i].ticks < W32
              || Runs(Exact, m, Resample(n, recs))[i].ticks % W32 == W32 - 1
  {
    var exact := Runs(Exact, m, Resample(n, recs));
    var a, b := ViewAll(Saturating, exact), ViewAll(Wrapping, exact);
    ResampleCommutes(recs, n, m);
    hide Runs, RollupSpec, Resample;
    forall i | 0 <= i < |exact|
      ensures a[i] == b[i] <==> exact[i].ticks < W32 || exact[i].ticks % W32 == W32 - 1
    {
      assert a[i] == exact[i].(ticks := View(Saturating, exact[i].ticks));
      assert b[i] == exact[i].(ticks := View(Wrapping, exact[i].ticks));
    }
    if a == b {
      forall i | 0 <= i < |exact|
        ensures exact[i].ticks < W32 || exact[i].ticks % W32 == W32 - 1
      {
        assert a[i] == b[i];
      }
    }
  }

  function TotalTicks(bars: seq<Bar>): nat {
    if bars == [] then 0 else TotalTicks(bars[..|bars| - 1]) + bars[|bars| - 1].ticks
  }

  lemma {:induction false} RunsTotalTicks(tf: int, bars: seq<Bar>)
    requires tf > 0
    ensures TotalTicks(Runs(Exact, tf, bars)) == TotalTicks(bars)
  {
    if bars != [] {
      var front, b := bars[..|bars| - 1], bars[|bars| - 1];
      assert TotalTicks(bars) == TotalTicks(front) + b.ticks;
      assert bars == front + [b];
      PushAllSnoc(Exact, tf, [], front, b);
      assert Runs(Exact, tf, bars) == Push(Exact, tf, Runs(Exact, tf, front), b);
      hide Push, PushAll, TotalTicks, Runs;
      RunsTotalTicks(tf, front);
      PushTotalTicks(tf, Runs(Exact, tf, front), b);
    }
  }

  lemma {:induction false} PushTotalTicks(tf: int, out: seq<Bar>, b: Bar)
    requires tf > 0
    ensures TotalTicks(Push(Exact, tf, out, b)) == TotalTicks(out) + b.ticks
  {
    if out != [] && out[|out| - 1].ts == BucketStart(b.ts, tf) {
      var n := |out| - 1;
      assert out[n := Comb(Exact, out[n], b)][..n] == out[..n];
    } else {
      assert (out + [Cell(tf, b)])[..|out|] == out;
    }
  }

  lemma {:induction false} TicksWithinTotal(bars: seq<Bar>, i: nat)
    requires i < |bars|
    ensures bars[i].ticks <= TotalTicks(bars)
  {
    if i < |bars| - 1 {
      TicksWithinTotal(bars[..|bars| - 1], i);
    }
  }

  lemma {:induction false} WrappedTotal(bars: seq<Bar>)
    ensures TotalTicks(ViewAll(Wrapping, bars)) <= TotalTicks(bars)
  {
    if bars != [] {
      var n := |bars| - 1;
      WrappedTotal(bars[..n]);
      assert ViewAll(Wrapping, bars)[..n] == ViewAll(Wrapping, bars[..n]);
    }
  }

  lemma {:induction false} SaneUnitsTotal(last: real, recs: seq<Record>)
    ensures |SaneUnits(last, recs)| <= |recs|
    ensures forall i :: 0 <= i < |SaneUnits(last, recs)| ==> SaneUnits(last, recs)[i].ticks == 1
    decreases |recs|
  {
    if recs != [] {
      SaneUnitsTotal(last, recs[1..]);
      SaneUnitsTotal(Mid(recs[0]), recs[1..]);
    }
  }

  lemma {:induction false} UnitTicks(bars: seq<Bar>)
    requires forall i :: 0 <= i < |bars| ==> bars[i].ticks == 1
    ensures TotalTicks(bars) == |bars|
  {
    if bars != [] {
      UnitTicks(bars[..|bars| - 1]);
    }
  }

  /** A caller with fewer than 2^32 records always gets full agreement. */
  lemma {:induction false} CommutesBelow32Bits(recs: seq<Record>, n: int, m: int)
    requires n > 0 && m > 0 && m % n == 0 && TimeOrdered(recs) && |recs| < W32
    ensures RollupSpec(m, Resample(n, recs)) == Resample(m, recs)
  {
    var units := SaneUnits(0.0, recs);
    var fine := Resample(n, recs);
    SaneUnitsTotal(0.0, recs);
    UnitTicks(units);
    ResampleFoldsKept(n, START, recs);
    TimeOrderedKeepsAll(n, None, 0.0, recs);
    RunsView(Wrapping, n, units);
    RunsTotalTicks(n, units);
    WrappedTotal(Runs(Exact, n, units));
    RunsTotalTicks(m, fine);
    var exact := Runs(Exact, m, fine);
    forall i | 0 <= i < |exact|
      ensures exact[i].ticks < W32
    {
      TicksWithinTotal(exact, i);
    }
    CommutesExactlyWhen(recs, n, m);
  }

  // ---- Where the tick counts part ----

  function Copies<T>(x: T, k: nat): (r: seq<T>)
    ensures |r| == k && forall i :: 0 <= i < k ==> r[i] == x
  {
    seq(k, _ => x)
  }

  /** `k` equal bars in a fresh bucket become one bar that counts them. */
  lemma {:induction false} RunOfCopies(tf: int, out: seq<Bar>, b: Bar, k: nat)
    requires tf > 0 && k > 0 && b.ticks == 1
    requires out != [] ==> out[|out| - 1].ts != BucketStart(b.ts, tf)
    ensures var r := PushAll(Exact, tf, out, Copies(b, k));
            && |r| == |out| + 1 && r[..|out|] == out
            && r[|out|].ts == BucketStart(b.ts, tf) && r[|out|].ticks == k
  {
    if k == 1 {
      assert Copies(b, 1) == [] + [b];
      PushAllSnoc(Exact, tf, out, [], b);
    } else {
      RunOfCopies(tf, out, b, k - 1);
      assert Copies(b, k) == Copies(b, k - 1) + [b];
      PushAllSnoc(Exact, tf, out, Copies(b, k - 1), b);
    }
  }

  lemma {:induction false} PushAllSplit(c: Count, tf: int, out: seq<Bar>, a: seq<Bar>, b: seq<Bar>)
    requires tf > 0
    ensures PushAll(c, tf, out, a + b) == PushAll(c, tf, PushAll(c, tf, out, a), b)
    decreases |a|
  {
    if a == [] {
      assert a + b == b;
    } else {
      assert (a + b)[1..] == a[1..] + b;
      PushAllSplit(c, tf, Push(c, tf, out, a[0]), a[1..], b);
    }
  }

  lemma {:induction false} SaneCopies(last: real, r: Record, k: nat, rest: seq<Record>)
    requires SaneMid(Mid(r), last) && SaneMid(Mid(r), Mid(r)) && k > 0
    ensures SaneUnits(last, Copies(r, k) + rest) == Copies(Unit(r), k) + SaneUnits(Mid(r), rest)
    decreases k
  {
    var s := Copies(r, k) + rest;
    assert s[1..] == Copies(r, k - 1) + rest;
    if k == 1 {
      assert s[1..] == rest;
      assert Copies(Unit(r), 1) == [Unit(r)];
    } else {
      SaneCopies(Mid(r), r, k - 1, rest);
      assert Copies(Unit(r), k) == [Unit(r)] + Copies(Unit(r), k - 1);
    }
  }

  /** With 2^31 records in each of two 1 ms buckets the sides differ: rolled up, the 2 ms
      candle saturates; resampled directly, its count wraps to zero. */
  lemma {:induction false} CommuteFailsAt32Bits() returns (recs: seq<Record>)
    ensures TimeOrdered(recs) && |recs| == W32
    ensures RollupSpec(2, Resample(1, recs)) != Resample(2, recs)
  {
    var h: nat := 0x8000_0000;
    var r0, r1 := Record(0, 1.0, 1.0, 0, 0), Record(1, 1.0, 1.0, 0, 0);
    var u0, u1 := Unit(r0), Unit(r1);
    recs := Copies(r0, h) + Copies(r1, h);
    var units := Copies(u0, h) + Copies(u1, h);
    assert Copies(r1, h) + [] == Copies(r1, h) && Copies(u1, h) + [] == Copies(u1, h);
    SaneCopies(0.0, r0, h, Copies(r1, h));
    SaneCopies(1.0, r1, h, []);
    assert SaneUnits(0.0, recs) == units;
    ResampleFoldsKept(1, START, recs);
    TimeOrderedKeepsAll(1, None, 0.0, recs);
    RunsView(Wrapping, 1, units);
    var one := PushAll(Exact, 1, [], Copies(u0, h));
    RunOfCopies(1, [], u0, h);
    RunOfCopies(1, one, u1, h);
    PushAllSplit(Exact, 1, [], Copies(u0, h), Copies(u1, h));
    var fine := Resample(1, recs);
    assert |fine| == 2 && fine[0].ts == 0 && fine[1].ts == 1 && fine[0].ticks == fine[1].ticks == h;
    hide Resample, Runs, ViewAll;
    var exact := Runs(Exact, 2, fine);
    TwoIntoOne(fine);
    CommutesExactlyWhen(recs, 1, 2);
    assert exact[0].ticks == W32;
  }

  lemma {:induction false} TwoIntoOne(fine: seq<Bar>)
    requires |fine| == 2 && fine[0].ts == 0 && fine[1].ts == 1
    ensures |Runs(Exact, 2, fine)| == 1 && Runs(Exact, 2, fine)[0].ticks == fine[0].ticks + fine[1].ticks
  {
    assert fine == [fine[0]] + [fine[1]];
    assert [fine[0]] == [] + [fine[0]];
    PushAllSnoc(Exact, 2, [], [fine[0]], fine[1]);
    PushAllSnoc(Exact, 2, [], [], fine[0]);
  }

  // ---- Rollup composes ----

  lemma {:induction false} CoarserKeepsOrder(m: int, k: int, series: seq<Bar>)
    requires m > 0 && k > 0 && k % m == 0 && Ascending(m, series) && Whole(m, series)
    ensures Ascending(k, series) && Whole(k, series)
  {
    forall i, j | 0 <= i <= j < |series|
      ensures BucketStart(series[i].ts, k) <= BucketStart(series[j].ts, k)
    {
      BucketsNest(series[i].ts, m, k);
      BucketsNest(series[j].ts, m, k);
      BucketMonotone(BucketStart(series[i].ts, m), BucketStart(series[j].ts, m), k);
    }
    forall i | 0 <= i < |series|
      ensures !Straddles(k, series[i])
    {
      assert !Straddles(m, series[i]);
      BucketsNest(series[i].ts, m, k);
      BucketsNest(series[i].closeTs, m, k);
    }
  }

  lemma {:induction false} RunsAscending(c: Count, tf: int, series: seq<Bar>)
    requires tf > 0 && Ascending(tf, series)
    ensures Ascending(tf, Runs(c, tf, series)) && OnGrid(tf, Runs(c, tf, series))
    ensures series == [] ==> Runs(c, tf, series) == []
    ensures series != [] ==> LastKey(Runs(c, tf, series)) == Some(BucketStart(series[|series| - 1].ts, tf))
  {
    if series != [] {
      var front, b := series[..|series| - 1], series[|series| - 1];
      assert series == front + [b];
      RunsAscending(c, tf, front);
      PushAllSnoc(c, tf, [], front, b);
      BucketBounds(b.ts, tf);
      PushAscending(c, tf, Runs(c, tf, front), b);
    }
  }

  lemma {:induction false} PushAscending(c: Count, tf: int, out: seq<Bar>, b: Bar)
    requires tf > 0 && Ascending(tf, out) && OnGrid(tf, out)
    requires out != [] ==> out[|out| - 1].ts <= BucketStart(b.ts, tf)
    ensures Ascending(tf, Push(c, tf, out, b)) && OnGrid(tf, Push(c, tf, out, b))
    ensures Push(c, tf, out, b)[|Push(c, tf, out, b)| - 1].ts == BucketStart(b.ts, tf)
  {
    BucketBounds(b.ts, tf);
  }

  lemma {:induction false} GridIsWhole(m: int, k: int, out: seq<Bar>)
    requires m > 0 && k > 0 && k % m == 0 && OnGrid(m, out)
    ensures Whole(k, out)
  {
    forall i | 0 <= i < |out|
      ensures !Straddles(k, out[i])
    {
      BucketsNest(out[i].ts, m, k);
    }
  }

  lemma {:induction false} AscendingCoarser(m: int, k: int, out: seq<Bar>)
    requires m > 0 && k > 0 && k % m == 0 && OnGrid(m, out) && Ascending(m, out)
    ensures Ascending(k, out)
  {
    forall i, j | 0 <= i <= j < |out|
      ensures BucketStart(out[i].ts, k) <= BucketStart(out[j].ts, k)
    {
      assert out[i].ts <= out[j].ts;
      BucketMonotone(out[i].ts, out[j].ts, k);
    }
  }

  /** Rolling up in two nested steps is rolling up at once, saturating tick counts included. */
  lemma {:induction false} RollupComposes(series: seq<Bar>, m: int, k: int)
    requires m > 0 && k > 0 && k % m == 0 && Ascending(m, series) && Whole(m, series)
    ensures RollupSpec(k, RollupSpec(m, series)) == RollupSpec(k, series)
  {
    RollupIsRuns(m, series);
    CoarserKeepsOrder(m, k, series);
    RollupIsRuns(k, series);
    var mid := Runs(Saturating, m, series);
    RunsAscending(Saturating, m, series);
    GridIsWhole(m, k, mid);
    AscendingCoarser(m, k, mid);
    RollupIsRuns(k, mid);
    RunsCompose(Saturating, m, k, series);
  }

  // ---- Rollup conserves volume and keeps candles well formed, in any order ----

  /** Bid or ask volume. */
  function Vol(b: Bar, ask: bool): nat { if ask then b.vask else b.vbid }

  function TotalVol(bars: seq<Bar>, ask: bool): nat {
    if bars == [] then 0 else TotalVol(bars[..|bars| - 1], ask) + Vol(bars[|bars| - 1], ask)
  }

  /** The straddling bars of a series. */
  function Straddlers(tf: int, series: seq<Bar>): seq<Bar>
    requires tf > 0
  {
    if series == [] then []
    else
      var n := |series| - 1;
      if Straddles(tf, series[n]) then Straddlers(tf, series[..n]) + [series[n]] else Straddlers(tf, series[..n])
  }

  lemma {:induction false} TotalVolPut(m: Buckets, k: int, v: Bar, ask: bool)
    ensures TotalVol(Ordered(m[k := v]), ask)
         == TotalVol(Ordered(m), ask) - (if k in m then Vol(m[k], ask) else 0) + Vol(v, ask)
    decreases |m.Keys|
  {
    var r := m[k := v];
    assert r.Keys == m.Keys + {k};
    if m.Keys == {} {
      assert m == map[] && r.Keys == {k} && MaxOf(r.Keys) == k;
      assert r - {k} == map[];
    } else {
      var top := MaxOf(m.Keys);
      assert (m - {top}).Keys == m.Keys - {top};
      TotalVolSnoc(Ordered(m - {top}), m[top], ask);
      if k == top {
        assert MaxOf(r.Keys) == k && r - {k} == m - {k};
        TotalVolSnoc(Ordered(r - {k}), v, ask);
      } else if k > top {
        MaxWith(m.Keys, k);
        assert r - {k} == m - {k} && m - {k} == m;
        TotalVolSnoc(Ordered(m), v, ask);
      } else {
        MaxWith(m.Keys, k);
        assert r - {top} == (m - {top})[k := v];
        TotalVolPut(m - {top}, k, v, ask);
        TotalVolSnoc(Ordered(r - {top}), m[top], ask);
      }
    }
  }

  lemma {:induction false} MaxWith(s: set<int>, k: int)
    requires s != {}
    ensures MaxOf(s + {k}) == if k > MaxOf(s) then k else MaxOf(s)
    ensures k > MaxOf(s) ==> k !in s
  {
    assert MaxOf(s + {k}) in s || MaxOf(s + {k}) == k;
    assert MaxOf(s) in s + {k} && k in s + {k};
  }

  lemma {:induction false} TotalVolSnoc(bars: seq<Bar>, b: Bar, ask: bool)
    ensures TotalVol(bars + [b], ask) == TotalVol(bars, ask) + Vol(b, ask)
  {
    assert (bars + [b])[..|bars|] == bars;
  }

  /** Equal as 64-bit counters. */
  predicate Same64(a: int, b: int) { a % W64 == b % W64 }

  lemma {:induction false} Same64Add(a: int, b: int, c: int)
    requires Same64(a, b)
    ensures Same64(a + c, b + c)
  {
  }

  lemma {:induction false} Same64Chain(a: int, b: int, c: int)
    requires Same64(a, b) && Same64(b, c)
    ensures Same64(a, c)
  {
  }

  /** Touching a bucket adds the bar's volume once, up to the 64-bit width. */
  lemma {:induction false} TouchVol(m: Buckets, tf: int, bs: int, b: Bar, closes: bool, ask: bool)
    ensures Same64(TotalVol(Ordered(Touch(m, tf, bs, b, closes)), ask), TotalVol(Ordered(m), ask) + Vol(b, ask))
  {
    var r := Touch(m, tf, bs, b, closes);
    TotalVolPut(m, bs, r[bs], ask);
    hide Ordered, TotalVol;
    if bs in m {
      var rest := TotalVol(Ordered(m), ask) - Vol(m[bs], ask);
      assert Same64(Vol(r[bs], ask), Vol(m[bs], ask) + Vol(b, ask));
      Same64Add(Vol(r[bs], ask), Vol(m[bs], ask) + Vol(b, ask), rest);
    }
  }

  lemma {:induction false} AddBarVol(m: Buckets, tf: int, b: Bar, ask: bool)
    requires tf > 0
    ensures Same64(TotalVol(Ordered(AddBar(m, tf, b)), ask),
                   TotalVol(Ordered(m), ask) + (if Straddles(tf, b) then 2 * Vol(b, ask) else Vol(b, ask)))
  {
    hide Ordered, TotalVol, Touch, Same64;
    var openBs, closeBs := BucketStart(b.ts, tf), BucketStart(b.closeTs, tf);
    if openBs == closeBs {
      TouchVol(m, tf, openBs, b, true, ask);
    } else {
      var mid := Touch(m, tf, openBs, b, false);
      var v := Vol(b, ask);
      TouchVol(m, tf, openBs, b, false, ask);
      TouchVol(mid, tf, closeBs, b, true, ask);
      Same64Add(TotalVol(Ordered(mid), ask), TotalVol(Ordered(m), ask) + v, v);
      Same64Chain(TotalVol(Ordered(AddBar(m, tf, b)), ask), TotalVol(Ordered(mid), ask) + v,
                  TotalVol(Ordered(m), ask) + v + v);
    }
  }

  lemma {:induction false} AddBarVolFrom(m: Buckets, tf: int, b: Bar, ask: bool, was: nat)
    requires tf > 0 && Same64(TotalVol(Ordered(m), ask), was)
    ensures Same64(TotalVol(Ordered(AddBar(m, tf, b)), ask),
                   was + (if Straddles(tf, b) then 2 * Vol(b, ask) else Vol(b, ask)))
  {
    AddBarVol(m, tf, b, ask);
    hide Ordered, TotalVol, AddBar, Straddles, Same64;
    var extra := if Straddles(tf, b) then 2 * Vol(b, ask) else Vol(b, ask);
    Same64Add(TotalVol(Ordered(m), ask), was, extra);
    Same64Chain(TotalVol(Ordered(AddBar(m, tf, b)), ask), TotalVol(Ordered(m), ask) + extra, was + extra);
  }

  /** Output volume is input volume plus one extra copy of each straddling bar, modulo the
      64-bit counters, for any series in any order. */
  lemma {:induction false} RollupConservesVolume(tf: int, series: seq<Bar>, ask: bool)
    requires tf > 0
    ensures Same64(TotalVol(RollupSpec(tf, series), ask), TotalVol(series, ask) + TotalVol(Straddlers(tf, series), ask))
  {
    if series != [] {
      var front, b := series[..|series| - 1], series[|series| - 1];
      RollupConservesVolume(tf, front, ask);
      AddBarVolFrom(Fill(tf, front), tf, b, ask, TotalVol(front, ask) + TotalVol(Straddlers(tf, front), ask));
      TotalVolSnoc(Straddlers(tf, front), b, ask);
      hide Same64, Ordered, AddBar;
    }
  }

  /** A counter never holds more than what was added to it. */
  lemma {:induction false} TouchVolAtMost(m: Buckets, tf: int, bs: int, b: Bar, closes: bool, ask: bool)
    ensures TotalVol(Ordered(Touch(m, tf, bs, b, closes)), ask) <= TotalVol(Ordered(m), ask) + Vol(b, ask)
  {
    hide Ordered, TotalVol;
    TotalVolPut(m, bs, Touch(m, tf, bs, b, closes)[bs], ask);
    if bs in m {
      Add64AtMost(Vol(m[bs], ask), Vol(b, ask));
    }
  }

  lemma {:induction false} Add64AtMost(a: nat, b: nat)
    ensures Add64(a, b) <= a + b
  {
  }

  lemma {:induction false} AddBarVolAtMost(m: Buckets, tf: int, b: Bar, ask: bool)
    requires tf > 0
    ensures TotalVol(Ordered(AddBar(m, tf, b)), ask)
         <= TotalVol(Ordered(m), ask) + (if Straddles(tf, b) then 2 * Vol(b, ask) else Vol(b, ask))
  {
    hide Ordered, TotalVol, Touch;
    var openBs, closeBs := BucketStart(b.ts, tf), BucketStart(b.closeTs, tf);
    if openBs == closeBs {
      TouchVolAtMost(m, tf, openBs, b, true, ask);
    } else {
      TouchVolAtMost(m, tf, openBs, b, false, ask);
      TouchVolAtMost(Touch(m, tf, openBs, b, false), tf, closeBs, b, true, ask);
    }
  }

  lemma {:induction false} RollupVolumeAtMost(tf: int, series: seq<Bar>, ask: bool)
    requires tf > 0
    ensures TotalVol(RollupSpec(tf, series), ask) <= TotalVol(series, ask) + TotalVol(Straddlers(tf, series), ask)
  {
    if series != [] {
      hide Ordered, AddBar;
      var front, b := series[..|series| - 1], series[|series| - 1];
      RollupVolumeAtMost(tf, front, ask);
      AddBarVolAtMost(Fill(tf, front), tf, b, ask);
      TotalVolSnoc(Straddlers(tf, front), b, ask);
    }
  }

  /** Exactly so while the total stays below 2^64. */
  lemma {:induction false} RollupConservesVolumeExactly(tf: int, series: seq<Bar>, ask: bool)
    requires tf > 0 && TotalVol(series, ask) + TotalVol(Straddlers(tf, series), ask) < W64
    ensures TotalVol(RollupSpec(tf, series), ask) == TotalVol(series, ask) + TotalVol(Straddlers(tf, series), ask)
  {
    RollupConservesVolume(tf, series, ask);
    RollupVolumeAtMost(tf, series, ask);
  }

  /** Open and close lie between low and high. */
  predicate WellShaped(b: Bar) { b.low <= b.open <= b.high && b.low <= b.close <= b.high }

  lemma {:induction false} FillWellShaped(tf: int, series: seq<Bar>)
    requires tf > 0 && forall i :: 0 <= i < |series| ==> WellShaped(series[i])
    ensures forall k :: k in Fill(tf, series) ==> WellShaped(Fill(tf, series)[k])
  {
    if series != [] {
      FillWellShaped(tf, series[..|series| - 1]);
    }
  }

  lemma {:induction false} OrderedValues(m: Buckets, i: nat)
    requires i < |Ordered(m)|
    ensures exists k :: k in m && Ordered(m)[i] == m[k]
    decreases |m.Keys|
  {
    var top := MaxOf(m.Keys);
    assert (m - {top}).Keys == m.Keys - {top};
    if i < |Ordered(m - {top})| {
      OrderedValues(m - {top}, i);
      var k :| k in m - {top} && Ordered(m - {top})[i] == (m - {top})[k];
      assert k in m && Ordered(m)[i] == m[k];
    } else {
      assert top in m && Ordered(m)[i] == m[top];
    }
  }

  /** Rollup keeps open and close within low and high, straddlers and disorder included. */
  lemma {:induction false} RollupWellShaped(tf: int, series: seq<Bar>)
    requires tf > 0 && forall i :: 0 <= i < |series| ==> WellShaped(series[i])
    ensures forall i :: 0 <= i < |RollupSpec(tf, series)| ==> WellShaped(RollupSpec(tf, series)[i])
  {
    FillWellShaped(tf, series);
    forall i | 0 <= i < |RollupSpec(tf, series)|
      ensures WellShaped(RollupSpec(tf, series)[i])
    {
      OrderedValues(Fill(tf, series), i);
    }
  }
}
