/** What a rolled-up candle holds of the bars it was rolled from, in the bars' own fields: for any series, in
    any order, straddling bars included.
 */
module RollupLaws {
  import opened IntSets
  import opened Ohlc
  import opened OhlcRollup

  // ---- Which bars touch a bucket ----

  /** The time lies in the bucket of this size that starts at `d`. */
  predicate In(t: int, tf: int, d: int)
    requires tf > 0
  {
    d % tf == 0 && d <= t < d + tf
  }

  /** The bar opens or closes in the bucket. */
  predicate Touches(b: Bar, tf: int, d: int)
    requires tf > 0
  {
    In(b.ts, tf, d) || In(b.closeTs, tf, d)
  }

  /** The bars that touch a bucket, in order. */
  function Touching(series: seq<Bar>, tf: int, d: int): (ix: seq<nat>)
    requires tf > 0
    ensures forall k :: 0 <= k < |ix| ==> ix[k] < |series| && Touches(series[ix[k]], tf, d)
    ensures forall k, l :: 0 <= k < l < |ix| ==> ix[k] < ix[l]
    ensures forall i: nat :: i < |series| && Touches(series[i], tf, d) ==> i in ix
  {
    if series == [] then []
    else
      var n := |series| - 1;
      var f := Touching(series[..n], tf, d);
      assert forall i :: 0 <= i < n ==> series[..n][i] == series[i];
      if Touches(series[n], tf, d) then
        assert (f + [n])[|f|] == n && forall k :: 0 <= k < |f| ==> (f + [n])[k] == f[k];
        f + [n]
      else f
  }

  // ---- What the candle holds ----

  function SumOf(series: seq<Bar>, ix: seq<nat>, f: Bar -> nat): nat
    requires forall k :: 0 <= k < |ix| ==> ix[k] < |series|
  {
    if ix == [] then 0 else SumOf(series, ix[..|ix| - 1], f) + f(series[ix[|ix| - 1]])
  }

  /** The last of the bars that closes in the bucket, or the first of them all when none does. */
  ghost predicate Closer(series: seq<Bar>, tf: int, d: int, ix: seq<nat>, k: nat)
    requires tf > 0 && forall k :: 0 <= k < |ix| ==> ix[k] < |series|
  {
    && k < |ix|
    && (forall l :: k < l < |ix| ==> !In(series[ix[l]].closeTs, tf, d))
    && (In(series[ix[k]].closeTs, tf, d) || k == 0)
  }

  ghost predicate Spans(series: seq<Bar>, ix: seq<nat>, high: real, low: real)
    requires forall k :: 0 <= k < |ix| ==> ix[k] < |series|
  {
    && (forall k :: 0 <= k < |ix| ==> low <= series[ix[k]].low && series[ix[k]].high <= high)
    && (exists k :: 0 <= k < |ix| && series[ix[k]].high == high)
    && (exists k :: 0 <= k < |ix| && series[ix[k]].low == low)
  }

  /** `b` is the candle of the bars `ix` in the bucket that starts at `d`. */
  ghost predicate RollOf(series: seq<Bar>, tf: int, d: int, ix: seq<nat>, b: Bar)
    requires tf > 0 && forall k :: 0 <= k < |ix| ==> ix[k] < |series|
  {
    && ix != []
    && b.ts == d && b.closeTs == d + tf - 1
    && b.open == series[ix[0]].open
    && (exists k: nat :: Closer(series, tf, d, ix, k) && b.close == series[ix[k]].close)
    && Spans(series, ix, b.high, b.low)
    && b.vbid == SumOf(series, ix, (x: Bar) => x.vbid) % 0x1_0000_0000_0000_0000
    && b.vask == SumOf(series, ix, (x: Bar) => x.vask) % 0x1_0000_0000_0000_0000
    && b.ticks == var n := SumOf(series, ix, (x: Bar) => x.ticks); if n > 0xFFFF_FFFF then 0xFFFF_FFFF else n
  }

  /** The counters of a bar have 64 and 32 bits. */
  predicate Narrow(b: Bar) {
    b.vbid < 0x1_0000_0000_0000_0000 && b.vask < 0x1_0000_0000_0000_0000 && b.ticks < 0x1_0000_0000
  }

  // ---- One bar ----

  lemma {:induction false} InIsStart(t: int, tf: int, d: int)
    requires tf > 0
    ensures In(t, tf, d) <==> BucketStart(t, tf) == d
  {
    FloorBounds(t, tf);
    StartMultiple(t / tf, tf);
    if In(t, tf, d) {
      DivExact(d, tf);
      FloorUnique(t, d / tf, tf);
    }
  }

  lemma {:induction false} StartMultiple(q: int, tf: int)
    requires tf > 0
    ensures q * tf % tf == 0
  {
    FloorUnique(q * tf, q, tf);
    assert q * tf == q * tf / tf * tf + q * tf % tf;
  }

  /** What adding a bar does to one bucket. */
  lemma {:induction false} AddBarAt(m: Buckets, tf: int, b: Bar, d: int)
    requires tf > 0
    ensures var r := AddBar(m, tf, b);
            && (d in r <==> d in m || Touches(b, tf, d))
            && (Touches(b, tf, d) ==> r[d] == Touch(m, tf, d, b, In(b.closeTs, tf, d))[d])
            && (d in m && !Touches(b, tf, d) ==> r[d] == m[d])
  {
    InIsStart(b.ts, tf, d);
    InIsStart(b.closeTs, tf, d);
    hide BucketStart, In;
  }

  lemma {:induction false} SumSnoc(series: seq<Bar>, ix: seq<nat>, n: nat, f: Bar -> nat)
    requires n < |series| && forall k :: 0 <= k < |ix| ==> ix[k] < |series|
    ensures forall k :: 0 <= k < |ix + [n]| ==> (ix + [n])[k] < |series|
    ensures SumOf(series, ix + [n], f) == SumOf(series, ix, f) + f(series[n])
  {
    assert (ix + [n])[..|ix|] == ix;
  }

  lemma {:induction false} Wrap64(a: nat, b: nat)
    ensures (a % W64 + b) % W64 == (a + b) % W64
  {
  }

  lemma {:induction false} SpansSnoc(series: seq<Bar>, ix: seq<nat>, high: real, low: real, n: nat)
    requires n < |series| && forall k :: 0 <= k < |ix| ==> ix[k] < |series|
    requires Spans(series, ix, high, low)
    ensures forall k :: 0 <= k < |ix + [n]| ==> (ix + [n])[k] < |series|
    ensures Spans(series, ix + [n], MaxR(high, series[n].high), MinR(low, series[n].low))
  {
    var to := ix + [n];
    assert to[|ix|] == n;
    var h :| 0 <= h < |ix| && series[ix[h]].high == high;
    var l :| 0 <= l < |ix| && series[ix[l]].low == low;
    assert to[h] == ix[h] && to[l] == ix[l];
  }

  lemma {:induction false} CloserSnoc(series: seq<Bar>, tf: int, d: int, ix: seq<nat>, k: nat, n: nat)
    requires tf > 0 && n < |series| && forall k :: 0 <= k < |ix| ==> ix[k] < |series|
    requires Closer(series, tf, d, ix, k)
    ensures forall k :: 0 <= k < |ix + [n]| ==> (ix + [n])[k] < |series|
    ensures Closer(series, tf, d, ix + [n], if In(series[n].closeTs, tf, d) then |ix| else k)
  {
    hide In;
    assert (ix + [n])[|ix|] == n && forall l :: 0 <= l < |ix| ==> (ix + [n])[l] == ix[l];
  }

  /** The first bar to touch a bucket. */
  lemma {:induction false} RollOpens(series: seq<Bar>, tf: int, d: int, n: nat)
    requires tf > 0 && n < |series| && Narrow(series[n])
    ensures RollOf(series, tf, d, [n], series[n].(ts := d, closeTs := d + tf - 1))
  {
    hide SumOf, In;
    var ix: seq<nat> := [n];
    OneSum(series, n, (x: Bar) => x.vbid);
    OneSum(series, n, (x: Bar) => x.vask);
    OneSum(series, n, (x: Bar) => x.ticks);
    assert Closer(series, tf, d, ix, 0);
    assert series[ix[0]] == series[n];
  }

  lemma {:induction false} OneSum(series: seq<Bar>, n: nat, f: Bar -> nat)
    requires n < |series|
    ensures SumOf(series, [n], f) == f(series[n])
  {
    var ix: seq<nat> := [n];
    assert ix[..0] == [];
  }

  /** And every further one. */
  lemma {:induction false} RollJoins(series: seq<Bar>, tf: int, d: int, ix: seq<nat>, m: Buckets, n: nat)
    requires tf > 0 && n < |series| && (forall k :: 0 <= k < |ix| ==> ix[k] < |series|)
    requires d in m && RollOf(series, tf, d, ix, m[d])
    ensures forall k :: 0 <= k < |ix + [n]| ==> (ix + [n])[k] < |series|
    ensures RollOf(series, tf, d, ix + [n], Touch(m, tf, d, series[n], In(series[n].closeTs, tf, d))[d])
  {
    hide SumOf, In, Spans, MaxR, MinR;
    var b := m[d];
    SumSnoc(series, ix, n, (x: Bar) => x.vbid);
    SumSnoc(series, ix, n, (x: Bar) => x.vask);
    SumSnoc(series, ix, n, (x: Bar) => x.ticks);
    Wrap64(SumOf(series, ix, (x: Bar) => x.vbid), series[n].vbid);
    Wrap64(SumOf(series, ix, (x: Bar) => x.vask), series[n].vask);
    SpansSnoc(series, ix, b.high, b.low, n);
    var k: nat :| Closer(series, tf, d, ix, k) && b.close == series[ix[k]].close;
    CloserSnoc(series, tf, d, ix, k, n);
    CloserInside(series, tf, d, ix, k);
    assert (ix + [n])[0] == ix[0] && (ix + [n])[|ix|] == n && (ix + [n])[k] == ix[k];
  }

  lemma {:induction false} CloserInside(series: seq<Bar>, tf: int, d: int, ix: seq<nat>, k: nat)
    requires tf > 0 && forall k :: 0 <= k < |ix| ==> ix[k] < |series|
    requires Closer(series, tf, d, ix, k)
    ensures k < |ix|
  {
  }

  // ---- All bars ----

  lemma {:induction false} TouchingSnoc(series: seq<Bar>, tf: int, d: int, n: nat)
    requires tf > 0 && n < |series|
    ensures Touching(series[..n + 1], tf, d)
         == Touching(series[..n], tf, d) + if Touches(series[n], tf, d) then [n] else []
  {
    assert series[..n + 1][..n] == series[..n];
  }

  /** After the first `n` bars there is a bucket at `d` if and only if one of them touches it, and it holds
      the candle of those that do. */
  lemma {:induction false} FillAt(series: seq<Bar>, tf: int, n: nat, d: int)
    requires tf > 0 && n <= |series| && forall i :: 0 <= i < |series| ==> Narrow(series[i])
    ensures forall k :: 0 <= k < |Touching(series[..n], tf, d)| ==> Touching(series[..n], tf, d)[k] < n
    ensures var m, ix := Fill(tf, series[..n]), Touching(series[..n], tf, d);
            && (d in m <==> ix != [])
            && (d in m ==> RollOf(series, tf, d, ix, m[d]))
  {
    hide RollOf, Touches, In, AddBar;
    if n == 0 {
      assert series[..0] == [];
    } else {
      var i := n - 1;
      FillAt(series, tf, i, d);
      var m, ix := Fill(tf, series[..i]), Touching(series[..i], tf, d);
      assert series[..n][..i] == series[..i];
      TouchingSnoc(series, tf, d, i);
      AddBarAt(m, tf, series[i], d);
      if Touches(series[i], tf, d) {
        if d in m {
          RollJoins(series, tf, d, ix, m, i);
        } else {
          RollOpens(series, tf, d, i);
          assert [] + [i] == [i];
        }
      }
    }
  }

  ghost predicate FromMap(m: Buckets, out: seq<Bar>) {
    forall c :: 0 <= c < |out| ==> out[c].ts in m && m[out[c].ts] == out[c]
  }

  ghost predicate Ascends(out: seq<Bar>) { forall c, d :: 0 <= c < d < |out| ==> out[c].ts < out[d].ts }

  ghost predicate AllThere(m: Buckets, out: seq<Bar>) {
    forall k :: k in m ==> exists c :: 0 <= c < |out| && out[c].ts == k
  }

  lemma {:induction false} LastFrom(m: Buckets, k: int, o: seq<Bar>)
    requires k in m && m[k].ts == k && FromMap(m - {k}, o)
    ensures FromMap(m, o + [m[k]])
  {
  }

  lemma {:induction false} LastAscends(m: Buckets, k: int, o: seq<Bar>)
    requires k in m && m[k].ts == k && (forall x :: x in m ==> x <= k) && FromMap(m - {k}, o) && Ascends(o)
    ensures Ascends(o + [m[k]])
  {
  }

  lemma {:induction false} LastThere(m: Buckets, k: int, o: seq<Bar>)
    requires k in m && m[k].ts == k && AllThere(m - {k}, o)
    ensures AllThere(m, o + [m[k]])
  {
    var r := o + [m[k]];
    forall x | x in m
      ensures exists c :: 0 <= c < |r| && r[c].ts == x
    {
      if x == k {
        assert r[|o|].ts == x;
      } else {
        assert x in m - {k};
        var c :| 0 <= c < |o| && o[c].ts == x;
        assert r[c].ts == x;
      }
    }
  }

  /** The buckets come out by ascending start, each of them once. */
  lemma {:induction false} OrderedHolds(m: Buckets)
    requires Keyed(m)
    ensures FromMap(m, Ordered(m)) && Ascends(Ordered(m)) && AllThere(m, Ordered(m))
    decreases |m.Keys|
  {
    hide Ordered, Ascends, AllThere, FromMap;
    NothingOrdered(m);
    if m.Keys != {} {
      var k := LastOrdered(m);
      OrderedHolds(m - {k});
      LastFrom(m, k, Ordered(m - {k}));
      LastAscends(m, k, Ordered(m - {k}));
      LastThere(m, k, Ordered(m - {k}));
    }
  }

  lemma {:induction false} NothingOrdered(m: Buckets)
    ensures m.Keys == {} ==> Ordered(m) == [] && FromMap(m, []) && Ascends([]) && AllThere(m, [])
  {
  }

  lemma {:induction false} LastOrdered(m: Buckets) returns (k: int)
    requires m.Keys != {}
    ensures k in m && (forall x :: x in m ==> x <= k) && Ordered(m) == Ordered(m - {k}) + [m[k]]
    ensures (m - {k}).Keys == m.Keys - {k} && |(m - {k}).Keys| < |m.Keys|
  {
    k := MaxOf(m.Keys);
    assert (m - {k}).Keys == m.Keys - {k};
  }

  /** Every candle is the candle of the bars that touch its bucket, the candles ascend, and every touched
      bucket has one. */
  lemma {:induction false} RollupLaw(series: seq<Bar>, tf: int)
    requires tf > 0 && forall i :: 0 <= i < |series| ==> Narrow(series[i])
    ensures var out := RollupSpec(tf, series);
            && (forall c :: 0 <= c < |out| ==>
                 RollOf(series, tf, out[c].ts, Touching(series, tf, out[c].ts), out[c]))
            && (forall c, d :: 0 <= c < d < |out| ==> out[c].ts < out[d].ts)
            && (forall i, d :: 0 <= i < |series| && Touches(series[i], tf, d) ==>
                 exists c :: 0 <= c < |out| && out[c].ts == d)
  {
    hide Touches, Fill, Ordered, Touching;
    var m := Fill(tf, series);
    assert series[..|series|] == series;
    forall d: int
      ensures d in m <==> Touching(series, tf, d) != []
      ensures d in m ==> RollOf(series, tf, d, Touching(series, tf, d), m[d])
    {
      FillAt(series, tf, |series|, d);
    }
    assert Keyed(m);
    OrderedHolds(m);
    hide RollOf;
    var out := RollupSpec(tf, series);
    assert out == Ordered(m);
    forall c | 0 <= c < |out|
      ensures RollOf(series, tf, out[c].ts, Touching(series, tf, out[c].ts), out[c])
    {
      assert out[c].ts in m;
    }
    forall i: nat, d | i < |series| && Touches(series[i], tf, d)
      ensures exists c :: 0 <= c < |out| && out[c].ts == d
    {
      assert i in Touching(series, tf, d);
      assert d in m;
    }
  }
}
