/** What a resampled candle holds of its records, in the records' own fields: for every list of records, in
    any order, and every bucket size.
 */
module CandleLaws {
  import opened Ohlc

  function Price(r: Record): real { (r.bid + r.ask) / 2.0 }

  // ---- Which records count ----

  /** `j` is the last member of `a` before `i`. */
  ghost predicate LastBefore(a: set<nat>, i: nat, j: nat) {
    j in a && j < i && forall k :: k in a && k < i ==> k <= j
  }

  /** Positive, below 10^15, and from half to twice the price accepted last. */
  ghost predicate Passes(recs: seq<Record>, a: set<nat>, i: nat)
    requires i < |recs|
  {
    && 0.0 < Price(recs[i]) < 1000000000000000.0
    && forall j: nat :: LastBefore(a, i, j) && j < |recs| ==>
         0.5 * Price(recs[j]) <= Price(recs[i]) <= 2.0 * Price(recs[j])
  }

  /** `a` holds the accepted ones of the first `n` records. */
  ghost predicate Accepted(recs: seq<Record>, n: nat, a: set<nat>)
    requires n <= |recs|
  {
    && (forall i :: i in a ==> i < n)
    && (forall i: nat :: i < n ==> (i in a <==> Passes(recs, a, i)))
  }

  /** An accepted record of a later bucket came before it. */
  ghost predicate Late(recs: seq<Record>, tf: int, a: set<nat>, i: nat)
    requires tf > 0 && i < |recs|
  {
    exists j: nat :: j in a && j < i && j < |recs| && recs[j].ts / tf > recs[i].ts / tf
  }

  ghost predicate OnTime(recs: seq<Record>, tf: int, a: set<nat>, kept: set<nat>)
    requires tf > 0 && forall i :: i in a ==> i < |recs|
  {
    forall i :: i in kept <==> i in a && !Late(recs, tf, a, i)
  }

  // ---- What a candle holds ----

  function SumBid(recs: seq<Record>, ix: seq<nat>): nat
    requires forall k :: 0 <= k < |ix| ==> ix[k] < |recs|
  {
    if ix == [] then 0 else SumBid(recs, ix[..|ix| - 1]) + recs[ix[|ix| - 1]].vbid
  }

  function SumAsk(recs: seq<Record>, ix: seq<nat>): nat
    requires forall k :: 0 <= k < |ix| ==> ix[k] < |recs|
  {
    if ix == [] then 0 else SumAsk(recs, ix[..|ix| - 1]) + recs[ix[|ix| - 1]].vask
  }

  ghost predicate Within(recs: seq<Record>, n: nat, ix: seq<nat>) {
    && n <= |recs|
    && (forall k :: 0 <= k < |ix| ==> ix[k] < n)
    && (forall k, l :: 0 <= k < l < |ix| ==> ix[k] < ix[l])
  }

  /** The largest and the smallest of the prices. */
  ghost predicate Extremes(recs: seq<Record>, ix: seq<nat>, high: real, low: real)
    requires forall k :: 0 <= k < |ix| ==> ix[k] < |recs|
  {
    && (forall k :: 0 <= k < |ix| ==> low <= Price(recs[ix[k]]) <= high)
    && (exists k :: 0 <= k < |ix| && Price(recs[ix[k]]) == high)
    && (exists k :: 0 <= k < |ix| && Price(recs[ix[k]]) == low)
  }

  /** `b` is the candle of the records `ix`, given in order: all of one bucket, opening with the first and
      closing with the last, between the extremes of their prices, with their volumes and their number. */
  ghost predicate CandleOf(recs: seq<Record>, tf: int, ix: seq<nat>, b: Bar)
    requires tf > 0 && Within(recs, |recs|, ix)
  {
    && ix != []
    && b.ts % tf == 0 && b.closeTs == b.ts + tf - 1
    && (forall k :: 0 <= k < |ix| ==> b.ts <= recs[ix[k]].ts <= b.closeTs)
    && b.open == Price(recs[ix[0]]) && b.close == Price(recs[ix[|ix| - 1]])
    && Extremes(recs, ix, b.high, b.low)
    && b.vbid == SumBid(recs, ix) % 0x1_0000_0000_0000_0000
    && b.vask == SumAsk(recs, ix) % 0x1_0000_0000_0000_0000
    && b.ticks == |ix| % 0x1_0000_0000
  }

  ghost predicate Candled(recs: seq<Record>, tf: int, groups: seq<seq<nat>>, out: seq<Bar>)
    requires tf > 0 && |groups| == |out|
  {
    forall c :: 0 <= c < |out| ==> Within(recs, |recs|, groups[c]) && CandleOf(recs, tf, groups[c], out[c])
  }

  ghost predicate InOrder(groups: seq<seq<nat>>) {
    forall c, d, i, k :: 0 <= c < d < |groups| && i in groups[c] && k in groups[d] ==> i < k
  }

  ghost predicate Rising(out: seq<Bar>) { forall c, d :: 0 <= c < d < |out| ==> out[c].ts < out[d].ts }

  ghost predicate Holds(groups: seq<seq<nat>>, kept: set<nat>) {
    forall i :: i in kept <==> exists c :: 0 <= c < |groups| && i in groups[c]
  }

  /** The candles of the groups, which are in order and hold exactly the records of `kept`. */
  ghost predicate Grouped(recs: seq<Record>, tf: int, kept: set<nat>, groups: seq<seq<nat>>, out: seq<Bar>)
    requires tf > 0
  {
    |groups| == |out| && Candled(recs, tf, groups, out) && InOrder(groups) && Rising(out) && Holds(groups, kept)
  }

  // ---- One record ----

  lemma {:induction false} MultipleMod(q: int, tf: int)
    requires tf > 0
    ensures q * tf % tf == 0
  {
    assert q * tf == q * tf + 0;
    FloorUnique(q * tf, q, tf);
    assert q * tf == q * tf / tf * tf + q * tf % tf;
  }

  lemma {:induction false} BucketOrder(x: int, y: int, tf: int)
    requires tf > 0
    ensures BucketStart(x, tf) < BucketStart(y, tf) <==> x / tf < y / tf
  {
    if x / tf < y / tf {
      MulMonotone(x / tf + 1, y / tf, tf);
    } else {
      MulMonotone(y / tf, x / tf, tf);
    }
  }

  lemma {:induction false} HalfToTwice(mid: real, last: real)
    requires last > 0.0
    ensures 0.5 <= mid / last <= 2.0 <==> 0.5 * last <= mid <= 2.0 * last
  {
    assert mid / last * last == mid;
  }

  /** Volumes of a record are 32 bits wide. */
  predicate Narrow(recs: seq<Record>) {
    forall i :: 0 <= i < |recs| ==> recs[i].vbid <= 0xFFFF_FFFF && recs[i].vask <= 0xFFFF_FFFF
  }

  lemma {:induction false} SumsSnoc(recs: seq<Record>, ix: seq<nat>, n: nat)
    requires n < |recs| && forall k :: 0 <= k < |ix| ==> ix[k] < |recs|
    ensures forall k :: 0 <= k < |ix + [n]| ==> (ix + [n])[k] < |recs|
    ensures SumBid(recs, ix + [n]) == SumBid(recs, ix) + recs[n].vbid
    ensures SumAsk(recs, ix + [n]) == SumAsk(recs, ix) + recs[n].vask
  {
    assert (ix + [n])[..|ix|] == ix;
  }

  lemma {:induction false} NoSums(recs: seq<Record>)
    ensures SumBid(recs, []) == 0 && SumAsk(recs, []) == 0
  {
  }

  /** The candle of one record. */
  lemma {:induction false} OpensCandle(recs: seq<Record>, tf: int, n: nat)
    requires tf > 0 && n < |recs| && Narrow(recs)
    ensures CandleOf(recs, tf, [n], Cell(tf, Unit(recs[n])))
  {
    hide BucketStart, SumBid, SumAsk;
    var ix: seq<nat> := [n];
    NoSums(recs);
    SumsSnoc(recs, [], n);
    assert [] + [n] == ix;
    BucketMultiple(recs[n].ts, tf);
    assert Price(recs[ix[0]]) == Mid(recs[n]);
  }

  lemma {:induction false} BucketMultiple(x: int, tf: int)
    requires tf > 0
    ensures BucketStart(x, tf) % tf == 0 && BucketStart(x, tf) <= x <= BucketStart(x, tf) + tf - 1
  {
    MultipleMod(x / tf, tf);
    BucketBounds(x, tf);
  }

  lemma {:induction false} Wrap64(a: nat, b: nat)
    ensures (a % W64 + b) % W64 == (a + b) % W64
  {
  }

  /** A record of the open bucket joins its candle. */
  lemma {:induction false} JoinsCandle(recs: seq<Record>, tf: int, ix: seq<nat>, b: Bar, n: nat)
    requires tf > 0 && n < |recs| && Within(recs, n, ix) && CandleOf(recs, tf, ix, b)
    requires BucketStart(recs[n].ts, tf) == b.ts
    ensures Within(recs, |recs|, ix + [n])
    ensures CandleOf(recs, tf, ix + [n], Comb(Wrapping, b, Unit(recs[n])))
  {
    hide BucketStart, SumBid, SumAsk;
    var to, c := ix + [n], Comb(Wrapping, b, Unit(recs[n]));
    SumsSnoc(recs, ix, n);
    Wrap64(SumBid(recs, ix), recs[n].vbid);
    Wrap64(SumAsk(recs, ix), recs[n].vask);
    WrapAdd(|ix|, 1);
    BucketMultiple(recs[n].ts, tf);
    JoinsPrices(recs, ix, b.high, b.low, n);
    assert to[|ix|] == n && forall k :: 0 <= k < |ix| ==> to[k] == ix[k];
  }

  lemma {:induction false} JoinsPrices(recs: seq<Record>, ix: seq<nat>, high: real, low: real, n: nat)
    requires n < |recs| && forall k :: 0 <= k < |ix| ==> ix[k] < |recs|
    requires Extremes(recs, ix, high, low)
    ensures forall k :: 0 <= k < |ix + [n]| ==> (ix + [n])[k] < |recs|
    ensures Extremes(recs, ix + [n], MaxR(high, Price(recs[n])), MinR(low, Price(recs[n])))
  {
    var to := ix + [n];
    assert to[|ix|] == n;
    var h :| 0 <= h < |ix| && Price(recs[ix[h]]) == high;
    var l :| 0 <= l < |ix| && Price(recs[ix[l]]) == low;
    assert to[h] == ix[h] && to[l] == ix[l];
  }

  // ---- All records ----

  /** The resampler after the first `n` records, and the records behind what it holds. */
  ghost predicate Told(recs: seq<Record>, tf: int, n: nat, s: Resampler, acc: set<nat>, kept: set<nat>,
                       groups: seq<seq<nat>>)
    requires tf > 0
  {
    && n <= |recs| && Accepted(recs, n, acc) && OnTime(recs, tf, acc, kept)
    && Grouped(recs, tf, kept, groups, s.out)
    && LastPrice(recs, n, acc, s.last) && OpenBucket(recs, tf, acc, s.out)
  }

  /** The price kept is that of the last accepted record. */
  ghost predicate LastPrice(recs: seq<Record>, n: nat, acc: set<nat>, last: real) {
    && (acc == {} ==> last == 0.0)
    && (forall i, j: nat :: LastBefore(acc, i, j) && n <= i && j < |recs| ==> last == Price(recs[j]) > 0.0)
  }

  /** The open bucket is the latest one of an accepted record. */
  ghost predicate OpenBucket(recs: seq<Record>, tf: int, acc: set<nat>, out: seq<Bar>)
    requires tf > 0
  {
    && (acc == {} <==> out == [])
    && (forall j :: j in acc && j < |recs| && out != [] ==> BucketStart(recs[j].ts, tf) <= out[|out| - 1].ts)
    && (out != [] ==> exists j :: j in acc && j < |recs| && BucketStart(recs[j].ts, tf) == out[|out| - 1].ts)
  }

  lemma {:induction false} FeedAllSnoc(tf: int, s: Resampler, recs: seq<Record>, r: Record)
    requires tf > 0
    ensures FeedAll(tf, s, recs + [r]) == Feed(tf, FeedAll(tf, s, recs), r)
    decreases |recs|
  {
    hide Feed;
    if recs == [] {
      assert [] + [r] == [r] && [r][1..] == [];
    } else {
      assert (recs + [r])[1..] == recs[1..] + [r];
      FeedAllSnoc(tf, Feed(tf, s, recs[0]), recs[1..], r);
    }
  }

  lemma {:induction false} HasLast(a: set<nat>, n: nat) returns (j: nat)
    requires a != {} && forall i :: i in a ==> i < n
    ensures LastBefore(a, n, j)
    decreases n
  {
    if n - 1 in a {
      j := n - 1;
    } else {
      j := HasLast(a, n - 1);
    }
  }

  /** The guard of the resampler is the one stated here. */
  lemma {:induction false} SaneIsPasses(recs: seq<Record>, tf: int, n: nat, s: Resampler, acc: set<nat>,
                                        kept: set<nat>, groups: seq<seq<nat>>)
    requires tf > 0 && n < |recs| && Told(recs, tf, n, s, acc, kept, groups)
    ensures SaneMid(Mid(recs[n]), s.last) <==> Passes(recs, acc, n)
  {
    hide Grouped, OnTime;
    assert Mid(recs[n]) == Price(recs[n]);
    if acc != {} {
      var j := HasLast(acc, n);
      HalfToTwice(Price(recs[n]), s.last);
    }
  }

  lemma {:induction false} AcceptedSnoc(recs: seq<Record>, n: nat, acc: set<nat>)
    requires n < |recs| && Accepted(recs, n, acc)
    ensures Accepted(recs, n + 1, if Passes(recs, acc, n) then acc + {n} else acc)
  {
    var next := if Passes(recs, acc, n) then acc + {n} else acc;
    forall i: nat | i <= n
      ensures Passes(recs, next, i) <==> Passes(recs, acc, i)
    {
      assert forall j: nat :: LastBefore(next, i, j) <==> LastBefore(acc, i, j);
    }
  }

  lemma {:induction false} OnTimeSnoc(recs: seq<Record>, tf: int, n: nat, acc: set<nat>, kept: set<nat>)
    requires tf > 0 && n < |recs| && (forall i :: i in acc ==> i < n) && OnTime(recs, tf, acc, kept)
    ensures OnTime(recs, tf, acc + {n}, if Late(recs, tf, acc, n) then kept else kept + {n})
  {
    forall i: nat | i <= n
      ensures Late(recs, tf, acc + {n}, i) <==> Late(recs, tf, acc, i)
    {
      assert forall j: nat :: j < i ==> (j in acc + {n} <==> j in acc);
    }
  }

  /** A record is late exactly when the resampler finds its bucket before the open one. */
  lemma {:induction false} LateIsDropped(recs: seq<Record>, tf: int, n: nat, s: Resampler, acc: set<nat>,
                                         kept: set<nat>, groups: seq<seq<nat>>)
    requires tf > 0 && n < |recs| && Told(recs, tf, n, s, acc, kept, groups)
    ensures Late(recs, tf, acc, n) <==> s.out != [] && BucketStart(recs[n].ts, tf) < s.out[|s.out| - 1].ts
  {
    hide Grouped, OnTime, BucketStart;
    forall j | j in acc
      ensures recs[j].ts / tf > recs[n].ts / tf <==> BucketStart(recs[n].ts, tf) < BucketStart(recs[j].ts, tf)
    {
      BucketOrder(recs[n].ts, recs[j].ts, tf);
    }
  }

  lemma {:induction false} HoldsBelow(groups: seq<seq<nat>>, kept: set<nat>, n: nat)
    requires Holds(groups, kept) && forall i :: i in kept ==> i < n
    ensures forall c, i :: 0 <= c < |groups| && i in groups[c] ==> i < n
  {
    forall c, i | 0 <= c < |groups| && i in groups[c]
      ensures i < n
    {
      assert i in kept;
    }
  }

  lemma {:induction false} HoldsOpens(groups: seq<seq<nat>>, kept: set<nat>, n: nat)
    requires Holds(groups, kept) && InOrder(groups) && forall i :: i in kept ==> i < n
    ensures Holds(groups + [[n]], kept + {n}) && InOrder(groups + [[n]])
  {
    var gs := groups + [[n]];
    HoldsBelow(groups, kept, n);
    assert gs[|groups|] == [n] && n in gs[|groups|] && forall c :: 0 <= c < |groups| ==> gs[c] == groups[c];
    forall i | i in kept
      ensures exists c :: 0 <= c < |gs| && i in gs[c]
    {
      var c :| 0 <= c < |groups| && i in groups[c];
      assert i in gs[c];
    }
  }

  lemma {:induction false} HoldsJoins(groups: seq<seq<nat>>, kept: set<nat>, n: nat)
    requires groups != [] && Holds(groups, kept) && InOrder(groups) && forall i :: i in kept ==> i < n
    ensures var m := |groups| - 1;
            && Holds(groups[m := groups[m] + [n]], kept + {n}) && InOrder(groups[m := groups[m] + [n]])
  {
    var m := |groups| - 1;
    var gs := groups[m := groups[m] + [n]];
    HoldsBelow(groups, kept, n);
    assert gs[m][|groups[m]|] == n;
    assert forall i :: i in gs[m] <==> i in groups[m] || i == n;
    assert forall c :: 0 <= c < m ==> gs[c] == groups[c];
    forall i
      ensures i in kept + {n} <==> exists c :: 0 <= c < |gs| && i in gs[c]
    {
      if i == n {
        assert i in gs[m];
      } else if i in kept {
        var c :| 0 <= c < |groups| && i in groups[c];
        assert i in gs[c];
      } else {
        forall c | 0 <= c < |gs|
          ensures i !in gs[c]
        {
          assert i !in groups[c];
        }
      }
    }
  }

  /** A record of a later bucket opens a candle of its own. */
  lemma {:induction false} GroupOpens(recs: seq<Record>, tf: int, n: nat, kept: set<nat>, groups: seq<seq<nat>>,
                                      out: seq<Bar>)
    requires tf > 0 && n < |recs| && Narrow(recs) && Grouped(recs, tf, kept, groups, out)
    requires forall i :: i in kept ==> i < n
    requires out != [] ==> out[|out| - 1].ts < BucketStart(recs[n].ts, tf)
    ensures Grouped(recs, tf, kept + {n}, groups + [[n]], out + [Cell(tf, Unit(recs[n]))])
  {
    hide CandleOf, BucketStart, Holds, InOrder;
    OpensCandle(recs, tf, n);
    HoldsOpens(groups, kept, n);
    var gs, to := groups + [[n]], out + [Cell(tf, Unit(recs[n]))];
    assert forall c :: 0 <= c < |out| ==> to[c] == out[c] && gs[c] == groups[c];
    assert gs[|out|] == [n] && to[|out|].ts == BucketStart(recs[n].ts, tf);
    assert Rising(to);
    assert Candled(recs, tf, gs, to);
  }

  /** A record of the open bucket joins the last candle. */
  lemma {:induction false} GroupJoins(recs: seq<Record>, tf: int, n: nat, kept: set<nat>, groups: seq<seq<nat>>,
                                      out: seq<Bar>)
    requires tf > 0 && n < |recs| && Grouped(recs, tf, kept, groups, out)
    requires forall i :: i in kept ==> i < n
    requires out != [] && out[|out| - 1].ts == BucketStart(recs[n].ts, tf)
    ensures var m := |out| - 1;
            Grouped(recs, tf, kept + {n}, groups[m := groups[m] + [n]],
                    out[m := Comb(Wrapping, out[m], Unit(recs[n]))])
  {
    hide CandleOf, BucketStart, Unit, Holds, InOrder;
    var m := |out| - 1;
    HoldsBelow(groups, kept, n);
    assert forall k :: 0 <= k < |groups[m]| ==> groups[m][k] in groups[m];
    JoinsCandle(recs, tf, groups[m], out[m], n);
    HoldsJoins(groups, kept, n);
    var to := out[m := Comb(Wrapping, out[m], Unit(recs[n]))];
    assert forall c :: 0 <= c < |out| ==> to[c].ts == out[c].ts;
    assert Rising(to);
    assert Candled(recs, tf, groups[m := groups[m] + [n]], to);
  }

  /** What one more record changes. */
  lemma {:induction false} ToldSnoc(recs: seq<Record>, tf: int, n: nat, s: Resampler, acc: set<nat>, kept: set<nat>,
                                    groups: seq<seq<nat>>)
    returns (acc': set<nat>, kept': set<nat>, groups': seq<seq<nat>>)
    requires tf > 0 && n < |recs| && Narrow(recs) && Told(recs, tf, n, s, acc, kept, groups)
    ensures Told(recs, tf, n + 1, Feed(tf, s, recs[n]), acc', kept', groups')
  {
    hide Grouped, Accepted, OnTime, Passes, Late, SaneMid, BucketStart, LastPrice, OpenBucket, Mid, Price;
    hide Add64, MaxR, MinR, View;
    SaneIsPasses(recs, tf, n, s, acc, kept, groups);
    LateIsDropped(recs, tf, n, s, acc, kept, groups);
    AcceptedSnoc(recs, n, acc);
    KeptBelow(recs, tf, n, acc, kept);
    OnTimeSnoc(recs, tf, n, acc, kept);
    LastPriceSnoc(recs, n, acc, s.last);
    PassesPositive(recs, acc, n);
    acc', kept', groups' := acc, kept, groups;
    if Passes(recs, acc, n) {
      acc' := acc + {n};
      OpenBucketSnoc(recs, tf, n, acc, s.out, Feed(tf, s, recs[n]).out);
      if !Late(recs, tf, acc, n) {
        kept' := kept + {n};
        if s.out != [] && s.out[|s.out| - 1].ts == BucketStart(recs[n].ts, tf) {
          GroupJoins(recs, tf, n, kept, groups, s.out);
          SameLength(recs, tf, kept, groups, s.out);
          groups' := groups[|s.out| - 1 := groups[|s.out| - 1] + [n]];
        } else {
          GroupOpens(recs, tf, n, kept, groups, s.out);
          groups' := groups + [[n]];
        }
      }
    }
  }

  lemma {:induction false} KeptBelow(recs: seq<Record>, tf: int, n: nat, acc: set<nat>, kept: set<nat>)
    requires tf > 0 && n <= |recs| && Accepted(recs, n, acc) && OnTime(recs, tf, acc, kept)
    ensures (forall i :: i in acc ==> i < n) && forall i :: i in kept ==> i < n
  {
  }

  lemma {:induction false} PassesPositive(recs: seq<Record>, acc: set<nat>, n: nat)
    requires n < |recs|
    ensures Passes(recs, acc, n) ==> Price(recs[n]) > 0.0
    ensures Mid(recs[n]) == Price(recs[n])
  {
  }

  lemma {:induction false} SameLength(recs: seq<Record>, tf: int, kept: set<nat>, groups: seq<seq<nat>>,
                                      out: seq<Bar>)
    requires tf > 0 && Grouped(recs, tf, kept, groups, out)
    ensures |groups| == |out|
  {
  }

  lemma {:induction false} LastPriceSnoc(recs: seq<Record>, n: nat, acc: set<nat>, last: real)
    requires n < |recs| && LastPrice(recs, n, acc, last) && forall i :: i in acc ==> i < n
    ensures LastPrice(recs, n + 1, acc, last)
    ensures Price(recs[n]) > 0.0 ==> LastPrice(recs, n + 1, acc + {n}, Price(recs[n]))
  {
    assert forall i, j: nat :: LastBefore(acc + {n}, i, j) && n < i ==> j == n;
  }

  lemma {:induction false} OpenBucketSnoc(recs: seq<Record>, tf: int, n: nat, acc: set<nat>, out: seq<Bar>,
                                          next: seq<Bar>)
    requires tf > 0 && n < |recs| && OpenBucket(recs, tf, acc, out)
    requires if out != [] && BucketStart(recs[n].ts, tf) < out[|out| - 1].ts then next == out
             else next != [] && next[|next| - 1].ts == BucketStart(recs[n].ts, tf)
    ensures OpenBucket(recs, tf, acc + {n}, next)
  {
    hide BucketStart;
  }

  /** Every candle is the candle of its records: those accepted and not late, each in exactly one candle, in
      order, for any list of records and any bucket size. */
  lemma {:induction false} CandleLaw(recs: seq<Record>, tf: int)
    returns (acc: set<nat>, kept: set<nat>, groups: seq<seq<nat>>)
    requires tf > 0 && Narrow(recs)
    ensures Accepted(recs, |recs|, acc) && OnTime(recs, tf, acc, kept)
    ensures Grouped(recs, tf, kept, groups, Resample(tf, recs))
  {
    acc, kept, groups := ToldAll(recs, tf, |recs|);
    assert recs[..|recs|] == recs;
  }

  lemma {:induction false} ToldNothing(recs: seq<Record>, tf: int)
    requires tf > 0
    ensures Told(recs, tf, 0, START, {}, {}, [])
  {
  }

  lemma {:induction false} ToldAll(recs: seq<Record>, tf: int, n: nat)
    returns (acc: set<nat>, kept: set<nat>, groups: seq<seq<nat>>)
    requires tf > 0 && n <= |recs| && Narrow(recs)
    ensures Told(recs, tf, n, FeedAll(tf, START, recs[..n]), acc, kept, groups)
  {
    hide Told, Feed;
    if n == 0 {
      acc, kept, groups := {}, {}, [];
      assert recs[..0] == [];
      ToldNothing(recs, tf);
    } else {
      acc, kept, groups := ToldAll(recs, tf, n - 1);
      acc, kept, groups := ToldSnoc(recs, tf, n - 1, FeedAll(tf, START, recs[..n - 1]), acc, kept, groups);
      FeedAllSnoc(tf, START, recs[..n - 1], recs[n - 1]);
      assert recs[..n] == recs[..n - 1] + [recs[n - 1]];
    }
  }
}
