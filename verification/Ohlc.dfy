/** Bucket-aligned OHLC resampling of index records, its streaming twin, and the rollup
    of a finished series to a coarser bucket size. Prices are exact reals; counters have
    their machine widths.
 */
module Ohlc {
  import opened Optional

  const W32: nat := 0x1_0000_0000
  const W64: nat := 0x1_0000_0000_0000_0000

  /** A decoded index record. */
  datatype Record = Record(ts: int, bid: real, ask: real, vbid: nat, vask: nat)

  /** A candle; also the state of an open bucket, whose close time its start fixes. */
  datatype Bar = Bar(ts: int, closeTs: int, open: real, high: real, low: real, close: real,
                     vbid: nat, vask: nat, ticks: nat)

  // ---- Bucket alignment ----

  function BucketStart(ts: int, tf: int): int
    requires tf > 0
  {
    ts / tf * tf
  }

  lemma {:induction false} FloorUnique(x: int, q: int, tf: int)
    requires tf > 0 && q * tf <= x < q * tf + tf
    ensures x / tf == q && BucketStart(x, tf) == q * tf
  {
    var p := x / tf;
    FloorBounds(x, tf);
    if p < q {
      MulMonotone(p + 1, q, tf);
    } else if q < p {
      MulMonotone(q + 1, p, tf);
    }
  }

  lemma {:induction false} MulMonotone(a: int, b: int, t: int)
    requires a <= b && t >= 0
    ensures a * t <= b * t
  {
  }

  lemma {:induction false} BucketBounds(x: int, tf: int)
    requires tf > 0
    ensures BucketStart(x, tf) <= x < BucketStart(x, tf) + tf
    ensures BucketStart(BucketStart(x, tf), tf) == BucketStart(x, tf)
  {
    FloorBounds(x, tf);
    FloorUnique(x / tf * tf, x / tf, tf);
  }

  lemma {:induction false} FloorBetween(x: int, n: int, y: int, lo: int, hi: int)
    requires n > 0 && y * n <= x < y * n + n && lo * n <= x < hi * n
    ensures lo * n <= y * n && y * n + n <= hi * n
  {
    if y < lo {
      MulMonotone(y + 1, lo, n);
    }
    if hi <= y {
      MulMonotone(hi, y, n);
    }
    MulMonotone(lo, y, n);
    MulMonotone(y + 1, hi, n);
  }

  lemma {:induction false} MulAssoc(a: int, b: int, c: int)
    ensures (a * b) * c == a * (b * c)
    ensures (a * b + b) * c == a * (b * c) + b * c
  {
  }

  lemma {:induction false} DivExact(m: int, n: int)
    requires n > 0 && m % n == 0
    ensures m == m / n * n
  {
  }

  lemma {:induction false} FloorBounds(x: int, t: int)
    requires t > 0
    ensures x / t * t <= x < x / t * t + t
  {
  }

  /** A fine bucket lies inside one coarse bucket when the sizes nest, on negative times too. */
  lemma {:induction false} BucketsNest(x: int, n: int, m: int)
    requires n > 0 && m > 0 && m % n == 0
    ensures BucketStart(BucketStart(x, n), m) == BucketStart(x, m)
    ensures BucketStart(BucketStart(x, n) + n - 1, m) == BucketStart(x, m)
  {
    var k, q, y := m / n, x / m, x / n;
    DivExact(m, n);
    MulAssoc(q, k, n);
    FloorBounds(x, n);
    FloorBounds(x, m);
    FloorBetween(x, n, y, q * k, q * k + k);
    FloorUnique(y * n, q, m);
    FloorUnique(y * n + n - 1, q, m);
  }

  lemma {:induction false} BucketMonotone(x: int, y: int, tf: int)
    requires tf > 0 && x <= y
    ensures BucketStart(x, tf) <= BucketStart(y, tf)
  {
    var p, q := x / tf, y / tf;
    FloorBounds(x, tf);
    FloorBounds(y, tf);
    if q < p {
      MulMonotone(q + 1, p, tf);
    } else {
      MulMonotone(p, q, tf);
    }
  }

  // ---- Counters ----

  /** How a 32-bit tick counter treats overflow. `Exact` has no width. */
  datatype Count = Exact | Wrapping | Saturating

  function View(c: Count, n: nat): nat {
    match c
    case Exact => n
    case Wrapping => n % W32
    case Saturating => if n < W32 then n else W32 - 1
  }

  lemma {:induction false} ViewAdd(c: Count, a: nat, b: nat)
    ensures View(c, View(c, a) + b) == View(c, a + b)
    ensures View(c, a + View(c, b)) == View(c, a + b)
  {
    if c == Wrapping {
      WrapAdd(a, b);
      WrapAdd(b, a);
    }
  }

  lemma {:induction false} WrapAdd(a: nat, b: nat)
    ensures (a % W32 + b) % W32 == (a + b) % W32
  {
  }

  function Add64(a: nat, b: nat): nat { (a + b) % W64 }

  lemma {:induction false} Add64Assoc(a: nat, b: nat, c: nat)
    ensures Add64(Add64(a, b), c) == Add64(a, Add64(b, c))
  {
  }

  // ---- Folding bars into buckets ----

  function MaxR(a: real, b: real): real { if b > a then b else a }

  function MinR(a: real, b: real): real { if b < a then b else a }

  /** `b` alone in its bucket. */
  function Cell(tf: int, b: Bar): Bar
    requires tf > 0
  {
    var s := BucketStart(b.ts, tf);
    b.(ts := s, closeTs := s + tf - 1)
  }

  /** First, maximum, minimum, last, sums. */
  function Comb(c: Count, a: Bar, b: Bar): Bar {
    Bar(a.ts, a.closeTs, a.open, MaxR(a.high, b.high), MinR(a.low, b.low), b.close,
        Add64(a.vbid, b.vbid), Add64(a.vask, b.vask), View(c, a.ticks + b.ticks))
  }

  /** Add one bar to a series of buckets: merge it into the last bucket, or open the next. */
  function Push(c: Count, tf: int, out: seq<Bar>, b: Bar): seq<Bar>
    requires tf > 0
  {
    if out != [] && out[|out| - 1].ts == BucketStart(b.ts, tf)
    then out[|out| - 1 := Comb(c, out[|out| - 1], b)]
    else out + [Cell(tf, b)]
  }

  function PushAll(c: Count, tf: int, out: seq<Bar>, bars: seq<Bar>): seq<Bar>
    requires tf > 0
    decreases |bars|
  {
    if bars == [] then out else PushAll(c, tf, Push(c, tf, out, bars[0]), bars[1..])
  }

  /** Consecutive bars of one bucket folded together. */
  function Runs(c: Count, tf: int, bars: seq<Bar>): seq<Bar>
    requires tf > 0
  {
    PushAll(c, tf, [], bars)
  }

  lemma {:induction false} PushAllSnoc(c: Count, tf: int, out: seq<Bar>, bars: seq<Bar>, b: Bar)
    requires tf > 0
    ensures PushAll(c, tf, out, bars + [b]) == Push(c, tf, PushAll(c, tf, out, bars), b)
    decreases |bars|
  {
    if bars == [] {
      assert [] + [b] == [b] && [b][1..] == [];
    } else {
      PushAllSnoc(c, tf, Push(c, tf, out, bars[0]), bars[1..], b);
      assert (bars + [b])[1..] == bars[1..] + [b];
    }
  }

  lemma {:induction false} CombAssoc(c: Count, a: Bar, b: Bar, d: Bar)
    ensures Comb(c, Comb(c, a, b), d) == Comb(c, a, Comb(c, b, d))
  {
    hide View, Add64;
    ViewAdd(c, a.ticks + b.ticks, d.ticks);
    ViewAdd(c, a.ticks, b.ticks + d.ticks);
    Add64Assoc(a.vbid, b.vbid, d.vbid);
    Add64Assoc(a.vask, b.vask, d.vask);
  }

  /** The buckets produced so far start on bucket boundaries. */
  ghost predicate OnGrid(tf: int, out: seq<Bar>)
    requires tf > 0
  {
    forall i :: 0 <= i < |out| ==> BucketStart(out[i].ts, tf) == out[i].ts && out[i].closeTs == out[i].ts + tf - 1
  }

  lemma {:induction false} RunsOnGrid(c: Count, tf: int, out: seq<Bar>, bars: seq<Bar>)
    requires tf > 0 && OnGrid(tf, out)
    ensures OnGrid(tf, PushAll(c, tf, out, bars))
    decreases |bars|
  {
    if bars != [] {
      BucketBounds(bars[0].ts, tf);
      RunsOnGrid(c, tf, Push(c, tf, out, bars[0]), bars[1..]);
    }
  }

  /** A merged bar may be pushed whole or in its two parts. */
  lemma {:induction false} PushMerged(c: Count, m: int, out: seq<Bar>, a: Bar, b: Bar)
    requires m > 0 && BucketStart(a.ts, m) == BucketStart(b.ts, m)
    ensures Push(c, m, out, Comb(c, a, b)) == Push(c, m, Push(c, m, out, a), b)
  {
    BucketBounds(a.ts, m);
    if out != [] && out[|out| - 1].ts == BucketStart(a.ts, m) {
      CombAssoc(c, out[|out| - 1], a, b);
    }
  }

  lemma {:induction false} PushCell(c: Count, n: int, m: int, out: seq<Bar>, b: Bar)
    requires n > 0 && m > 0 && m % n == 0
    ensures Push(c, m, out, Cell(n, b)) == Push(c, m, out, b)
  {
    BucketsNest(b.ts, n, m);
  }

  /** Folding to `n` and then to a multiple `m` is folding to `m` at once. */
  lemma {:induction false} RunsCompose(c: Count, n: int, m: int, bars: seq<Bar>)
    requires n > 0 && m > 0 && m % n == 0
    ensures Runs(c, m, Runs(c, n, bars)) == Runs(c, m, bars)
  {
    if bars != [] {
      var front, b := bars[..|bars| - 1], bars[|bars| - 1];
      assert bars == front + [b];
      RunsCompose(c, n, m, front);
      PushAllSnoc(c, n, [], front, b);
      PushAllSnoc(c, m, [], front, b);
      RunsOnGrid(c, n, [], front);
      var fine := Runs(c, n, front);
      if fine != [] && fine[|fine| - 1].ts == BucketStart(b.ts, n) {
        var init, last := fine[..|fine| - 1], fine[|fine| - 1];
        assert fine == init + [last] && Runs(c, n, bars) == init + [Comb(c, last, b)];
        PushAllSnoc(c, m, [], init, last);
        PushAllSnoc(c, m, [], init, Comb(c, last, b));
        BucketsNest(b.ts, n, m);
        PushMerged(c, m, Runs(c, m, init), last, b);
      } else {
        PushAllSnoc(c, m, [], fine, Cell(n, b));
        PushCell(c, n, m, Runs(c, m, fine), b);
      }
    }
  }

  // ---- Tick counters of any width are views of the exact count ----

  function ViewBar(c: Count, b: Bar): Bar { b.(ticks := View(c, b.ticks)) }

  function ViewAll(c: Count, bars: seq<Bar>): (r: seq<Bar>)
    ensures |r| == |bars| && forall i :: 0 <= i < |bars| ==> r[i] == ViewBar(c, bars[i])
  {
    seq(|bars|, i requires 0 <= i < |bars| => ViewBar(c, bars[i]))
  }

  lemma {:induction false} PushView(c: Count, tf: int, out: seq<Bar>, b: Bar)
    requires tf > 0 && b.ticks < W32
    ensures Push(c, tf, ViewAll(c, out), b) == ViewAll(c, Push(Exact, tf, out, b))
  {
    if out != [] {
      ViewAdd(c, out[|out| - 1].ticks, b.ticks);
    }
  }

  /** Counting with a width is counting exactly and viewing the result, if every single
      input count fits the width. */
  lemma {:induction false} RunsView(c: Count, tf: int, bars: seq<Bar>)
    requires tf > 0 && forall i :: 0 <= i < |bars| ==> bars[i].ticks < W32
    ensures Runs(c, tf, bars) == ViewAll(c, Runs(Exact, tf, bars))
  {
    if bars != [] {
      var front, b := bars[..|bars| - 1], bars[|bars| - 1];
      assert bars == front + [b];
      RunsView(c, tf, front);
      PushAllSnoc(c, tf, [], front, b);
      PushAllSnoc(Exact, tf, [], front, b);
      var e := Runs(Exact, tf, front);
      PushView(c, tf, e, b);
    }
  }

  // ---- Resampling records ----

  function Mid(r: Record): real { (r.bid + r.ask) * 0.5 }

  predicate SanePx(p: real) { 0.0 < p < 1000000000000000.0 }

  /** Sane, and within a factor two of the last accepted mid, if there is one. */
  predicate SaneMid(mid: real, last: real) {
    SanePx(mid) && !(last > 0.0 && !(0.5 <= mid / last <= 2.0))
  }

  /** One record as a bar of its own. */
  function Unit(r: Record): Bar { Bar(r.ts, r.ts, Mid(r), Mid(r), Mid(r), Mid(r), r.vbid, r.vask, 1) }

  /** The candles so far, the last one still open, and the last accepted mid. */
  datatype Resampler = Resampler(out: seq<Bar>, last: real)

  const START: Resampler := Resampler([], 0.0)

  function Feed(tf: int, s: Resampler, r: Record): Resampler
    requires tf > 0
  {
    if !SaneMid(Mid(r), s.last) then s
    else if s.out != [] && BucketStart(r.ts, tf) < s.out[|s.out| - 1].ts then s.(last := Mid(r))
    else Resampler(Push(Wrapping, tf, s.out, Unit(r)), Mid(r))
  }

  function FeedAll(tf: int, s: Resampler, recs: seq<Record>): Resampler
    requires tf > 0
    decreases |recs|
  {
    if recs == [] then s else FeedAll(tf, Feed(tf, s, recs[0]), recs[1..])
  }

  function Resample(tf: int, recs: seq<Record>): seq<Bar>
    requires tf > 0
  {
    FeedAll(tf, START, recs).out
  }

  /** The open bucket as a series. */
  function Open(cur: Option<Bar>): seq<Bar> { if cur.Some? then [cur.value] else [] }

  /** One record against the open bucket: what closes, and what is open afterwards. */
  method TakeRecord(tf: int, cur: Option<Bar>, last: real, rec: Record)
    returns (closed: Option<Bar>, next: Option<Bar>, mid: real)
    requires tf > 0
    ensures Feed(tf, Resampler(Open(cur), last), rec) == Resampler(Open(closed) + Open(next), mid)
    ensures closed.Some? ==> closed == cur && next.Some?
    ensures closed.None? ==> (cur.Some? ==> next.Some?)
  {
    closed, next, mid := None, cur, last;
    var px := Mid(rec);
    if !SaneMid(px, last) {
      return;
    }
    mid := px;
    var bs := BucketStart(rec.ts, tf);
    var first := Bar(bs, bs + tf - 1, px, px, px, px, rec.vbid, rec.vask, 1);
    if cur.Some? && cur.value.ts == bs {
      var b := cur.value;
      next := Some(b.(high := if px > b.high then px else b.high,
                      low := if px < b.low then px else b.low,
                      close := px,
                      vbid := Add64(b.vbid, rec.vbid),
                      vask := Add64(b.vask, rec.vask),
                      ticks := (b.ticks + 1) % W32));
    } else if cur.Some? && bs > cur.value.ts {
      closed, next := cur, Some(first);
    } else if cur.None? {
      next := Some(first);
    }
  }

  /** Candles that are closed are never looked at again. */
  lemma {:induction false} FeedAllFrame(tf: int, done: seq<Bar>, s: Resampler, recs: seq<Record>)
    requires tf > 0 && s.out != []
    ensures FeedAll(tf, Resampler(done + s.out, s.last), recs).out == done + FeedAll(tf, s, recs).out
    decreases |recs|
  {
    if recs != [] {
      var r := recs[0];
      var t := Feed(tf, s, r);
      var p := done + s.out;
      assert p[|p| - 1] == s.out[|s.out| - 1];
      assert Feed(tf, Resampler(p, s.last), r).out == done + t.out;
      FeedAllFrame(tf, done, t, recs[1..]);
    }
  }

  /** Batch resampling: closed candles are pushed out, the open one at the end. */
  method IdxToOhlc(records: seq<Record>, tf: int) returns (out: seq<Bar>)
    requires tf > 0
    ensures out == Resample(tf, records)
  {
    out := [];
    var cur: Option<Bar> := None;
    var lastMid := 0.0;
    assert records[0..] == records;
    for i := 0 to |records|
      invariant cur.None? ==> out == []
      invariant FeedAll(tf, Resampler(out + Open(cur), lastMid), records[i..]).out == Resample(tf, records)
    {
      hide Feed, FeedAll, SaneMid;
      var closed, next, mid := TakeRecord(tf, cur, lastMid, records[i]);
      FeedRound(tf, out, cur, lastMid, records, i, Resampler(Open(closed) + Open(next), mid));
      ghost var was := out;
      if closed.Some? {
        out := out + [closed.value];
      }
      assert out == was + Open(closed);
      assert was + (Open(closed) + Open(next)) == out + Open(next);
      cur, lastMid := next, mid;
    }
    if cur.Some? {
      out := out + [cur.value];
    }
  }

  /** Feeding record `i` advances the batch fold, whatever is already closed. */
  lemma {:induction false} FeedRound(tf: int, done: seq<Bar>, cur: Option<Bar>, last: real, recs: seq<Record>, i: nat,
                                     next: Resampler)
    requires tf > 0 && i < |recs| && (cur.None? ==> done == [])
    requires next == Feed(tf, Resampler(Open(cur), last), recs[i])
    ensures FeedAll(tf, Resampler(done + Open(cur), last), recs[i..])
         == FeedAll(tf, Resampler(done + next.out, next.last), recs[i + 1..])
  {
    FeedFrame(tf, done, Resampler(Open(cur), last), recs[i]);
    assert recs[i..][0] == recs[i] && recs[i..][1..] == recs[i + 1..];
  }

  lemma {:induction false} FeedFrame(tf: int, done: seq<Bar>, s: Resampler, r: Record)
    requires tf > 0 && (s.out == [] ==> done == [])
    ensures Feed(tf, Resampler(done + s.out, s.last), r)
         == Resampler(done + Feed(tf, s, r).out, Feed(tf, s, r).last)
  {
    var p := done + s.out;
    if s.out != [] {
      assert p[|p| - 1] == s.out[|s.out| - 1];
    }
  }

  /** The pull-based twin over a slice of records. */
  class OhlcStream {
    const records: seq<Record>
    const tf: int
    var pos: nat
    var cur: Option<Bar>
    var done: bool
    var lastMid: real

    ghost predicate Valid()
      reads this
    {
      tf > 0 && pos <= |records| && (done ==> cur.None? && pos == |records|)
    }

    /** The candles still to come. */
    ghost function Remaining(): seq<Bar>
      requires Valid()
      reads this
    {
      FeedAll(tf, Resampler(Open(cur), lastMid), records[pos..]).out
    }

    constructor (recs: seq<Record>, tfMs: int)
      requires tfMs > 0
      ensures Valid() && Remaining() == Resample(tfMs, recs)
    {
      records, tf := recs, tfMs;
      pos, cur, done, lastMid := 0, None, false, 0.0;
      new;
      assert records[0..] == records;
    }

    /** The next candle, once a later bucket opens or the input ends. */
    method Next() returns (r: Option<Bar>)
      requires Valid()
      modifies this
      ensures Valid()
      ensures old(Remaining()) == Open(r) + Remaining()
      ensures r.None? ==> Remaining() == []
    {
      if done {
        return None;
      }
      while true
        invariant Valid() && !done
        invariant Remaining() == old(Remaining())
        decreases |records| - pos
      {
        if pos == |records| {
          done := true;
          r := cur;
          cur := None;
          return;
        }
        assert records[pos..][0] == records[pos] && records[pos..][1..] == records[pos + 1..];
        var closed, next, mid := TakeRecord(tf, cur, lastMid, records[pos]);
        ghost var rest := records[pos + 1..];
        if closed.Some? {
          FeedAllFrame(tf, Open(closed), Resampler(Open(next), mid), rest);
        }
        pos, cur, lastMid := pos + 1, next, mid;
        if closed.Some? {
          return closed;
        }
        assert Open(None) + Open(cur) == Open(cur);
      }
    }

    /** Pulling until the end yields exactly the candles of the batch resampler. */
    method Collect() returns (out: seq<Bar>)
      requires Valid()
      modifies this
      ensures out == old(Remaining())
    {
      out := [];
      while true
        invariant Valid() && out + Remaining() == old(Remaining())
        decreases |Remaining()|
      {
        var r := Next();
        if r.None? {
          return;
        }
        out := out + [r.value];
      }
    }
  }

  /** The batch resampler and the stream give the same candles on every input. */
  method ResamplersAgree(records: seq<Record>, tf: int) returns (batch: seq<Bar>, streamed: seq<Bar>)
    requires tf > 0
    ensures streamed == batch == Resample(tf, records)
  {
    batch := IdxToOhlc(records, tf);
    var s := new OhlcStream(records, tf);
    streamed := s.Collect();
  }

  // ---- Which records count ----

  /** The records that reach a bucket: sane, and not older than the open one. */
  function Kept(tf: int, key: Option<int>, last: real, recs: seq<Record>): seq<Bar>
    requires tf > 0
    decreases |recs|
  {
    if recs == [] then []
    else
      var r := recs[0];
      var bs := BucketStart(r.ts, tf);
      if !SaneMid(Mid(r), last) then Kept(tf, key, last, recs[1..])
      else if key.Some? && bs < key.value then Kept(tf, key, Mid(r), recs[1..])
      else [Unit(r)] + Kept(tf, Some(bs), Mid(r), recs[1..])
  }

  /** The sane records; the filter does not know the bucket size. */
  function SaneUnits(last: real, recs: seq<Record>): seq<Bar>
    decreases |recs|
  {
    if recs == [] then []
    else if !SaneMid(Mid(recs[0]), last) then SaneUnits(last, recs[1..])
    else [Unit(recs[0])] + SaneUnits(Mid(recs[0]), recs[1..])
  }

  function LastKey(out: seq<Bar>): Option<int> { if out == [] then None else Some(out[|out| - 1].ts) }

  /** For any record order, resampling folds exactly the kept records. */
  lemma {:induction false} ResampleFoldsKept(tf: int, s: Resampler, recs: seq<Record>)
    requires tf > 0
    ensures FeedAll(tf, s, recs).out == PushAll(Wrapping, tf, s.out, Kept(tf, LastKey(s.out), s.last, recs))
    decreases |recs|
  {
    if recs != [] {
      ResampleFoldsKept(tf, Feed(tf, s, recs[0]), recs[1..]);
    }
  }

  ghost predicate TimeOrdered(recs: seq<Record>) {
    forall i, k :: 0 <= i <= k < |recs| ==> recs[i].ts <= recs[k].ts
  }

  /** In time order every sane record is kept, whatever the bucket size. */
  lemma {:induction false} TimeOrderedKeepsAll(tf: int, key: Option<int>, last: real, recs: seq<Record>)
    requires tf > 0 && TimeOrdered(recs)
    requires key.Some? && recs != [] ==> key.value <= BucketStart(recs[0].ts, tf)
    ensures Kept(tf, key, last, recs) == SaneUnits(last, recs)
    decreases |recs|
  {
    if recs != [] {
      var r, rest := recs[0], recs[1..];
      if rest != [] {
        assert recs[0].ts <= recs[1].ts;
        BucketMonotone(r.ts, rest[0].ts, tf);
      }
      if SaneMid(Mid(r), last) {
        TimeOrderedKeepsAll(tf, Some(BucketStart(r.ts, tf)), Mid(r), rest);
      } else {
        TimeOrderedKeepsAll(tf, key, last, rest);
      }
    }
  }
}
