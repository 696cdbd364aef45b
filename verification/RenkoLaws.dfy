/** What one call of the renko engine does, in its inputs: milliseconds, prices, multipliers and bricks.
 */
module RenkoLaws {
  import opened Extended
  import opened Grid
  import opened Optional
  import opened RenkoWalk
  import opened Renko
  import opened RenkoRuns
  import BB = BarBuilder

  // ---- When a size is computed, and what it is ----

  /** `h` half hours of 1,800,000 ms from the epoch, towards zero. */
  predicate HalfHourIs(ts: int, h: int) {
    if ts >= 0 then h * 1_800_000 <= ts < (h + 1) * 1_800_000
    else (h - 1) * 1_800_000 < ts <= h * 1_800_000
  }

  /** The first tick computes a size, and the first one of every later half hour. */
  predicate Recomputes(s: State, h: int) { !s.live || h > s.period }

  /** The volatility scaled by the multiplier, floored, as a part of the price. */
  function Wanted(c: Config, o: Obs): real {
    o.price * (if c.multiplier * o.sigma >= c.minPct then c.multiplier * o.sigma else c.minPct)
  }

  /** A point of the 2-unit or the 5-unit grid of four figures, none nearer, the 2-unit one on a tie. */
  ghost predicate FourFigures(size: real, raw: real) {
    exists d: int ::
      && Pow10(d) <= raw < Pow10(d + 1)
      && Nearest25(size, raw, 2.0 * Pow10(d - 3), 5.0 * Pow10(d - 3))
  }

  ghost predicate Nearest25(size: real, raw: real, two: real, five: real) {
    && ((exists k: int :: size == At(k, two))
        || ((exists k: int :: size == At(k, five)) && forall k: int :: Abs(raw - size) < Abs(raw - At(k, two))))
    && (forall k: int :: Abs(raw - size) <= Abs(raw - At(k, two)))
    && (forall k: int :: Abs(raw - size) <= Abs(raw - At(k, five)))
  }

  ghost predicate FinerGrid(grid: real, size: real) {
    if size <= 0.0 then grid == 1.0
    else exists d: int :: Pow10(d) <= size < Pow10(d + 1) && grid == 2.0 * Pow10(d - 3)
  }

  lemma {:induction false} HalfHourLaw(ts: int, h: int)
    ensures HalfHourIs(ts, h) <==> HalfHour(ts) == h
  {
  }

  lemma {:induction false} FourFiguresLaw(raw: real)
    requires raw > 0.0
    ensures FourFigures(SnapTo25Grid(raw), raw) && 1000.0 * Abs(raw - SnapTo25Grid(raw)) <= raw
  {
    hide Nearest25, SnapTo25Grid, FloorLog10, Pow10, Abs, Unit, At, Snap;
    var d := FloorLog10(raw);
    LogBrackets(raw);
    Snap25Nearest(raw, 0);
    Nearest25Law(raw);
    assert Nearest25(SnapTo25Grid(raw), raw, 2.0 * Pow10(d - 3), 5.0 * Pow10(d - 3));
  }

  lemma {:induction false} Nearest25Law(raw: real)
    requires raw > 0.0
    ensures Unit(raw) == Pow10(FloorLog10(raw) - 3)
    ensures Nearest25(SnapTo25Grid(raw), raw, 2.0 * Unit(raw), 5.0 * Unit(raw))
  {
    var two, five, size := 2.0 * Unit(raw), 5.0 * Unit(raw), SnapTo25Grid(raw);
    forall k: int
      ensures Abs(raw - size) <= Abs(raw - At(k, two)) && Abs(raw - size) <= Abs(raw - At(k, five))
    {
      Snap25Nearest(raw, k);
    }
    if size == Snap(raw, two) {
      assert size == At(Round(Ratio(raw, two)), two);
    } else {
      assert size == At(Round(Ratio(raw, five)), five);
      forall k: int
        ensures Abs(raw - size) < Abs(raw - At(k, two))
      {
        SnapNearest(raw, two, k);
      }
    }
  }

  lemma {:induction false} FinerGridLaw(size: real)
    ensures FinerGrid(GridStepForBrick(size), size)
  {
    if size > 0.0 {
      LogBrackets(size);
    }
  }

  /** What the size, its grid and its half hour are after any call. */
  lemma {:induction false} SizeLaw(s: State, o: Obs, room: nat, h: int)
    requires HalfHourIs(o.ts, h)
    ensures var n, raw := Feed(s, o, room).next, Wanted(s.config, o);
            && n.config == s.config
            && (!Recomputes(s, h) ==> n.size == s.size && n.grid == s.grid && n.period == s.period)
            && (Recomputes(s, h) && s.config.multiplier < 0.05 ==>
                 n.size == 0.0 && n.grid == 0.0 && n.period == s.period)
            && (Recomputes(s, h) && s.config.multiplier >= 0.05 ==>
                 && n.period == h && FinerGrid(n.grid, n.size)
                 && (raw <= 0.0 ==> n.size == raw)
                 && (raw > 0.0 ==> FourFigures(n.size, raw) && 1000.0 * Abs(raw - n.size) <= raw))
  {
    hide HalfHourIs, HalfHour, FourFigures, FinerGrid, GridStepForBrick, Closes, Snap, Anchor, Abs;
    HalfHourLaw(o.ts, h);
    var raw := Wanted(s.config, o);
    assert RawBrick(s.config, o.price, o.sigma) == raw;
    FinerGridLaw(SnapTo25Grid(raw));
    if raw > 0.0 {
      FourFiguresLaw(raw);
    }
    SizeKeptByBricks(s, o, room);
  }

  lemma {:induction false} SizeKeptByBricks(s: State, o: Obs, room: nat)
    ensures var n, p := Feed(s, o, room).next, if s.live then Prepare(s, o) else Start(s, o);
            n.config == p.config && n.size == p.size && n.grid == p.grid && n.period == p.period
  {
    hide Closes, Snap, Anchor, Abs, Prepare, Start;
  }

  // ---- The anchor a call works from ----

  /** The multiple of the step nearest to the price, the one away from zero half way. */
  ghost predicate NearestMultiple(x: real, price: real, step: real) {
    if step <= 0.0 then x == price
    else
      && (exists k: int :: x == At(k, step))
      && Abs(x - price) <= step / 2.0
      && (Abs(x - price) == step / 2.0 ==> Abs(x) > Abs(price))
  }

  lemma {:induction false} HalfStep(a: real, step: real)
    requires step > 0.0 && Times(a, step) == step / 2.0
    ensures a == 0.5
  {
    assert (a - 0.5) * step == 0.0;
  }

  lemma {:induction false} SnapLaw(price: real, step: real)
    ensures NearestMultiple(Snap(price, step), price, step)
  {
    if step > 0.0 {
      var r := Ratio(price, step);
      var k := Round(r);
      SnapNearest(price, step, 0);
      assert Snap(price, step) == At(k, step);
      Distance(price, k, step);
      RatioScales(price, step);
      if Abs(At(k, step) - price) == step / 2.0 {
        HalfStep(Abs(r - k as real), step);
        RoundNear(r);
        RatioSign(price, step);
        TimesHalf(r, step);
      }
    }
  }

  lemma {:induction false} RatioSign(x: real, step: real)
    requires step > 0.0
    ensures Ratio(x, step) >= 0.0 <==> x >= 0.0
  {
    RatioOrder(0.0, x, step);
    assert Ratio(0.0, step) == 0.0;
  }

  lemma {:induction false} TimesHalf(a: real, step: real)
    ensures Times(a + 0.5, step) == Times(a, step) + step / 2.0
    ensures Times(a - 0.5, step) == Times(a, step) - step / 2.0
  {
  }

  /** The first tick lays nothing and puts the anchor on the grid point nearest to its price. */
  lemma {:induction false} FirstTickLaw(s: State, o: Obs, room: nat)
    requires !s.live
    ensures var f := Feed(s, o, room);
            && f.bricks == [] && f.ok && f.next.live
            && NearestMultiple(f.next.lastClose, o.price, f.next.grid)
            && f.next.high == f.next.low == Fin(o.price)
            && f.next.startTs == o.ts && f.next.ticks == 1 && f.next.nBars == s.nBars
  {
    SnapLaw(o.price, Resize(s, o).grid);
    hide Snap, SnapTo25Grid, GridStepForBrick, RawBrick, HalfHour, NearestMultiple;
  }

  /** Where a later tick starts: at the anchor it finds, moved to the nearest point of the new grid when the
      size was computed again. */
  lemma {:induction false} AnchorLaw(s: State, o: Obs, room: nat, h: int)
    requires s.live && HalfHourIs(o.ts, h)
    ensures var f := Feed(s, o, room);
            var from := if f.bricks == [] then f.next.lastClose else f.bricks[0].open;
            && (!Recomputes(s, h) ==> from == s.lastClose)
            && (Recomputes(s, h) ==> NearestMultiple(from, s.lastClose, f.next.grid))
  {
    hide HalfHourIs, HalfHour, Closes, Snap, NearestMultiple, Prepare, HighLow, Abs, Resize;
    HalfHourLaw(o.ts, h);
    PrepareKeeps(s, o);
    SnapLaw(s.lastClose, Prepare(s, o).grid);
    SizeKeptByBricks(s, o, room);
  }

  // ---- What a tick leaves ----

  /** The largest and the smallest of a body, a price and a pending extreme, if there is one. */
  predicate IsHigh(x: real, open: real, close: real, price: real, pending: Ext) {
    && x >= open && x >= close && x >= price && (pending.Fin? ==> x >= pending.v)
    && (x == open || x == close || x == price || pending == Fin(x))
  }

  predicate IsLow(x: real, open: real, close: real, price: real, pending: Ext) {
    && x <= open && x <= close && x <= price && (pending.Fin? ==> x <= pending.v)
    && (x == open || x == close || x == price || pending == Fin(x))
  }

  /** A tick with no size or no positive price only counts. */
  lemma {:induction false} CountingTickLaw(s: State, o: Obs, room: nat)
    requires s.live && (Feed(s, o, room).next.size <= 0.0 || o.price <= 0.0)
    ensures var f := Feed(s, o, room);
            && f.bricks == [] && f.ok && f.next.live
            && f.next.ticks == (s.ticks + 1) % 0x1_0000_0000
            && f.next.startTs == s.startTs && f.next.high == s.high && f.next.low == s.low
            && f.next.nBars == s.nBars
  {
    hide Closes, Snap, Prepare, HighLow, Abs, Resize, HalfHour, Anchor;
    PrepareKeeps(s, o);
    SizeKeptByBricks(s, o, room);
  }

  /** Any other tick that lays nothing counts, and its price joins the pending ones. */
  lemma {:induction false} QuietTickLaw(s: State, o: Obs, room: nat)
    requires s.live && Sound(s) && Feed(s, o, room).next.size > 0.0 && o.price > 0.0
    requires Feed(s, o, room).bricks == []
    ensures var n := Feed(s, o, room).next;
            && n.live && n.ticks == (s.ticks + 1) % 0x1_0000_0000 && n.startTs == s.startTs && n.nBars == s.nBars
            && n.high.Fin? && IsHigh(n.high.v, o.price, o.price, o.price, s.high)
            && n.low.Fin? && IsLow(n.low.v, o.price, o.price, o.price, s.low)
  {
    hide Closes, Snap, Prepare, HighLow, Abs, Resize, HalfHour, Anchor, Sized;
    PrepareKeeps(s, o);
    SizeKeptByBricks(s, o, room);
  }

  /** What a brick says: the first one of a tick everything since the brick before, the others their body. */
  lemma {:induction false} BrickFieldsLaw(s: State, o: Obs, room: nat)
    requires s.live && Sound(s) && Feed(s, o, room).bricks != []
    ensures var f := Feed(s, o, room);
            var b := f.bricks[0];
            && b.openTs == s.startTs && b.closeTs == o.ts && !b.synthetic
            && b.ticks == (s.ticks + 1) % 0x1_0000_0000
            && IsHigh(b.high, b.open, b.close, o.price, s.high) && IsLow(b.low, b.open, b.close, o.price, s.low)
            && (forall i :: 0 < i < |f.bricks| ==>
                 var c := f.bricks[i];
                 && c.openTs == c.closeTs == o.ts && c.ticks == 0 && c.synthetic
                 && c.open == f.bricks[i - 1].close
                 && IsHigh(c.high, c.open, c.close, c.open, NegInf) && IsLow(c.low, c.open, c.close, c.open, PosInf))
  {
    hide Closes, Snap, Prepare, Abs, Resize, HalfHour, Anchor, Sized, HighLow, Raise, Lower, IsHigh, IsLow;
    PrepareKeeps(s, o);
    var bs, p := Feed(s, o, room).bricks, Widen(Prepare(s, o), o.price);
    FirstHighLow(s.high, s.low, bs[0].open, bs[0].close, o.price);
    forall i | 0 < i < |bs|
      ensures IsHigh(bs[i].high, bs[i].open, bs[i].close, bs[i].open, NegInf)
      ensures IsLow(bs[i].low, bs[i].open, bs[i].close, bs[i].open, PosInf)
    {
      LaterHighLow(p.high, p.low, bs[i].open, bs[i].close);
    }
  }

  lemma {:induction false} FirstHighLow(high: Ext, low: Ext, open: real, close: real, price: real)
    requires !high.PosInf? && !low.NegInf?
    ensures var (h, l) := HighLow(Raise(high, price), Lower(low, price), open, close, true);
            IsHigh(h, open, close, price, high) && IsLow(l, open, close, price, low)
  {
  }

  lemma {:induction false} LaterHighLow(high: Ext, low: Ext, open: real, close: real)
    ensures var (h, l) := HighLow(high, low, open, close, false);
            IsHigh(h, open, close, open, NegInf) && IsLow(l, open, close, open, PosInf)
  {
  }

  /** And what is left after them: nothing pending, the clock at the tick, the anchor at the last close. */
  lemma {:induction false} AfterBricksLaw(s: State, o: Obs, room: nat)
    requires s.live && Feed(s, o, room).bricks != []
    ensures var f := Feed(s, o, room);
            && f.next.live && f.next.lastClose == f.bricks[|f.bricks| - 1].close
            && f.next.high == NegInf && f.next.low == PosInf
            && f.next.startTs == o.ts && f.next.ticks == 0 && f.next.nBars == s.nBars + |f.bricks|
  {
    hide Closes, Snap, Prepare, HighLow, Abs, Resize, HalfHour;
    PrepareKeeps(s, o);
  }

  // ---- Which bricks a tick lays ----

  /** Paid for in full by the move that is left, and closing at the grid point nearest to a whole size from
      its open. */
  ghost predicate Rises(b: Brick, price: real, size: real, grid: real) {
    price - b.open >= size && NearestMultiple(b.close, b.open + size, grid)
  }

  ghost predicate Drops(b: Brick, price: real, size: real, grid: real) {
    b.open - price >= size && NearestMultiple(b.close, b.open - size, grid)
  }

  /** Brick after brick in one direction. */
  ghost predicate Walks(bs: seq<Brick>, price: real, size: real, grid: real) {
    || (forall i :: 0 <= i < |bs| ==> Rises(bs[i], price, size, grid))
    || (forall i :: 0 <= i < |bs| ==> Drops(bs[i], price, size, grid))
  }

  lemma {:induction false} ClosesUp(last: real, price: real, size: real, grid: real, budget: nat, i: nat)
    requires Sized(size, grid) && last - price < size && i < |Closes(last, price, size, grid, budget)|
    ensures var cs := Closes(last, price, size, grid, budget);
            price - Prev(last, cs, i) >= size && cs[i] == Snap(Prev(last, cs, i) + size, grid)
    decreases budget
  {
    hide Snap, Snapped, GridStepForBrick;
    var c := Snap(last + size, grid);
    StepMoves(last, size, grid);
    if i > 0 {
      ClosesUp(c, price, size, grid, budget - 1, i - 1);
    }
  }

  lemma {:induction false} ClosesDown(last: real, price: real, size: real, grid: real, budget: nat, i: nat)
    requires Sized(size, grid) && price - last < size && i < |Closes(last, price, size, grid, budget)|
    ensures var cs := Closes(last, price, size, grid, budget);
            Prev(last, cs, i) - price >= size && cs[i] == Snap(Prev(last, cs, i) - size, grid)
    decreases budget
  {
    hide Snap, Snapped, GridStepForBrick;
    var c := Snap(last - size, grid);
    StepMoves(last, size, grid);
    if i > 0 {
      ClosesDown(c, price, size, grid, budget - 1, i - 1);
    }
  }

  lemma {:induction false} BrickGoes(s: State, ts: int, price: real, budget: nat, i: nat)
    requires Sized(s.size, s.grid) && i < |Closes(s.lastClose, price, s.size, s.grid, budget)|
    ensures var b := BrickAt(s, ts, Closes(s.lastClose, price, s.size, s.grid, budget), i);
            && (s.lastClose - price < s.size ==> Rises(b, price, s.size, s.grid))
            && (price - s.lastClose < s.size ==> Drops(b, price, s.size, s.grid))
  {
    hide Closes, Snap, Sized, HighLow, NearestMultiple, Prev;
    var last, cs := s.lastClose, Closes(s.lastClose, price, s.size, s.grid, budget);
    SnapLaw(Prev(last, cs, i) + s.size, s.grid);
    SnapLaw(Prev(last, cs, i) - s.size, s.grid);
    if last - price < s.size {
      ClosesUp(last, price, s.size, s.grid, budget, i);
    }
    if price - last < s.size {
      ClosesDown(last, price, s.size, s.grid, budget, i);
    }
  }

  lemma {:induction false} WalkLaw(s: State, ts: int, price: real, budget: nat)
    requires Sized(s.size, s.grid)
    ensures Walks(BricksOf(s, ts, Closes(s.lastClose, price, s.size, s.grid, budget)), price, s.size, s.grid)
  {
    hide Closes, Sized, BrickAt, Rises, Drops;
    StepMoves(s.lastClose, s.size, s.grid);
    var cs := Closes(s.lastClose, price, s.size, s.grid, budget);
    var bs := BricksOf(s, ts, cs);
    forall i | 0 <= i < |cs|
      ensures s.lastClose - price < s.size ==> Rises(bs[i], price, s.size, s.grid)
      ensures price - s.lastClose < s.size ==> Drops(bs[i], price, s.size, s.grid)
    {
      BrickGoes(s, ts, price, budget, i);
    }
  }

  /** A tick on a size and a positive price walks: until less than a brick is left, or 1000 bricks are laid, or
      the consumer fails, which it does exactly when its room is used up before. */
  lemma {:induction false} BrickWalkLaw(s: State, o: Obs, room: nat)
    requires s.live && Sound(s) && Feed(s, o, room).next.size > 0.0 && o.price > 0.0
    ensures var f := Feed(s, o, room);
            var left := if o.price >= f.next.lastClose then o.price - f.next.lastClose else f.next.lastClose - o.price;
            && Walks(f.bricks, o.price, f.next.size, f.next.grid)
            && |f.bricks| <= 1000 && |f.bricks| <= room
            && (f.ok && |f.bricks| < 1000 ==> left < f.next.size)
            && (!f.ok <==> |f.bricks| == room < 1000 && left >= f.next.size)
  {
    hide Closes, Snap, Prepare, HighLow, Resize, HalfHour, Snapped, GridStepForBrick, Walks;
    PrepareSound(s, o);
    SizeKeptByBricks(s, o, room);
    var p := Widen(Prepare(s, o), o.price);
    WalkLaw(p, o.ts, o.price, Budget(room));
    TickSettles(p.lastClose, o.price, p.size, p.grid, Budget(room));
  }

  // ---- New multipliers and seeds ----

  /** A multiplier is raised to 0.05, a seed moves the anchor, empties the window and makes the engine live
      exactly when it is positive; nothing else changes. */
  lemma {:induction false} TuneAndSeedLaw(s: State, e: Event)
    ensures var n := Do(s, e).next;
            && (e.Tune? ==>
                 && n.config.multiplier == (if e.multiplier < 0.05 then 0.05 else e.multiplier)
                 && n == s.(config := s.config.(multiplier := n.config.multiplier)))
            && (e.Seed? ==>
                 n == s.(lastClose := e.last, high := NegInf, low := PosInf, live := n.live)
                 && (n.live <==> e.last > 0.0))
  {
    hide Feed;
  }

  // ---- Creation and microstructure ----

  /** Which configurations are accepted. */
  method Create(c: Config, ln: real -> real) returns (r: Option<RenkoGenerator>)
    ensures r.Some? <==> 0.001 <= c.multiplier <= 1_000_000.0 && c.minPct >= 0.0
    ensures r.Some? ==>
              && r.value.Valid()
              && r.value.Abstract() == State(c, 0.0, 0.0, -0x8000_0000_0000_0000, false, 0.0, NegInf, PosInf, 0, 0, 0)
  {
    hide Sound, BB.BarAccumulator.Valid;
    r := RenkoGenerator.New(c, ln);
  }

  /** A record whose bid and ask do not average above 0 is ignored. Any other joins the microstructure, and when
      its tick writes bricks the first one carries the bar of everything since the last attempt, the record
      included, the others nothing, and the next window starts empty. */
  method FeedRecord(g: RenkoGenerator, t: BB.Tick, sigma: real, room: nat)
    returns (bricks: seq<Brick>, micros: seq<Option<BB.Bar>>, ok: bool)
    requires g.Valid() && |g.acc.window| + 1 < 0x1_0000_0000
    modifies g, g.acc
    ensures g.Valid() && |micros| == |bricks|
    ensures t.bid + t.ask <= 0.0 ==> bricks == [] && ok && g.Abstract() == old(g.Abstract())
    ensures bricks != [] ==>
              && BB.Wrap32(|old(g.acc.window) + [t]|) > 0
              && micros[0] == Some(BB.BarOf(g.acc.ln, old(g.acc.window) + [t])) && g.acc.window == []
              && forall i :: 0 < i < |micros| ==> micros[i] == None
    ensures t.bid + t.ask > 0.0 && bricks == [] && ok ==> g.acc.window == old(g.acc.window) + [t]
  {
    ghost var w := g.acc.window + [t];
    BB.SmallWrap(|w|);
    assert BB.Mid(t) > 0.0 <==> t.bid + t.ask > 0.0;
    hide Sound, BB.BarAccumulator.Valid, BB.BarOf, Feed, BB.Mid;
    bricks, micros, ok := g.FeedIndexRecord(t, sigma, room);
  }
}
