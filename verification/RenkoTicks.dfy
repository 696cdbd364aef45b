/** What one tick of the renko engine lays, from any reachable state, and where the engine's promises
    stop.
 */
module RenkoTicks {
  import opened Extended
  import opened Grid
  import opened RenkoWalk
  import opened Renko
  import opened RenkoRuns
  import BB = BarBuilder

  /** A body that moves strictly up (down) by the size, give or take half a grid step. */
  predicate Rises(b: Brick, size: real, grid: real) {
    b.close > b.open && Abs(b.close - b.open - size) <= grid / 2.0
  }

  predicate Drops(b: Brick, size: real, grid: real) {
    b.close < b.open && Abs(b.open - b.close - size) <= grid / 2.0
  }

  predicate Stretched(b: Brick) {
    b.low <= b.open <= b.high && b.low <= b.close <= b.high
  }

  /** What a tick that finds the brick of `p` lays: bricks in one direction, at most 1000 and at most the
      room, each strictly and of the size within half a grid step. A tick whose writes all succeed ends
      less than a brick from the price unless it reached the cap, and one fails exactly when the room
      runs out before. */
  predicate Settles(p: State, price: real, room: nat, f: Outcome) {
    && |f.bricks| <= Budget(room)
    && (price >= p.lastClose ==> forall i :: 0 <= i < |f.bricks| ==> Rises(f.bricks[i], p.size, p.grid))
    && (price <= p.lastClose ==> forall i :: 0 <= i < |f.bricks| ==> Drops(f.bricks[i], p.size, p.grid))
    && (f.ok && |f.bricks| < MAX_BRICKS ==> Abs(price - f.next.lastClose) < p.size)
    && (!f.ok <==> |f.bricks| == room < MAX_BRICKS && Abs(price - f.next.lastClose) >= p.size)
  }

  lemma {:induction false} TickLays(s: State, o: Obs, room: nat)
    requires Sound(s) && s.live && Trades(Prepare(s, o), o)
    ensures Settles(Prepare(s, o), o.price, room, Feed(s, o, room))
  {
    hide Closes, Snap, Snapped, GridStepForBrick, HighLow, Prepare, Abs, Raise, Lower;
    PrepareSound(s, o);
    var p := Prepare(s, o);
    TickSettles(p.lastClose, o.price, p.size, p.grid, Budget(room));
  }

  /** So does every tick of every run of a generator: after any ticks, new multipliers and seeds, and
      whatever writes failed on the way. */
  lemma {:induction false} EveryTickLays(c: Config, es: Run, o: Obs, room: nat)
    requires After(Fresh(c), es).live && Trades(Prepare(After(Fresh(c), es), o), o)
    ensures Settles(Prepare(After(Fresh(c), es), o), o.price, room, Feed(After(Fresh(c), es), o, room))
  {
    hide After, Settles, Feed, Prepare, Trades;
    FreshSound(c);
    RunSound(Fresh(c), es);
    TickLays(After(Fresh(c), es), o, room);
  }

  lemma {:induction false} FreshSound(c: Config)
    ensures Sound(Fresh(c))
  {
  }

  /** A tick before the first brick size, or without a positive price, lays nothing. */
  lemma {:induction false} IdleTick(s: State, o: Obs, room: nat)
    requires !(s.live && Trades(Prepare(s, o), o))
    ensures Feed(s, o, room).bricks == [] && Feed(s, o, room).ok
    ensures s.config.multiplier < K_FLOOR && (!s.live || Due(s, o)) ==> Feed(s, o, room).next.size == 0.0
  {
    hide Emit, Snap, SnapTo25Grid, GridStepForBrick, RawBrick, HalfHour, BB.Wrap32;
  }

  /** The wick never cuts into the body. */
  lemma {:induction false} BricksStretched(s: State, o: Obs, room: nat, i: nat)
    requires i < |Feed(s, o, room).bricks|
    ensures Stretched(Feed(s, o, room).bricks[i])
  {
    hide Closes, Snap, Anchor, Abs, Prepare, Raise, Lower, Prev;
  }

  // ---- On the grid ----

  /** The anchor lies on the grid of the current size. */
  predicate Gridded(s: State) {
    s.lastClose >= 0.0 && (s.size > 0.0 ==> s.grid > 0.0 && OnGrid(s.lastClose, s.grid))
  }

  predicate Priced(e: Event) { (e.Tick? && e.o.price > 0.0) || e.Tune? }

  lemma {:induction false} SnapNonNegative(x: real, step: real)
    requires x >= 0.0
    ensures Snap(x, step) >= 0.0
  {
    if step > 0.0 {
      assert At(0, step) == 0.0;
      SnapAt(0, step);
      hide Snap;
      SnapMonotone(0.0, x, step);
    }
  }

  lemma {:induction false} AnchorGridded(last: real, price: real, size: real, grid: real, budget: nat)
    requires Sized(size, grid) && OnGrid(last, grid) && last >= 0.0 && price > 0.0
    ensures OnGrid(Anchor(last, Closes(last, price, size, grid, budget)), grid)
    ensures Anchor(last, Closes(last, price, size, grid, budget)) >= 0.0
    decreases budget
  {
    hide Snap, Snapped, GridStepForBrick, Anchor;
    assert Anchor(last, []) == last by { EmptyAnchor(last); }
    StepMoves(last, size, grid);
    if budget > 0 && price - last >= size {
      SnapOnGrid(last + size, grid);
      SnapNonNegative(last + size, grid);
      var c := Snap(last + size, grid);
      AnchorGridded(c, price, size, grid, budget - 1);
      AnchorCons(last, c, Closes(c, price, size, grid, budget - 1));
    } else if budget > 0 && last - price >= size {
      SnapOnGrid(last - size, grid);
      SnapNonNegative(last - size, grid);
      var c := Snap(last - size, grid);
      AnchorGridded(c, price, size, grid, budget - 1);
      AnchorCons(last, c, Closes(c, price, size, grid, budget - 1));
    }
  }

  lemma {:induction false} EmptyAnchor(last: real)
    ensures Anchor(last, []) == last
  {
  }

  lemma {:induction false} PrepareGridded(s: State, o: Obs)
    requires Sound(s) && Gridded(s)
    ensures Gridded(Prepare(s, o))
  {
    hide Snap, Sized, Resize, HalfHour;
    var t := s.(ticks := BB.Wrap32(s.ticks + 1));
    ResizeSound(t, o);
    SizedGrid(Resize(t, o));
    SnapNonNegative(s.lastClose, Resize(t, o).grid);
    if Due(s, o) && Resize(t, o).size > 0.0 {
      SnapOnGrid(s.lastClose, Resize(t, o).grid);
      ResizeKeepsAnchor(t, o);
    }
    ResizeKeepsAnchor(t, o);
  }

  lemma {:induction false} ResizeKeepsAnchor(s: State, o: Obs)
    ensures Resize(s, o).lastClose == s.lastClose
  {
  }

  lemma {:induction false} SizedGrid(s: State)
    requires Sound(s)
    ensures s.size > 0.0 ==> s.grid > 0.0
  {
    hide Snapped, Unit;
  }

  lemma {:induction false} StartGridded(s: State, o: Obs)
    requires Sound(s) && o.price > 0.0
    ensures Gridded(Start(s, o))
  {
    hide Snap, Sized, Resize;
    ResizeSound(s, o);
    SizedGrid(Resize(s, o));
    SnapNonNegative(o.price, Resize(s, o).grid);
    if Resize(s, o).size > 0.0 {
      SnapOnGrid(o.price, Resize(s, o).grid);
    }
  }

  lemma {:induction false} EventGridded(s: State, e: Event)
    requires Sound(s) && Gridded(s) && Priced(e)
    ensures Gridded(Do(s, e).next)
  {
    hide OnGrid, Sized, Closes, Prepare, Start, Abs, Anchor;
    if e.Tick? {
      var o := e.o;
      StartGridded(s, o);
      PrepareGridded(s, o);
      PrepareSound(s, o);
      var p := Prepare(s, o);
      if p.size > 0.0 {
        AnchorGridded(p.lastClose, o.price, p.size, p.grid, Budget(e.room));
        EmptyAnchor(p.lastClose);
      }
    }
  }

  /** In every run without seeds, on positive prices, the anchor stays on the grid. */
  lemma {:induction false} RunGridded(c: Config, es: Run)
    requires forall i :: 0 <= i < |es| ==> Priced(es[i])
    ensures Sound(After(Fresh(c), es)) && Gridded(After(Fresh(c), es))
  {
    hide Do, Sound, Gridded;
    if es == [] {
      FreshGridded(c);
    } else {
      var n := |es| - 1;
      RunGridded(c, es[..n]);
      EventGridded(After(Fresh(c), es[..n]), es[n]);
      DoSound(After(Fresh(c), es[..n]), es[n]);
    }
  }

  lemma {:induction false} FreshGridded(c: Config)
    ensures Sound(Fresh(c)) && Gridded(Fresh(c))
  {
  }

  function Lesser(a: int, b: nat): int { if a < b then a else b }

  /** From such a state the number of bricks and every body are exact: the size when it lies on its
      grid (and then the count is the move divided by it), otherwise half a step more going up and
      half a step less going down. */
  lemma {:induction false} TickCounts(s: State, o: Obs, room: nat)
    requires Sound(s) && Gridded(s) && s.live && Trades(Prepare(s, o), o)
    ensures var bs, p := Feed(s, o, room).bricks, Prepare(s, o);
            var up, down := RenkoWalk.Body(p.size, p.grid, true), RenkoWalk.Body(p.size, p.grid, false);
            && p.grid > 0.0 && up > 0.0 && down > 0.0
            && (o.price >= p.lastClose ==>
                 && |bs| == Lesser(Paid(o.price - p.lastClose, p.size, up), Budget(room))
                 && forall i :: 0 <= i < |bs| ==> bs[i].close == bs[i].open + up)
            && (o.price <= p.lastClose ==>
                 && |bs| == Lesser(Paid(p.lastClose - o.price, p.size, down), Budget(room))
                 && forall i :: 0 <= i < |bs| ==> bs[i].close == bs[i].open - down)
            && (OnGrid(p.size, p.grid) ==>
                 |bs| == Lesser(Ratio(Abs(o.price - p.lastClose), p.size).Floor, Budget(room)))
  {
    hide Closes, Snap, Snapped, GridStepForBrick, HighLow, Prepare, Abs, Raise, Lower, RenkoWalk.Body, Paid, Ratio;
    PrepareSound(s, o);
    PrepareGridded(s, o);
    var p := Prepare(s, o);
    BodyExact(p.lastClose, p.size, p.grid);
    if o.price >= p.lastClose {
      ClimbsExactly(p.lastClose, o.price, p.size, p.grid, Budget(room));
    }
    if o.price <= p.lastClose {
      FallsExactly(p.lastClose, o.price, p.size, p.grid, Budget(room));
    }
    if OnGrid(p.size, p.grid) {
      WholeBricks(p.lastClose, o.price, p.size, p.grid, Budget(room));
    }
  }
}
