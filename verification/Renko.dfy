/** The streaming renko engine: a brick is laid whenever the price moves a brick away from the last
    close. Prices are exact reals; volatility comes with each observation, and the consumer of the
    bricks accepts the first `room` of a tick and fails on the next one.
 */
module Renko {
  import opened Extended
  import opened Grid
  import opened Optional
  import opened RenkoWalk
  import BB = BarBuilder

  const K_FLOOR: real := 0.05
  const MS_PER_30MIN: int := 1_800_000
  const I64_MIN: int := -0x8000_0000_0000_0000

  datatype Config = Config(multiplier: real, minPct: real)

  predicate Validated(c: Config) { 0.001 <= c.multiplier <= 1000000.0 && c.minPct >= 0.0 }

  /** One observation: time in milliseconds, mid and volatility. */
  datatype Obs = Obs(ts: int, price: real, sigma: real)

  datatype Brick = Brick(openTs: int, closeTs: int, open: real, high: real, low: real, close: real,
                         ticks: nat, synthetic: bool)

  datatype State = State(config: Config, size: real, grid: real, period: int, live: bool, lastClose: real,
                         high: Ext, low: Ext, startTs: int, ticks: nat, nBars: nat)

  /** What one call leaves, the bricks it wrote, and whether every write was accepted. */
  datatype Outcome = Outcome(next: State, bricks: seq<Brick>, ok: bool)

  function Fresh(c: Config): State {
    State(c, 0.0, 0.0, I64_MIN, false, 0.0, NegInf, PosInf, 0, 0, 0)
  }

  /** What every state of a generator satisfies. */
  predicate Sound(s: State) {
    && s.grid >= 0.0
    && (s.size > 0.0 ==> Sized(s.size, s.grid))
    && (s.high.NegInf? <==> s.low.PosInf?) && !s.high.PosInf? && !s.low.NegInf?
    && s.ticks < BB.W32
  }

  // ---- One call, as a function of the state ----

  /** The half hour of a timestamp; division truncates towards zero. */
  function HalfHour(ts: int): int {
    if ts >= 0 then ts / MS_PER_30MIN else -(-ts / MS_PER_30MIN)
  }

  function Max(a: real, b: real): real { if a >= b then a else b }

  function Min(a: real, b: real): real { if a <= b then a else b }

  function RawBrick(c: Config, price: real, sigma: real): real {
    price * Max(c.multiplier * sigma, c.minPct)
  }

  /** A new size for the half hour; a multiplier below the floor switches the engine off. */
  function Resize(s: State, o: Obs): State {
    if s.config.multiplier < K_FLOOR then s.(size := 0.0, grid := 0.0)
    else
      var size := SnapTo25Grid(RawBrick(s.config, o.price, o.sigma));
      s.(size := size, grid := GridStepForBrick(size), period := HalfHour(o.ts))
  }

  function Start(s: State, o: Obs): State {
    var r := Resize(s, o);
    r.(lastClose := Snap(o.price, r.grid), high := Fin(o.price), low := Fin(o.price),
       startTs := o.ts, ticks := 1, live := true)
  }

  predicate Due(s: State, o: Obs) { HalfHour(o.ts) > s.period }

  /** The tick is counted and, once a half hour, the brick is resized and the anchor re-snapped. */
  function Prepare(s: State, o: Obs): State {
    var t := s.(ticks := BB.Wrap32(s.ticks + 1));
    if Due(s, o) then
      var r := Resize(t, o); r.(lastClose := Snap(t.lastClose, r.grid))
    else t
  }

  predicate Trades(s: State, o: Obs) { s.size > 0.0 && o.price > 0.0 }

  function Widen(s: State, price: real): State {
    s.(high := Raise(s.high, price), low := Lower(s.low, price))
  }

  /** High and low of a brick: its body, stretched by the prices seen when it is the tick's first. */
  function HighLow(high: Ext, low: Ext, open: real, close: real, first: bool): (real, real) {
    if first && high.Fin? && low.Fin?
    then (Max(Max(open, close), high.v), Min(Min(open, close), low.v))
    else (Max(open, close), Min(open, close))
  }

  function BrickAt(s: State, ts: int, cs: seq<real>, i: nat): Brick
    requires i < |cs|
  {
    var open := Prev(s.lastClose, cs, i);
    var (high, low) := HighLow(s.high, s.low, open, cs[i], i == 0);
    if i == 0 then Brick(s.startTs, ts, open, high, low, cs[i], s.ticks, false)
    else Brick(ts, ts, open, high, low, cs[i], 0, true)
  }

  function BricksOf(s: State, ts: int, cs: seq<real>): (bs: seq<Brick>)
    ensures |bs| == |cs| && forall i :: 0 <= i < |cs| ==> bs[i] == BrickAt(s, ts, cs, i)
  {
    seq(|cs|, i requires 0 <= i < |cs| => BrickAt(s, ts, cs, i))
  }

  /** The state once these closes are laid. */
  function Lay(s: State, ts: int, cs: seq<real>): State {
    if cs == [] then s
    else s.(lastClose := Anchor(s.lastClose, cs), high := NegInf, low := PosInf, startTs := ts, ticks := 0,
            nBars := s.nBars + |cs|)
  }

  function Budget(room: nat): nat { if room < MAX_BRICKS then room else MAX_BRICKS }

  function Emit(s: State, o: Obs, room: nat): Outcome {
    var cs := Closes(s.lastClose, o.price, s.size, s.grid, Budget(room));
    Outcome(Lay(s, o.ts, cs), BricksOf(s, o.ts, cs),
            |cs| == MAX_BRICKS || Abs(o.price - Anchor(s.lastClose, cs)) < s.size)
  }

  function Feed(s: State, o: Obs, room: nat): Outcome {
    if !s.live then Outcome(Start(s, o), [], true)
    else
      var p := Prepare(s, o);
      if Trades(p, o) then Emit(Widen(p, o.price), o, room) else Outcome(p, [], true)
  }

  function Retuned(s: State, multiplier: real): State {
    s.(config := s.config.(multiplier := Max(multiplier, K_FLOOR)))
  }

  function Seeded(s: State, last: real): State {
    s.(lastClose := last, high := NegInf, low := PosInf, live := last > 0.0)
  }

  // ---- The state stays sound ----

  lemma {:induction false} ResizeSound(s: State, o: Obs)
    requires Sound(s)
    ensures Sound(Resize(s, o))
  {
    var raw := RawBrick(s.config, o.price, o.sigma);
    if raw > 0.0 {
      Snap25Idempotent(raw);
    }
    hide RawBrick, Snap, Unit, Snapped, GridStepForBrick;
  }

  lemma {:induction false} PrepareSound(s: State, o: Obs)
    requires Sound(s)
    ensures Sound(Prepare(s, o))
  {
    var t := s.(ticks := BB.Wrap32(s.ticks + 1));
    ResizeSound(t, o);
    hide Resize, Snap, HalfHour, Sized;
  }

  lemma {:induction false} WidenSound(s: State, price: real)
    requires Sound(s)
    ensures Sound(Widen(s, price))
  {
    hide Sized;
  }

  lemma {:induction false} FeedSound(s: State, o: Obs, room: nat)
    requires Sound(s)
    ensures Sound(Feed(s, o, room).next)
  {
    ResizeSound(s, o);
    PrepareSound(s, o);
    hide Resize, Prepare, Snap, Sized, Closes, BricksOf, Anchor, Abs;
  }

  lemma {:induction false} BricksSnoc(s: State, ts: int, cs: seq<real>, c: real)
    ensures BricksOf(s, ts, cs + [c]) == BricksOf(s, ts, cs) + [BrickAt(s, ts, cs + [c], |cs|)]
  {
    forall i | 0 <= i < |cs|
      ensures BrickAt(s, ts, cs + [c], i) == BrickAt(s, ts, cs, i)
    {
      assert Prev(s.lastClose, cs + [c], i) == Prev(s.lastClose, cs, i);
    }
    hide BrickAt;
  }

  /** The walk that has laid `cs` goes on with `close`. */
  predicate Next(cs: seq<real>, last: real, price: real, size: real, grid: real, budget: nat, close: real) {
    |cs| < budget ==>
      cs + Closes(last, price, size, grid, budget - |cs|)
      == (cs + [close]) + Closes(close, price, size, grid, budget - |cs + [close]|)
  }

  lemma {:induction false} UpStep(cs: seq<real>, last: real, price: real, size: real, grid: real, budget: nat)
    requires price - last >= size
    ensures Next(cs, last, price, size, grid, budget, Snap(last + size, grid))
  {
    hide Snap;
    assert |cs + [Snap(last + size, grid)]| == |cs| + 1;
  }

  lemma {:induction false} DownStep(cs: seq<real>, last: real, price: real, size: real, grid: real, budget: nat)
    requires price - last < size && last - price >= size
    ensures Next(cs, last, price, size, grid, budget, Snap(last - size, grid))
  {
    hide Snap;
    assert |cs + [Snap(last - size, grid)]| == |cs| + 1;
  }

  lemma {:induction false} Spent(last: real, price: real, size: real, grid: real)
    ensures Closes(last, price, size, grid, 0) == []
    ensures Abs(price - last) < size ==> forall n: nat :: Closes(last, price, size, grid, n) == []
  {
  }

  lemma {:induction false} MicrosSnoc(ln: real -> real, w: BB.Window, before: BB.Window, after: BB.Window,
                                      ms: seq<Option<BB.Bar>>, m: Option<BB.Bar>)
    requires MicrosOk(ln, w, before, ms, ms != [])
    requires after == Left(before) && m == Flushed(ln, before)
    ensures MicrosOk(ln, w, after, ms + [m], true)
    ensures MicrosOk(ln, w, after, ms, true)
  {
    hide BB.BarOf, BB.Wrap32;
    BB.SmallWrap(0);
  }

  // ---- The generator ----

  /** What the microstructure accumulator gives for its window, and what it keeps of it: nothing and
      everything when its 32-bit tick counter reads zero. */
  function Flushed(ln: real -> real, w: BB.Window): Option<BB.Bar> {
    if BB.Wrap32(|w|) == 0 then None else Some(BB.BarOf(ln, w))
  }

  function Left(w: BB.Window): BB.Window { if BB.Wrap32(|w|) == 0 then w else [] }

  /** The first brick of a call carries the microstructure of everything ingested since the last
      attempt to write one, and the others none. */
  ghost predicate MicrosOk(ln: real -> real, before: BB.Window, after: BB.Window,
                           ms: seq<Option<BB.Bar>>, attempted: bool) {
    && after == (if attempted then Left(before) else before)
    && (ms != [] ==> attempted && ms[0] == Flushed(ln, before))
    && (forall i :: 0 < i < |ms| ==> ms[i] == None)
  }

  class RenkoGenerator {
    var config: Config
    var currentBrickSize: real
    var currentGridStep: real
    var lastRecomputePeriod: int
    var initialized: bool
    var lastClose: real
    var pendingHigh: Ext
    var pendingLow: Ext
    var barStartTs: int
    var tickCount: nat
    var nBars: nat
    const acc: BB.BarAccumulator

    ghost function Abstract(): State
      reads this
    {
      State(config, currentBrickSize, currentGridStep, lastRecomputePeriod, initialized, lastClose,
            pendingHigh, pendingLow, barStartTs, tickCount, nBars)
    }

    ghost predicate Valid()
      reads this, acc
    {
      Sound(Abstract()) && acc.Valid()
    }

    constructor (c: Config, ln: real -> real)
      requires Validated(c)
      ensures Valid() && fresh(acc) && Abstract() == Fresh(c) && acc.window == [] && acc.ln == ln
    {
      config := c;
      currentBrickSize, currentGridStep, lastRecomputePeriod := 0.0, 0.0, I64_MIN;
      initialized, lastClose := false, 0.0;
      pendingHigh, pendingLow := NegInf, PosInf;
      barStartTs, tickCount, nBars := 0, 0, 0;
      acc := new BB.BarAccumulator(ln);
    }

    /** A generator for a configuration inside its bounds, nothing for any other. */
    static method New(c: Config, ln: real -> real) returns (r: Option<RenkoGenerator>)
      ensures r.Some? <==> Validated(c)
      ensures r.Some? ==> fresh(r.value) && fresh(r.value.acc) && r.value.Valid() && r.value.Abstract() == Fresh(c)
    {
      hide BB.BarAccumulator.Valid;
      if !Validated(c) {
        return None;
      }
      var g := new RenkoGenerator(c, ln);
      return Some(g);
    }

    method ComputeBrickSize(o: Obs)
      modifies this`currentBrickSize, this`currentGridStep, this`lastRecomputePeriod
      ensures Abstract() == Resize(old(Abstract()), o)
    {
      hide RawBrick, SnapTo25Grid, GridStepForBrick, HalfHour;
      if config.multiplier < K_FLOOR {
        currentBrickSize, currentGridStep := 0.0, 0.0;
      } else {
        currentBrickSize := SnapTo25Grid(RawBrick(config, o.price, o.sigma));
        currentGridStep := GridStepForBrick(currentBrickSize);
        lastRecomputePeriod := HalfHour(o.ts);
      }
    }

    /** Hand one brick to the consumer, which takes it when it has room. */
    method EmitBar(openTs: int, closeTs: int, open: real, high: real, low: real, close: real,
                   ticks: nat, first: bool, room: nat)
      returns (b: Brick, micro: Option<BB.Bar>, ok: bool)
      requires acc.Valid()
      modifies this`nBars, acc
      ensures acc.Valid()
      ensures ok <==> room > 0
      ensures nBars == old(nBars) + if ok then 1 else 0
      ensures b == Brick(openTs, closeTs, open, high, low, close, ticks, !first)
      ensures acc.window == Left(old(acc.window)) && micro == Flushed(acc.ln, old(acc.window))
    {
      hide BB.BarAccumulator.Valid, BB.BarOf, BB.Wrap32;
      acc.WindowCounted();
      micro := None;
      if acc.tickCount > 0 {
        micro := acc.Flush();
      }
      b := Brick(openTs, closeTs, open, high, low, close, ticks, !first);
      ok := room > 0;
      if ok {
        nBars := nBars + 1;
      }
    }

    method InitTick(o: Obs)
      modifies this
      ensures Abstract() == Start(old(Abstract()), o)
    {
      ComputeBrickSize(o);
      hide Resize, Snap;
      lastClose := Snap(o.price, currentGridStep);
      pendingHigh, pendingLow := Fin(o.price), Fin(o.price);
      barStartTs := o.ts;
      tickCount := 1;
      initialized := true;
    }

    method CountTick(o: Obs)
      modifies this
      ensures Abstract() == Prepare(old(Abstract()), o)
    {
      hide Resize, Snap, HalfHour, BB.Wrap32;
      tickCount := BB.Wrap32(tickCount + 1);
      var currentHalfHour := HalfHour(o.ts);
      if currentHalfHour > lastRecomputePeriod {
        ComputeBrickSize(o);
        lastClose := Snap(lastClose, currentGridStep);
      }
    }

    /** One brick of a tick whose earlier closes are `cs`: nothing but the microstructure window
        changes when the consumer fails. */
    method LayBrick(ts: int, close: real, first: bool, room: nat, ghost base: State, ghost cs: seq<real>)
      returns (b: Brick, micro: Option<BB.Bar>, ok: bool)
      requires acc.Valid() && Abstract() == Lay(base, ts, cs) && (first <==> cs == [])
      modifies this, acc
      ensures acc.Valid() && (ok <==> room > 0)
      ensures if ok then Abstract() == Lay(base, ts, cs + [close]) && b == BrickAt(base, ts, cs + [close], |cs|)
              else Abstract() == old(Abstract())
      ensures acc.window == Left(old(acc.window)) && micro == Flushed(acc.ln, old(acc.window))
    {
      hide Flushed, BB.BarAccumulator.Valid;
      var (high, low) := HighLow(pendingHigh, pendingLow, lastClose, close, first);
      b, micro, ok := EmitBar(barStartTs, ts, lastClose, high, low, close, if first then tickCount else 0, first, room);
      if ok {
        lastClose := close;
        pendingHigh, pendingLow := NegInf, PosInf;
        barStartTs := ts;
        tickCount := 0;
      }
    }

    /** Part of a tick done: the closes `cs` are laid, the rest of the walk starts from the anchor. */
    ghost predicate Laying(base: State, o: Obs, room: nat, cs: seq<real>, bricks: seq<Brick>,
                           micros: seq<Option<BB.Bar>>, w: BB.Window)
      reads this, acc
    {
      && acc.Valid() && Sized(base.size, base.grid)
      && Abstract() == Lay(base, o.ts, cs) && bricks == BricksOf(base, o.ts, cs)
      && |micros| == |bricks| == |cs| <= Budget(room)
      && Closes(base.lastClose, o.price, base.size, base.grid, Budget(room))
         == cs + Closes(lastClose, o.price, base.size, base.grid, Budget(room) - |cs|)
      && MicrosOk(acc.ln, w, acc.window, micros, micros != [])
    }

    /** The call did what `Emit` says. */
    ghost predicate Ended(base: State, o: Obs, room: nat, bricks: seq<Brick>, micros: seq<Option<BB.Bar>>,
                          w: BB.Window, ok: bool)
      reads this, acc
    {
      && acc.Valid() && Outcome(Abstract(), bricks, ok) == Emit(base, o, room)
      && |micros| == |bricks| && MicrosOk(acc.ln, w, acc.window, micros, bricks != [] || !ok)
    }

    lemma {:induction false} Finish(base: State, o: Obs, room: nat, cs: seq<real>, bricks: seq<Brick>,
                                    micros: seq<Option<BB.Bar>>, w: BB.Window)
      requires Laying(base, o, room, cs, bricks, micros, w)
      requires Abs(o.price - lastClose) < base.size || |cs| == MAX_BRICKS
      ensures Ended(base, o, room, bricks, micros, w, true)
    {
      Spent(lastClose, o.price, base.size, base.grid);
      hide Closes, Sized, MicrosOk, BB.BarAccumulator.Valid, BricksOf;
      assert cs + [] == cs;
    }

    /** Lay the next brick of the walk, or end the call when the consumer fails. */
    method LayNext(o: Obs, close: real, first: bool, room: nat, bricks: seq<Brick>, micros: seq<Option<BB.Bar>>,
                   ghost base: State, ghost cs: seq<real>, ghost w: BB.Window)
      returns (bricks': seq<Brick>, micros': seq<Option<BB.Bar>>, ok: bool)
      requires Laying(base, o, room, cs, bricks, micros, w) && (first <==> cs == []) && |cs| < MAX_BRICKS
      requires Abs(o.price - lastClose) >= base.size
      requires Next(cs, lastClose, o.price, base.size, base.grid, Budget(room), close)
      modifies this, acc
      ensures ok ==> Laying(base, o, room, cs + [close], bricks', micros', w) && lastClose == close
      ensures !ok ==> Ended(base, o, room, bricks', micros', w, false)
    {
      Spent(lastClose, o.price, base.size, base.grid);
      BricksSnoc(base, o.ts, cs, close);
      hide BB.BarAccumulator.Valid, Sized, BrickAt, BricksOf, MicrosOk, Flushed, Closes, Abs;
      assert cs + [] == cs;
      bricks', micros' := bricks, micros;
      var b, m;
      b, m, ok := LayBrick(o.ts, close, first, room - |bricks|, base, cs);
      MicrosSnoc(acc.ln, w, old(acc.window), acc.window, micros, m);
      if ok {
        bricks', micros' := bricks + [b], micros + [m];
      }
    }

    lemma {:induction false} LayingFacts(base: State, o: Obs, room: nat, cs: seq<real>, bricks: seq<Brick>,
                                         micros: seq<Option<BB.Bar>>, w: BB.Window)
      requires Laying(base, o, room, cs, bricks, micros, w)
      ensures Sized(base.size, base.grid) && |cs| == |bricks| <= MAX_BRICKS
      ensures currentBrickSize == base.size && currentGridStep == base.grid
    {
      hide Closes, Sized, MicrosOk, BB.BarAccumulator.Valid, BricksOf;
    }

    /** The upward loop. */
    method Climb(o: Obs, room: nat, ghost base: State, ghost w: BB.Window)
      returns (bricks: seq<Brick>, micros: seq<Option<BB.Bar>>, ok: bool, ghost cs: seq<real>)
      requires Laying(base, o, room, [], [], [], w)
      modifies this, acc
      ensures !ok ==> Ended(base, o, room, bricks, micros, w, false)
      ensures ok ==> Laying(base, o, room, cs, bricks, micros, w) && |cs| == |bricks|
      ensures ok ==> (cs != [] ==> lastClose - o.price < base.size)
                     && (o.price - lastClose < base.size || |cs| == MAX_BRICKS)
    {
      hide Laying, Ended, Sized, Snap, Next, Budget;
      bricks, micros, ok, cs := [], [], true, [];
      LayingFacts(base, o, room, cs, bricks, micros, w);
      var sz, grid, price := currentBrickSize, currentGridStep, o.price;
      var bricksThisTick := 0;
      var first := true;
      while price - lastClose >= sz
        invariant Laying(base, o, room, cs, bricks, micros, w) && |cs| == |bricks| == bricksThisTick <= MAX_BRICKS
        invariant (first <==> cs == []) && (cs != [] ==> lastClose - price < sz)
        decreases MAX_BRICKS - bricksThisTick
      {
        StepMoves(lastClose, sz, grid);
        var close := Snap(lastClose + sz, grid);
        if close <= lastClose || bricksThisTick >= MAX_BRICKS {
          break;
        }
        bricksThisTick := bricksThisTick + 1;
        UpStep(cs, lastClose, price, sz, grid, Budget(room));
        bricks, micros, ok := LayNext(o, close, first, room, bricks, micros, base, cs, w);
        if !ok {
          return;
        }
        cs := cs + [close];
        LayingFacts(base, o, room, cs, bricks, micros, w);
        first := false;
      }
    }

    /** The downward loop. */
    method Fall(o: Obs, room: nat, bricks: seq<Brick>, micros: seq<Option<BB.Bar>>,
                ghost cs: seq<real>, ghost base: State, ghost w: BB.Window)
      returns (bricks': seq<Brick>, micros': seq<Option<BB.Bar>>, ok: bool)
      requires Laying(base, o, room, cs, bricks, micros, w)
      requires cs != [] ==> lastClose - o.price < base.size
      requires o.price - lastClose < base.size || |cs| == MAX_BRICKS
      modifies this, acc
      ensures Ended(base, o, room, bricks', micros', w, ok)
    {
      hide Laying, Ended, Sized, Snap, Next, Budget;
      bricks', micros', ok := bricks, micros, true;
      LayingFacts(base, o, room, cs, bricks, micros, w);
      ghost var cs' := cs;
      var sz, grid, price := currentBrickSize, currentGridStep, o.price;
      var bricksThisTick := |bricks|;
      var first := true;
      while lastClose - price >= sz
        invariant Laying(base, o, room, cs', bricks', micros', w) && |cs'| == |bricks'| == bricksThisTick <= MAX_BRICKS
        invariant lastClose - price >= sz ==> (first <==> cs' == [])
        invariant price - lastClose < sz || |cs'| == MAX_BRICKS
        decreases MAX_BRICKS - bricksThisTick
      {
        StepMoves(lastClose, sz, grid);
        var close := Snap(lastClose - sz, grid);
        if close >= lastClose || bricksThisTick >= MAX_BRICKS {
          break;
        }
        bricksThisTick := bricksThisTick + 1;
        DownStep(cs', lastClose, price, sz, grid, Budget(room));
        bricks', micros', ok := LayNext(o, close, first, room, bricks', micros', base, cs', w);
        if !ok {
          return;
        }
        cs' := cs' + [close];
        LayingFacts(base, o, room, cs', bricks', micros', w);
        first := false;
      }
      Finish(base, o, room, cs', bricks', micros', w);
    }

    /** Bricks up, then bricks down. */
    method LayBricks(o: Obs, room: nat)
      returns (bricks: seq<Brick>, micros: seq<Option<BB.Bar>>, ok: bool)
      requires Valid() && Trades(Abstract(), o)
      modifies this, acc
      ensures Ended(old(Abstract()), o, room, bricks, micros, old(acc.window), ok)
    {
      hide BB.BarAccumulator.Valid, Ended, Sized, BrickAt, Closes, Flushed;
      ghost var base, w := Abstract(), acc.window;
      assert BricksOf(base, o.ts, []) == [];
      assert Laying(base, o, room, [], [], [], w);
      hide Laying, BricksOf, MicrosOk;
      ghost var cs;
      bricks, micros, ok, cs := Climb(o, room, base, w);
      if ok {
        bricks, micros, ok := Fall(o, room, bricks, micros, cs, base, w);
      }
    }

    /** Feed one tick with an explicit volatility. */
    method FeedTickWithSigma(o: Obs, room: nat)
      returns (bricks: seq<Brick>, micros: seq<Option<BB.Bar>>, ok: bool)
      requires Valid()
      modifies this, acc
      ensures Valid()
      ensures Outcome(Abstract(), bricks, ok) == Feed(old(Abstract()), o, room)
      ensures |micros| == |bricks|
      ensures MicrosOk(acc.ln, old(acc.window), acc.window, micros, bricks != [] || !ok)
    {
      hide BB.BarAccumulator.Valid, Sound, Prepare, Start, Emit, Flushed;
      FeedSound(Abstract(), o, room);
      bricks, micros, ok := [], [], true;
      if !initialized {
        InitTick(o);
        return;
      }
      CountTick(o);
      ghost var p := Abstract();
      PrepareSound(old(Abstract()), o);
      if currentBrickSize <= 0.0 || o.price <= 0.0 {
        return;
      }
      WidenSound(p, o.price);
      pendingHigh, pendingLow := Raise(pendingHigh, o.price), Lower(pendingLow, o.price);
      bricks, micros, ok := LayBricks(o, room);
    }

    /** Feed one index record: into the microstructure first, then as a tick; records without a
        positive mid are ignored. */
    method FeedIndexRecord(t: BB.Tick, sigma: real, room: nat)
      returns (bricks: seq<Brick>, micros: seq<Option<BB.Bar>>, ok: bool)
      requires Valid()
      modifies this, acc
      ensures Valid()
      ensures BB.Mid(t) <= 0.0 ==> Abstract() == old(Abstract()) && acc.window == old(acc.window)
                                   && bricks == [] && micros == [] && ok
      ensures BB.Mid(t) > 0.0 ==>
                && Outcome(Abstract(), bricks, ok) == Feed(old(Abstract()), Obs(t.ms, BB.Mid(t), sigma), room)
                && |micros| == |bricks|
                && MicrosOk(acc.ln, old(acc.window) + [t], acc.window, micros, bricks != [] || !ok)
    {
      hide BB.BarAccumulator.Valid, BB.Mid, Sound, Feed, MicrosOk;
      var mid := BB.Mid(t);
      if !(mid > 0.0) {
        return [], [], true;
      }
      acc.Ingest(t);
      bricks, micros, ok := FeedTickWithSigma(Obs(t.ms, mid, sigma), room);
    }

    /** A new multiplier takes effect at the next resize. */
    method SetMultiplier(multiplier: real)
      requires Valid()
      modifies this`config
      ensures Valid() && Abstract() == Retuned(old(Abstract()), multiplier)
    {
      hide BB.BarAccumulator.Valid, Sized;
      config := config.(multiplier := Max(multiplier, K_FLOOR));
    }

    /** Prime the anchor after a warm restart. */
    method SeedLastClose(last: real)
      requires Valid()
      modifies this`lastClose, this`pendingHigh, this`pendingLow, this`initialized
      ensures Valid() && Abstract() == Seeded(old(Abstract()), last)
    {
      hide BB.BarAccumulator.Valid, Sized;
      lastClose := last;
      pendingHigh, pendingLow := NegInf, PosInf;
      initialized := last > 0.0;
    }
  }
}
