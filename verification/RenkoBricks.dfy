/** What one brick of a renko run says: its opening price, its wick and its body. */
module RenkoBricks {
  import opened Extended
  import opened Grid
  import opened RenkoWalk
  import opened Renko
  import opened RenkoRuns
  import BB = BarBuilder

  // ---- Opening prices ----

  /** What moves the anchor: a re-snap to a new grid, a jump (the first tick or a seed), a brick. */
  datatype Mark = Regrid(step: real) | Jump(to: real) | Body(open: real, close: real)

  function Bodies(bs: seq<Brick>): (ms: seq<Mark>)
    ensures |ms| == |bs| && forall i :: 0 <= i < |bs| ==> ms[i] == Body(bs[i].open, bs[i].close)
  {
    seq(|bs|, i requires 0 <= i < |bs| => Body(bs[i].open, bs[i].close))
  }

  function Marks(s: State, e: Event): seq<Mark> {
    match e
    case Tick(o, room) =>
      if !s.live then [Jump(Snap(o.price, Resize(s, o).grid))]
      else (if Due(s, o) then [Regrid(Prepare(s, o).grid)] else []) + Bodies(Feed(s, o, room).bricks)
    case Tune(_) => []
    case Seed(last) => [Jump(last)]
  }

  function Log(s: State, es: Run): seq<Mark> {
    if es == [] then []
    else Log(s, es[..|es| - 1]) + Marks(After(s, es[..|es| - 1]), es[|es| - 1])
  }

  /** Where the anchor `p` is after the marks. */
  function Land(p: real, ms: seq<Mark>): real {
    if ms == [] then p
    else
      match ms[|ms| - 1]
      case Regrid(step) => Snap(Land(p, ms[..|ms| - 1]), step)
      case Jump(to) => to
      case Body(_, close) => close
  }

  /** Every brick opens exactly where the marks before it leave the anchor. */
  predicate OpensThere(p: real, ms: seq<Mark>) {
    forall i :: 0 <= i < |ms| && ms[i].Body? ==> ms[i].open == Land(p, ms[..i])
  }

  lemma {:induction false} LandAppend(p: real, a: seq<Mark>, b: seq<Mark>)
    ensures Land(p, a + b) == Land(Land(p, a), b)
  {
    hide Snap;
    if b == [] {
      assert a + b == a;
    } else {
      LandAppend(p, a, b[..|b| - 1]);
      assert (a + b)[..|a + b| - 1] == a + b[..|b| - 1];
    }
  }

  lemma {:induction false} OpensAppend(p: real, a: seq<Mark>, b: seq<Mark>)
    requires OpensThere(p, a) && OpensThere(Land(p, a), b)
    ensures OpensThere(p, a + b)
  {
    hide Land;
    var ab := a + b;
    forall i | 0 <= i < |ab| && ab[i].Body?
      ensures ab[i].open == Land(p, ab[..i])
    {
      if i < |a| {
        assert ab[..i] == a[..i];
      } else {
        var j := i - |a|;
        assert ab[i] == b[j] && ab[..i] == a + b[..j];
        LandAppend(p, a, b[..j]);
      }
    }
  }

  lemma {:induction false} WalkOpens(s: State, ts: int, cs: seq<real>)
    ensures var ms := Bodies(BricksOf(s, ts, cs));
            OpensThere(s.lastClose, ms) && Land(s.lastClose, ms) == Anchor(s.lastClose, cs)
  {
    hide HighLow, Snap;
    var ms := Bodies(BricksOf(s, ts, cs));
    forall i | 0 <= i < |ms|
      ensures ms[i].open == Land(s.lastClose, ms[..i])
    {
    }
  }

  lemma {:induction false} NoMarks(p: real)
    ensures OpensThere(p, []) && Land(p, []) == p && Bodies([]) == []
  {
  }

  lemma {:induction false} OneMark(p: real, m: Mark)
    requires !m.Body?
    ensures OpensThere(p, [m])
    ensures Land(p, [m]) == if m.Regrid? then Snap(p, m.step) else m.to
  {
    hide Snap;
    assert [m][..0] == [];
  }

  /** A live tick: a possible re-snap, then its bricks. */
  lemma {:induction false} TickOpens(s: State, o: Obs, room: nat)
    requires s.live
    ensures OpensThere(s.lastClose, Marks(s, Tick(o, room)))
    ensures Land(s.lastClose, Marks(s, Tick(o, room))) == Feed(s, o, room).next.lastClose
  {
    hide Closes, BricksOf, Anchor, Snap, Prepare, Due, OpensThere, Land, Bodies, Abs;
    var p := Prepare(s, o);
    var head := if Due(s, o) then [Regrid(p.grid)] else [];
    PrepareKeeps(s, o);
    NoMarks(s.lastClose);
    OneMark(s.lastClose, Regrid(p.grid));
    assert Land(s.lastClose, head) == p.lastClose && OpensThere(s.lastClose, head);
    NoMarks(p.lastClose);
    var w := Widen(p, o.price);
    WalkOpens(w, o.ts, Closes(w.lastClose, o.price, w.size, w.grid, Budget(room)));
    var tail := Bodies(Feed(s, o, room).bricks);
    assert Land(p.lastClose, tail) == Feed(s, o, room).next.lastClose && OpensThere(p.lastClose, tail);
    LandAppend(s.lastClose, head, tail);
    OpensAppend(s.lastClose, head, tail);
  }

  lemma {:induction false} EventOpens(s: State, e: Event)
    ensures OpensThere(s.lastClose, Marks(s, e))
    ensures Land(s.lastClose, Marks(s, e)) == Do(s, e).next.lastClose
  {
    hide OpensThere, Land, Snap, Prepare, Resize, Emit;
    if e.Tick? && s.live {
      hide Marks, Feed;
      TickOpens(s, e.o, e.room);
    } else {
      NoMarks(s.lastClose);
      if e.Tick? {
        OneMark(s.lastClose, Jump(Snap(e.o.price, Resize(s, e.o).grid)));
        StartsThere(s, e.o);
      } else if e.Seed? {
        OneMark(s.lastClose, Jump(e.last));
      }
    }
  }

  lemma {:induction false} StartsThere(s: State, o: Obs)
    ensures Start(s, o).lastClose == Snap(o.price, Resize(s, o).grid)
  {
  }

  /** Each open is the previous close passed through exactly the grid snaps of the half-hour
      recomputes in between, over any run. */
  lemma {:induction false} OpensFollow(s: State, es: Run)
    ensures OpensThere(s.lastClose, Log(s, es))
    ensures Land(s.lastClose, Log(s, es)) == After(s, es).lastClose
  {
    hide OpensThere, Land, Marks, Do;
    NoMarks(s.lastClose);
    if es != [] {
      var front := es[..|es| - 1];
      var m := After(s, front);
      OpensFollow(s, front);
      EventOpens(m, es[|es| - 1]);
      LandAppend(s.lastClose, Log(s, front), Marks(m, es[|es| - 1]));
      OpensAppend(s.lastClose, Log(s, front), Marks(m, es[|es| - 1]));
    }
  }

  /** The bricks of a log are the bricks written, in order. */
  function Laid(ms: seq<Mark>): seq<Mark> {
    if ms == [] then []
    else Laid(ms[..|ms| - 1]) + if ms[|ms| - 1].Body? then [ms[|ms| - 1]] else []
  }

  lemma {:induction false} LaidAppend(a: seq<Mark>, b: seq<Mark>)
    ensures Laid(a + b) == Laid(a) + Laid(b)
  {
    if b == [] {
      assert a + b == a;
    } else {
      LaidAppend(a, b[..|b| - 1]);
      assert (a + b)[..|a + b| - 1] == a + b[..|b| - 1];
    }
  }

  lemma {:induction false} NothingLaid()
    ensures Laid([]) == [] && Bodies([]) == []
  {
  }

  lemma {:induction false} LaidBodies(ms: seq<Mark>)
    requires forall i :: 0 <= i < |ms| ==> ms[i].Body?
    ensures Laid(ms) == ms
  {
    if ms != [] {
      LaidBodies(ms[..|ms| - 1]);
    }
  }

  lemma {:induction false} EventLaid(s: State, e: Event)
    ensures Laid(Marks(s, e)) == Bodies(Do(s, e).bricks)
  {
    hide Snap, Prepare, Resize, Emit;
    assert Bodies([]) == [] && Laid([]) == [];
    if e.Tick? && s.live {
      var head := if Due(s, e.o) then [Regrid(Prepare(s, e.o).grid)] else [];
      assert Laid(head) == [];
      LaidAppend(head, Bodies(Feed(s, e.o, e.room).bricks));
      LaidBodies(Bodies(Feed(s, e.o, e.room).bricks));
    } else if e.Tick? {
      assert Laid([Jump(Snap(e.o.price, Resize(s, e.o).grid))]) == [];
    } else if e.Seed? {
      assert Laid([Jump(e.last)]) == [];
    }
  }

  lemma {:induction false} LogLaid(s: State, es: Run)
    ensures Laid(Log(s, es)) == Bodies(Out(s, es))
  {
    hide Do, Marks, Laid;
    if es == [] {
      NothingLaid();
    } else {
      var front := es[..|es| - 1];
      var m := After(s, front);
      LogLaid(s, front);
      EventLaid(m, es[|es| - 1]);
      LaidAppend(Log(s, front), Marks(m, es[|es| - 1]));
      BodiesAppend(Out(s, front), Do(m, es[|es| - 1]).bricks);
    }
  }

  lemma {:induction false} BodiesAppend(a: seq<Brick>, b: seq<Brick>)
    ensures Bodies(a + b) == Bodies(a) + Bodies(b)
  {
  }

  // ---- When "open = previous close" holds ----

  /** Where the log holds its `i`-th brick. */
  function BodyAt(ms: seq<Mark>, i: nat): (r: nat)
    requires i < |Laid(ms)|
    ensures r < |ms| && ms[r].Body? && ms[r] == Laid(ms)[i] && |Laid(ms[..r])| == i
  {
    var n := |ms| - 1;
    if i < |Laid(ms[..n])| then
      var r := BodyAt(ms[..n], i);
      assert ms[..n][..r] == ms[..r];
      r
    else n
  }

  /** Marks without a brick lay nothing, and the other way round. */
  lemma {:induction false} LaidNothing(ms: seq<Mark>)
    ensures Laid(ms) == [] <==> forall k :: 0 <= k < |ms| ==> !ms[k].Body?
  {
    if ms != [] {
      var n := |ms| - 1;
      LaidNothing(ms[..n]);
      assert forall k :: 0 <= k < n ==> ms[..n][k] == ms[k];
    }
  }

  lemma {:induction false} BrickTakesPlace(ms: seq<Mark>, i: nat)
    requires i < |Laid(ms)|
    ensures |Laid(ms[..BodyAt(ms, i) + 1])| == i + 1
  {
    var r := BodyAt(ms, i);
    assert ms[..r + 1][..r] == ms[..r];
  }

  /** Nothing is laid between two neighbouring bricks. */
  lemma {:induction false} NeighboursApart(ms: seq<Mark>, i: nat)
    requires 0 < i < |Laid(ms)|
    ensures BodyAt(ms, i - 1) < BodyAt(ms, i)
    ensures forall k :: BodyAt(ms, i - 1) < k < BodyAt(ms, i) ==> !ms[k].Body?
  {
    hide Laid;
    var a, b := BodyAt(ms, i - 1), BodyAt(ms, i);
    BrickTakesPlace(ms, i - 1);
    BrickTakesPlace(ms, i);
    if b < a {
      assert ms[..a] == ms[..b + 1] + ms[b + 1..a];
      LaidAppend(ms[..b + 1], ms[b + 1..a]);
    }
    if a < b {
      var gap := ms[a + 1..b];
      assert ms[..b] == ms[..a + 1] + gap;
      LaidAppend(ms[..a + 1], gap);
      LaidNothing(gap);
      assert forall k :: a < k < b ==> ms[k] == gap[k - a - 1];
    }
  }

  /** What happens to the anchor between brick `i - 1` and brick `i` of a run. */
  function Gap(s: State, es: Run, i: nat): (gap: seq<Mark>)
    requires 0 < i < |Out(s, es)|
    ensures forall k :: 0 <= k < |gap| ==> !gap[k].Body?
  {
    LogLaid(s, es);
    var ms := Log(s, es);
    NeighboursApart(ms, i);
    ms[BodyAt(ms, i - 1) + 1..BodyAt(ms, i)]
  }

  /** A grid the engine snaps to; the one of a switched-off engine moves nothing. */
  ghost predicate EngineGrid(g: real) { g <= 0.0 || IsStep(g) }

  ghost predicate Regrids(ms: seq<Mark>) {
    forall k :: 0 <= k < |ms| ==> ms[k].Regrid? && EngineGrid(ms[k].step)
  }

  /** The price lies on the grid, as far as there is one. */
  predicate Rests(x: real, step: real) { step > 0.0 ==> OnGrid(x, step) }

  lemma {:induction false} RestsUnmoved(x: real, step: real)
    ensures Snap(x, step) == x <==> Rests(x, step)
    ensures Rests(Snap(x, step), step)
  {
    if step > 0.0 {
      SnapOnGrid(x, step);
    }
  }

  /** A price on one engine grid stays on it when it is snapped to another. */
  lemma {:induction false} SnapKeepsGrids(x: real, g: real, h: real)
    requires EngineGrid(g) && EngineGrid(h) && Rests(x, g)
    ensures Rests(Snap(x, h), g)
  {
    hide IsStep, Divides;
    RestsUnmoved(x, h);
    if g > 0.0 && h > 0.0 {
      StepsNest(g, h);
      hide Snap;
      SnapOnGrid(x, h);
      if Divides(g, h) {
        OnFiner(Snap(x, h), g, h);
      } else {
        OnFiner(x, h, g);
      }
    }
  }

  /** Snapped to any list of engine grids a price ends on every one of them. */
  lemma {:induction false} LandsOnAll(p: real, ms: seq<Mark>, k: nat)
    requires Regrids(ms) && k < |ms|
    ensures Rests(Land(p, ms), ms[k].step)
  {
    hide Snap, EngineGrid, Rests;
    var n := |ms| - 1;
    var q := Land(p, ms[..n]);
    assert ms[n].Regrid? && Land(p, ms) == Snap(q, ms[n].step);
    if k == n {
      RestsUnmoved(q, ms[n].step);
    } else {
      assert ms[..n][k] == ms[k];
      assert Regrids(ms[..n]);
      LandsOnAll(p, ms[..n], k);
      SnapKeepsGrids(q, ms[k].step, ms[n].step);
    }
  }

  lemma {:induction false} StaysOnAll(p: real, ms: seq<Mark>)
    requires Regrids(ms) && forall k :: 0 <= k < |ms| ==> Rests(p, ms[k].step)
    ensures Land(p, ms) == p
  {
    hide Snap, EngineGrid, Rests;
    if ms != [] {
      var n := |ms| - 1;
      assert forall k :: 0 <= k < n ==> ms[..n][k] == ms[k];
      StaysOnAll(p, ms[..n]);
      RestsUnmoved(p, ms[n].step);
      assert ms[n].Regrid?;
    }
  }

  /** Re-snapping leaves a price where it is exactly when it lies on every grid of the list. */
  lemma {:induction false} LandsBackExactlyWhen(p: real, ms: seq<Mark>)
    requires Regrids(ms)
    ensures Land(p, ms) == p <==> forall k :: 0 <= k < |ms| ==> Rests(p, ms[k].step)
  {
    hide Land, EngineGrid, Rests;
    if Land(p, ms) == p {
      forall k | 0 <= k < |ms|
        ensures Rests(p, ms[k].step)
      {
        LandsOnAll(p, ms, k);
      }
    }
    if forall k :: 0 <= k < |ms| ==> Rests(p, ms[k].step) {
      StaysOnAll(p, ms);
    }
  }

  lemma {:induction false} PrepareGrid(s: State, o: Obs)
    requires Due(s, o)
    ensures EngineGrid(Prepare(s, o).grid)
  {
    hide Snap, SnapTo25Grid, RawBrick, HalfHour, FloorLog10, Pow10;
  }

  lemma {:induction false} LogRegrids(s: State, es: Run, k: nat)
    requires k < |Log(s, es)| && Log(s, es)[k].Regrid?
    ensures EngineGrid(Log(s, es)[k].step)
  {
    hide EngineGrid, Prepare, Feed, Start, Resize, Due;
    var front, e := es[..|es| - 1], es[|es| - 1];
    var m := After(s, front);
    if k < |Log(s, front)| {
      LogRegrids(s, front, k);
    } else {
      hide Log;
      assert Marks(m, e)[k - |Log(s, front)|].Regrid?;
      assert e.Tick? && Due(m, e.o);
      PrepareGrid(m, e.o);
    }
  }

  /** Where a run opens its `i`-th brick: at the previous close, moved by what lies between. */
  lemma {:induction false} OpenFromGap(s: State, es: Run, i: nat)
    requires 0 < i < |Out(s, es)|
    ensures Out(s, es)[i].open == Land(Out(s, es)[i - 1].close, Gap(s, es, i))
  {
    hide Log, Out, Laid;
    var p, ms := s.lastClose, Log(s, es);
    OpensFollow(s, es);
    LogLaid(s, es);
    NeighboursApart(ms, i);
    var a, b := BodyAt(ms, i - 1), BodyAt(ms, i);
    assert ms[..b] == ms[..a + 1] + ms[a + 1..b];
    LandAppend(p, ms[..a + 1], ms[a + 1..b]);
    assert ms[..a + 1][a] == ms[a];
    assert ms[b].open == Land(p, ms[..b]);
  }

  /** The exact condition, for every pair of neighbouring bricks of any run with only half-hour
      recomputes between them: a brick opens at the previous close if and only if that close lies
      on every grid the recomputes snapped to. */
  lemma {:induction false} OpenIsPreviousClose(s: State, es: Run, i: nat)
    requires 0 < i < |Out(s, es)|
    requires forall k :: 0 <= k < |Gap(s, es, i)| ==> !Gap(s, es, i)[k].Jump?
    ensures Out(s, es)[i].open == Out(s, es)[i - 1].close
            <==> forall k :: 0 <= k < |Gap(s, es, i)| ==> Rests(Out(s, es)[i - 1].close, Gap(s, es, i)[k].step)
  {
    hide Log, Out, Laid, EngineGrid, Rests, Land;
    var gap := Gap(s, es, i);
    OpenFromGap(s, es, i);
    MarksRegrid(s, es, i, 0);
    assert gap[0..] == gap;
    LandsBackExactlyWhen(Out(s, es)[i - 1].close, gap);
  }

  /** Past its last jump a gap holds recomputes only. */
  lemma {:induction false} MarksRegrid(s: State, es: Run, i: nat, from: nat)
    requires 0 < i < |Out(s, es)| && from <= |Gap(s, es, i)|
    requires forall k :: from <= k < |Gap(s, es, i)| ==> !Gap(s, es, i)[k].Jump?
    ensures Regrids(Gap(s, es, i)[from..])
  {
    hide Log, Out, Laid, EngineGrid;
    LogLaid(s, es);
    var ms, gap := Log(s, es), Gap(s, es, i);
    NeighboursApart(ms, i);
    forall k | from <= k < |gap|
      ensures gap[k].Regrid? && EngineGrid(gap[k].step)
    {
      assert gap[k] == ms[BodyAt(ms, i - 1) + 1 + k];
      LogRegrids(s, es, BodyAt(ms, i - 1) + 1 + k);
    }
    assert forall k :: 0 <= k < |gap| - from ==> gap[from..][k] == gap[from + k];
  }

  lemma {:induction false} LandJump(p: real, ms: seq<Mark>)
    requires ms != [] && ms[|ms| - 1].Jump?
    ensures Land(p, ms) == ms[|ms| - 1].to
  {
  }

  /** With a jump in between, the brick opens where the last one put the anchor, moved by the recomputes
      after it; where that jump went to the previous close itself, the condition is the same. */
  lemma {:induction false} OpenAfterJump(s: State, es: Run, i: nat, j: nat)
    requires 0 < i < |Out(s, es)| && j < |Gap(s, es, i)| && Gap(s, es, i)[j].Jump?
    requires forall k :: j < k < |Gap(s, es, i)| ==> !Gap(s, es, i)[k].Jump?
    ensures var gap, close := Gap(s, es, i), Out(s, es)[i - 1].close;
            && Out(s, es)[i].open == Land(gap[j].to, gap[j + 1..])
            && (Out(s, es)[i].open == close <==> Land(gap[j].to, gap[j + 1..]) == close)
            && (gap[j].to == close ==>
                 (Out(s, es)[i].open == close <==> forall k :: j < k < |gap| ==> Rests(close, gap[k].step)))
  {
    hide Log, Out, Laid, EngineGrid, Rests, Land, Gap;
    var gap, close := Gap(s, es, i), Out(s, es)[i - 1].close;
    var rest := gap[j + 1..];
    OpenFromGap(s, es, i);
    assert gap == gap[..j + 1] + rest;
    LandAppend(close, gap[..j + 1], rest);
    LandJump(close, gap[..j + 1]);
    MarksRegrid(s, es, i, j + 1);
    LandsBackExactlyWhen(gap[j].to, rest);
    if gap[j].to == close && forall k :: j < k < |gap| ==> Rests(close, gap[k].step) {
      assert forall m :: 0 <= m < |rest| ==> Rests(close, rest[m].step);
    }
    if gap[j].to == close && forall m :: 0 <= m < |rest| ==> Rests(close, rest[m].step) {
      forall k | j < k < |gap|
        ensures Rests(close, gap[k].step)
      {
        assert rest[k - j - 1] == gap[k];
      }
    }
  }

  lemma {:induction false} TickNeverJumps(s: State, e: Event, k: nat)
    requires s.live && !e.Seed? && k < |Marks(s, e)|
    ensures !Marks(s, e)[k].Jump?
  {
    hide Prepare, Feed, Start, Resize, Due;
  }

  /** A live engine that is not seeded never jumps, so the condition covers its whole run. */
  lemma {:induction false} SeedlessNeverJumps(s: State, es: Run, k: nat)
    requires s.live && Seedless(es) && k < |Log(s, es)|
    ensures !Log(s, es)[k].Jump?
  {
    hide Do, Marks;
    var front, e := es[..|es| - 1], es[|es| - 1];
    StillCounting(s, front);
    if k < |Log(s, front)| {
      SeedlessNeverJumps(s, front, k);
    } else {
      TickNeverJumps(After(s, front), e, k - |Log(s, front)|);
    }
  }

  /** One tick alone: its first brick opens at the anchor the tick finds exactly when no recompute is
      due or that anchor lies on the new grid. */
  lemma {:induction false} OpenMovesOnlyOffGrid(s: State, o: Obs, room: nat)
    requires Sound(s) && s.live && Feed(s, o, room).bricks != []
    ensures Feed(s, o, room).bricks[0].open == s.lastClose
            <==> !Due(s, o) || OnGrid(s.lastClose, GridStepForBrick(Prepare(s, o).size))
  {
    hide Closes, Snap, Anchor, Abs, HighLow, GridStepForBrick;
    PrepareKeeps(s, o);
    PrepareSound(s, o);
    hide Prepare;
  }

  // ---- Wicks ----

  /** The prices that count for the wick: those of ticks that find a brick size. */
  function Counted(s: State, e: Event): seq<real> {
    if e.Tick? && s.live && Trades(Prepare(s, e.o), e.o) then [e.o.price] else []
  }

  function Seen(s: State, es: Run): seq<real> {
    if es == [] then [] else Seen(s, es[..|es| - 1]) + Counted(After(s, es[..|es| - 1]), es[|es| - 1])
  }

  /** A live tick that writes nothing. */
  lemma {:induction false} QuietTick(s: State, o: Obs, room: nat)
    requires s.live && Feed(s, o, room).bricks == []
    ensures var n := Feed(s, o, room).next;
            && n.live && n.startTs == s.startTs && n.ticks == BB.Wrap32(s.ticks + 1)
            && n.high == (if Trades(Prepare(s, o), o) then Raise(s.high, o.price) else s.high)
            && n.low == (if Trades(Prepare(s, o), o) then Lower(s.low, o.price) else s.low)
  {
    hide Closes, Snap, Anchor, Abs, BrickAt, Prepare, Raise, Lower, BB.Wrap32, Due;
    PrepareKeeps(s, o);
  }

  lemma {:induction false} QuietStep(s: State, e: Event, ps: seq<real>)
    requires s.live && !e.Seed? && Do(s, e).bricks == []
    requires s.high == Highest(ps) && s.low == Lowest(ps)
    ensures var n := Do(s, e).next;
            && n.live && n.startTs == s.startTs
            && n.ticks == (if e.Tick? then BB.Wrap32(s.ticks + 1) else s.ticks)
            && n.high == Highest(ps + Counted(s, e)) && n.low == Lowest(ps + Counted(s, e))
  {
    hide Feed, Prepare, Trades, BB.Wrap32, Highest, Lowest, Raise, Lower;
    assert ps + [] == ps;
    if e.Tick? {
      QuietTick(s, e.o, e.room);
      ExtremesSnoc(ps, e.o.price);
    }
  }

  /** While nothing is written the pending window collects every counted price and every tick. */
  lemma {:induction false} QuietRun(s: State, es: Run, ps: seq<real>)
    requires s.live && Seedless(es) && Out(s, es) == []
    requires s.high == Highest(ps) && s.low == Lowest(ps) && BB.Wrap32(s.ticks) == s.ticks
    ensures var m := After(s, es);
            && m.live && m.startTs == s.startTs && m.ticks == BB.Wrap32(s.ticks + Ticks(es))
            && m.high == Highest(ps + Seen(s, es)) && m.low == Lowest(ps + Seen(s, es))
  {
    hide After, Out, Seen, Ticks, Do, Counted, BB.Wrap32, Highest, Lowest;
    LastEvent(s, es);
    if es == [] {
      assert ps + [] == ps;
    } else {
      var front, e := es[..|es| - 1], es[|es| - 1];
      var m := After(s, front);
      QuietRun(s, front, ps);
      QuietStep(m, e, ps + Seen(s, front));
      BB.TickWraps(s.ticks + Ticks(front));
      Regroup(ps, Seen(s, front), Counted(m, e));
    }
  }

  lemma {:induction false} Regroup(a: seq<real>, b: seq<real>, c: seq<real>)
    ensures (a + b) + c == a + (b + c)
  {
  }

  /** A run and what its last event adds. */
  lemma {:induction false} LastEvent(s: State, es: Run)
    ensures es == [] ==> After(s, es) == s && Out(s, es) == [] && Seen(s, es) == [] && Ticks(es) == 0
    ensures es != [] ==>
              var front, e := es[..|es| - 1], es[|es| - 1];
              var m := After(s, front);
              && After(s, es) == Do(m, e).next && Out(s, es) == Out(s, front) + Do(m, e).bricks
              && Seen(s, es) == Seen(s, front) + Counted(m, e)
              && Ticks(es) == Ticks(front) + if e.Tick? then 1 else 0
  {
    hide Do, Counted;
  }

  /** The bricks of the tick that ends a quiet stretch. `ps` are the prices already pending at its
      start: none after a tick that wrote bricks, its own price after the first tick of a run. The
      first brick spans the stretch in time and ticks, and its high and low are the extremes of its
      body and of every counted price; the others are empty and wickless. */
  lemma {:induction false} BrickSpansItsTicks(s: State, es: Run, o: Obs, room: nat, ps: seq<real>)
    requires s.live && Seedless(es) && Out(s, es) == []
    requires s.high == Highest(ps) && s.low == Lowest(ps) && BB.Wrap32(s.ticks) == s.ticks
    requires Feed(After(s, es), o, room).bricks != []
    ensures var bs, prices := Feed(After(s, es), o, room).bricks, ps + Seen(s, es) + [o.price];
            var b := bs[0];
            && b.openTs == s.startTs && b.closeTs == o.ts && !b.synthetic
            && b.ticks == BB.Wrap32(s.ticks + Ticks(es) + 1)
            && b.high == Max(Max(b.open, b.close), Highest(prices).v)
            && b.low == Min(Min(b.open, b.close), Lowest(prices).v)
            && (forall i :: 0 < i < |bs| ==> bs[i] == Wickless(o.ts, bs[i - 1].close, bs[i].close))
  {
    hide After, Out, Seen, Ticks, Prepare, Feed, Highest, Lowest, BB.Wrap32, Raise, Lower, Wickless;
    QuietRun(s, es, ps);
    var m := After(s, es);
    PrepareKeeps(m, o);
    BB.TickWraps(s.ticks + Ticks(es));
    ExtremesSnoc(ps + Seen(s, es), o.price);
    TickBricks(m, o, room);
  }

  /** A synthetic brick: no ticks, no time, no wick. */
  function Wickless(ts: int, open: real, close: real): Brick {
    Brick(ts, ts, open, Max(open, close), Min(open, close), close, 0, true)
  }

  /** The bricks of one tick, from the state the tick finds. */
  lemma {:induction false} TickBricks(s: State, o: Obs, room: nat)
    requires s.live && Feed(s, o, room).bricks != []
    ensures var bs, p := Feed(s, o, room).bricks, Prepare(s, o);
            var (h, l) := HighLow(Raise(p.high, o.price), Lower(p.low, o.price), p.lastClose, bs[0].close, true);
            && bs[0] == Brick(p.startTs, o.ts, p.lastClose, h, l, bs[0].close, p.ticks, false)
            && (forall i :: 0 < i < |bs| ==> bs[i] == Wickless(o.ts, bs[i - 1].close, bs[i].close))
  {
    hide Closes, Snap, Anchor, Abs, Prepare, Raise, Lower, Max, Min;
  }

  /** After a tick that wrote bricks nothing is pending. */
  lemma {:induction false} NothingPending(s: State, o: Obs, room: nat)
    requires s.live && Feed(s, o, room).bricks != []
    ensures var f := Feed(s, o, room);
            && f.next.high == Highest([]) && f.next.low == Lowest([]) && f.next.ticks == 0 && f.next.live
            && f.next.startTs == o.ts && f.next.lastClose == f.bricks[|f.bricks| - 1].close
  {
    hide Closes, Snap, Abs, HighLow;
    PrepareKeeps(s, o);
    hide Prepare;
  }

  // ---- Where "open = previous close" stops ----

  lemma {:induction false} SmallPowers()
    ensures Pow10(-2) == 0.01 && Pow10(-1) == 0.1 && Pow10(0) == 1.0 && Pow10(1) == 10.0
    ensures Pow10(2) == 100.0 && Pow10(3) == 1000.0
  {
    Pow10Next(-2);
    Pow10Next(-1);
    Pow10Next(0);
    Pow10Next(1);
    Pow10Next(2);
  }

  /** A size that is a multiple of its own 2-unit grid is kept. */
  lemma {:induction false} SizeKept(size: real, d: int, unit: real, k: int)
    requires Pow10(d) <= size < Pow10(d + 1) && unit == Pow10(d - 3) && size == At(k, 2.0 * unit)
    ensures SnapTo25Grid(size) == size && GridStepForBrick(size) == 2.0 * unit
  {
    hide FloorLog10, At, Snap, Pow10;
    LogUnique(size, d);
    SnapAt(k, 2.0 * unit);
  }

  lemma {:induction false} SnapExample(x: real, step: real, k: int)
    requires step > 0.0 && At(k, step) - step / 2.0 < x < At(k, step) + step / 2.0
    ensures Snap(x, step) == At(k, step)
  {
    RatioOfMultiple(k, step);
    RatioAdds(At(k, step), step / 2.0, step);
    RatioHalf(step);
    StrictRatio(x, At(k, step) + step / 2.0, step);
    StrictRatio(At(k, step) - step / 2.0, x, step);
    hide Ratio, At, Round;
    RoundWithin(Ratio(x, step), k);
  }

  lemma {:induction false} StrictRatio(x: real, y: real, step: real)
    requires step > 0.0 && x < y
    ensures Ratio(x, step) < Ratio(y, step)
  {
    RatioOrder(y, x, step);
  }

  function Bold(): Config { Config(1.0, 0.0) }

  /** The first tick: bricks of 10.02 on the 0.02 grid. */
  lemma {:induction false} ExampleStart()
    ensures Start(Fresh(Bold()), Obs(0, 100.0, 0.1002))
         == State(Bold(), 10.02, 0.02, 0, true, 100.0, Fin(100.0), Fin(100.0), 0, 1, 0)
    ensures Sound(Start(Fresh(Bold()), Obs(0, 100.0, 0.1002)))
  {
    SmallPowers();
    assert At(501, 0.02) == 10.02 && At(5000, 0.02) == 100.0;
    hide Pow10, Snap, At, SnapTo25Grid, GridStepForBrick;
    SizeKept(10.02, 1, 0.01, 501);
    SnapAt(5000, 0.02);
  }

  /** One brick up, closing at 110.02. */
  lemma {:induction false} ExampleFirstBrick(s: State)
    requires s == State(Bold(), 10.02, 0.02, 0, true, 100.0, Fin(100.0), Fin(100.0), 0, 1, 0)
    ensures Closes(s.lastClose, 110.02, s.size, s.grid, 9) == [110.02]
  {
    assert At(5501, 0.02) == 110.02;
    hide At, Snap;
    SnapAt(5501, 0.02);
    assert Closes(110.02, 110.02, 10.02, 0.02, 8) == [];
  }

  lemma {:induction false} ExampleFirstTick(s: State)
    requires s == State(Bold(), 10.02, 0.02, 0, true, 100.0, Fin(100.0), Fin(100.0), 0, 1, 0)
    ensures var f := Feed(s, Obs(1, 110.02, 0.1), 9);
            && |f.bricks| == 1 && f.bricks[0].close == 110.02
            && f.next == State(Bold(), 10.02, 0.02, 0, true, 110.02, NegInf, PosInf, 1, 0, 1)
  {
    hide Closes, Snap, Resize, HighLow;
    ExampleFirstBrick(s);
  }

  /** Half an hour later the bricks are 240 on the 0.2 grid, and the anchor moves to 110. */
  lemma {:induction false} ExampleResize(s: State)
    requires s == State(Bold(), 10.02, 0.02, 0, true, 110.02, NegInf, PosInf, 1, 0, 1)
    ensures Prepare(s, Obs(1_800_000, 400.0, 0.6))
         == State(Bold(), 240.0, 0.2, 1, true, 110.0, NegInf, PosInf, 1, 1, 1)
  {
    SmallPowers();
    assert At(1200, 0.2) == 240.0 && At(550, 0.2) == 110.0;
    hide Pow10, Snap, At, SnapTo25Grid, GridStepForBrick;
    SizeKept(240.0, 2, 0.1, 1200);
    SnapExample(110.02, 0.2, 550);
  }

  /** A recompute between two bricks breaks the chain: the first one closes at 110.02 and the second
      one opens at 110. */
  lemma {:induction false} OpenIsNotPreviousClose()
    ensures var s1 := Start(Fresh(Bold()), Obs(0, 100.0, 0.1002));
            var f1 := Feed(s1, Obs(1, 110.02, 0.1), 9);
            var f2 := Feed(f1.next, Obs(1_800_000, 400.0, 0.6), 9);
            && |f1.bricks| == 1 && f1.bricks[0].close == 110.02
            && |f2.bricks| > 0 && f2.bricks[0].open == 110.0
  {
    hide Start, Resize, Prepare, Closes, HighLow, Snap;
    ExampleStart();
    var s1 := Start(Fresh(Bold()), Obs(0, 100.0, 0.1002));
    ExampleFirstTick(s1);
    var s2 := Feed(s1, Obs(1, 110.02, 0.1), 9).next;
    ExampleResize(s2);
    assert Closes(110.0, 400.0, 240.0, 0.2, 9) != [] by { SecondBrickLaid(); }
  }

  lemma {:induction false} SecondBrickLaid()
    ensures Closes(110.0, 400.0, 240.0, 0.2, 9) != []
  {
    hide Snap;
  }
}
