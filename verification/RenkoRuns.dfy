/** Whole runs of the renko engine: what its bricks account for, and how each brick follows from the
    one before.
 */
module RenkoRuns {
  import opened Extended
  import opened Grid
  import opened RenkoWalk
  import opened Renko
  import BB = BarBuilder

  datatype Event = Tick(o: Obs, room: nat) | Tune(multiplier: real) | Seed(last: real)

  type Run = seq<Event>

  function Do(s: State, e: Event): Outcome {
    match e
    case Tick(o, room) => Feed(s, o, room)
    case Tune(m) => Outcome(Retuned(s, m), [], true)
    case Seed(last) => Outcome(Seeded(s, last), [], true)
  }

  function After(s: State, es: Run): State {
    if es == [] then s else Do(After(s, es[..|es| - 1]), es[|es| - 1]).next
  }

  /** Every brick written during the run. */
  function Out(s: State, es: Run): seq<Brick> {
    if es == [] then []
    else Out(s, es[..|es| - 1]) + Do(After(s, es[..|es| - 1]), es[|es| - 1]).bricks
  }

  function Ticks(es: Run): nat {
    if es == [] then 0 else Ticks(es[..|es| - 1]) + if es[|es| - 1].Tick? then 1 else 0
  }

  /** No seed switches the engine off. */
  predicate Kept(es: Run) { forall i :: 0 <= i < |es| && es[i].Seed? ==> es[i].last > 0.0 }

  predicate Seedless(es: Run) { forall i :: 0 <= i < |es| ==> !es[i].Seed? }

  lemma {:induction false} DoSound(s: State, e: Event)
    requires Sound(s)
    ensures Sound(Do(s, e).next)
  {
    hide Sized, Feed;
    if e.Tick? {
      FeedSound(s, e.o, e.room);
    }
  }

  lemma {:induction false} RunSound(s: State, es: Run)
    requires Sound(s)
    ensures Sound(After(s, es))
  {
    hide Sound, Do;
    if es != [] {
      RunSound(s, es[..|es| - 1]);
      DoSound(After(s, es[..|es| - 1]), es[|es| - 1]);
    }
  }

  /** A tick's bricks are all counted. */
  lemma {:induction false} EventCounted(s: State, e: Event)
    ensures Do(s, e).next.nBars == s.nBars + |Do(s, e).bricks|
  {
    hide Closes, BrickAt, Anchor, Abs, Snap, Resize;
    if e.Tick? {
      ResizeCounts(s, e.o);
      PrepareKeeps(s, e.o);
    }
  }

  lemma {:induction false} ResizeCounts(s: State, o: Obs)
    ensures Resize(s, o).nBars == s.nBars
  {
  }

  lemma {:induction false} PrefixRun(s: State, es: Run, i: nat)
    requires i < |es|
    ensures After(s, es[..i + 1]) == Do(After(s, es[..i]), es[i]).next
    ensures Out(s, es[..i + 1]) == Out(s, es[..i]) + Do(After(s, es[..i]), es[i]).bricks
  {
    hide Do;
    assert es[..i + 1][..i] == es[..i];
  }

  /** One event on a generator. */
  method Perform(g: RenkoGenerator, e: Event) returns (bricks: seq<Brick>)
    requires g.Valid()
    modifies g, g.acc
    ensures g.Valid() && g.Abstract() == Do(old(g.Abstract()), e).next && bricks == Do(old(g.Abstract()), e).bricks
  {
    hide Feed, Sound, BB.BarAccumulator.Valid;
    bricks := [];
    if e.Tick? {
      var micros, ok;
      bricks, micros, ok := g.FeedTickWithSigma(e.o, e.room);
    } else if e.Tune? {
      g.SetMultiplier(e.multiplier);
    } else {
      g.SeedLastClose(e.last);
    }
  }

  /** Feeding a whole run leaves the state and writes the bricks the run says. */
  method FeedRun(g: RenkoGenerator, es: Run) returns (bricks: seq<Brick>)
    requires g.Valid()
    modifies g, g.acc
    ensures g.Valid() && g.Abstract() == After(old(g.Abstract()), es) && bricks == Out(old(g.Abstract()), es)
  {
    hide Do, After, Out, RenkoGenerator.Valid, RenkoGenerator.Abstract;
    ghost var s := g.Abstract();
    NothingRun(s);
    bricks := [];
    var i := 0;
    assert es[..0] == [];
    while i < |es|
      invariant i <= |es| && g.Valid()
      invariant g.Abstract() == After(s, es[..i]) && bricks == Out(s, es[..i])
    {
      var bs := Perform(g, es[i]);
      PrefixRun(s, es, i);
      bricks := bricks + bs;
      i := i + 1;
    }
    assert es[..|es|] == es;
  }

  lemma {:induction false} RunCounted(s: State, es: Run)
    ensures After(s, es).nBars == s.nBars + |Out(s, es)|
  {
    hide Do;
    if es != [] {
      RunCounted(s, es[..|es| - 1]);
      EventCounted(After(s, es[..|es| - 1]), es[|es| - 1]);
    }
  }

  /** And the counter tells how many. */
  method Generate(g: RenkoGenerator, es: Run) returns (bricks: seq<Brick>, count: int)
    requires g.Valid()
    modifies g, g.acc
    ensures g.Valid() && g.Abstract() == After(old(g.Abstract()), es)
    ensures bricks == Out(old(g.Abstract()), es) && count == |bricks|
  {
    hide Out, After, RenkoGenerator.Valid;
    var barsBefore := g.nBars;
    RunCounted(g.Abstract(), es);
    bricks := FeedRun(g, es);
    count := g.nBars - barsBefore;
  }

  lemma {:induction false} NothingRun(s: State)
    ensures After(s, []) == s && Out(s, []) == []
  {
  }

  // ---- Ticks ----

  function SumTicks(bs: seq<Brick>): nat {
    if bs == [] then 0 else SumTicks(bs[..|bs| - 1]) + bs[|bs| - 1].ticks
  }

  lemma {:induction false} SumNothing()
    ensures SumTicks([]) == 0
  {
  }

  lemma {:induction false} SumAppend(a: seq<Brick>, b: seq<Brick>)
    ensures SumTicks(a + b) == SumTicks(a) + SumTicks(b)
  {
    if b == [] {
      assert a + b == a;
    } else {
      SumAppend(a, b[..|b| - 1]);
      assert (a + b)[..|a + b| - 1] == a + b[..|b| - 1];
    }
  }

  lemma {:induction false} SumOfWalk(s: State, ts: int, cs: seq<real>)
    ensures SumTicks(BricksOf(s, ts, cs)) == if cs == [] then 0 else s.ticks
  {
    hide HighLow;
    if cs != [] {
      var n := |cs| - 1;
      assert cs[..n] + [cs[n]] == cs;
      SumOfWalk(s, ts, cs[..n]);
      BricksSnoc(s, ts, cs[..n], cs[n]);
      var bs := BricksOf(s, ts, cs);
      assert bs[..n] == BricksOf(s, ts, cs[..n]);
    }
  }

  /** Counting a tick may resize the brick and re-snap the anchor, and touches nothing else. */
  lemma {:induction false} PrepareKeeps(s: State, o: Obs)
    ensures var p := Prepare(s, o);
            && p.ticks == BB.Wrap32(s.ticks + 1) && p.live == s.live && p.startTs == s.startTs
            && p.high == s.high && p.low == s.low && p.nBars == s.nBars && p.config == s.config
            && p.lastClose == (if Due(s, o) then Snap(s.lastClose, p.grid) else s.lastClose)
  {
    hide Snap, SnapTo25Grid, GridStepForBrick, RawBrick, BB.Wrap32, HalfHour;
  }

  /** A tick is counted once: in the bricks it lays or in the pending count. */
  lemma {:induction false} TickCounted(s: State, o: Obs, room: nat)
    requires s.live || s.ticks == 0
    ensures SumTicks(Feed(s, o, room).bricks) + Feed(s, o, room).next.ticks == BB.Wrap32(s.ticks + 1)
    ensures Feed(s, o, room).next.live
  {
    hide Closes, BricksOf, SumTicks, Anchor, Snap, Resize, Abs, BB.Wrap32;
    PrepareKeeps(s, o);
    SumNothing();
    BB.TickWraps(1);
    var p := Prepare(s, o);
    var w := Widen(p, o.price);
    SumOfWalk(w, o.ts, Closes(w.lastClose, o.price, w.size, w.grid, Budget(room)));
  }

  lemma {:induction false} WrapSum(a: nat, b: nat, c: nat, d: nat)
    requires BB.Wrap32(a + b) == BB.Wrap32(c) && BB.Wrap32(d) == BB.Wrap32(b + 1)
    ensures BB.Wrap32(a + d) == BB.Wrap32(c + 1)
  {
    BB.WrapAdd(d, a, BB.W32);
    BB.WrapAdd(b + 1, a, BB.W32);
    BB.WrapAdd(a + b, 1, BB.W32);
    BB.WrapAdd(c, 1, BB.W32);
  }

  lemma {:induction false} KeptStep(s: State, e: Event)
    requires s.live || s.ticks == 0
    requires e.Seed? ==> e.last > 0.0
    ensures var d := Do(s, e);
            && (d.next.live || d.next.ticks == 0)
            && (s.live ==> d.next.live)
            && (if e.Tick? then SumTicks(d.bricks) + d.next.ticks == BB.Wrap32(s.ticks + 1)
                else d.bricks == [] && d.next.ticks == s.ticks)
  {
    hide Feed, SumTicks, BB.Wrap32;
    if e.Tick? {
      TickCounted(s, e.o, e.room);
    }
  }

  lemma {:induction false} StillCounting(s: State, es: Run)
    requires Kept(es) && (s.live || s.ticks == 0)
    ensures After(s, es).live || After(s, es).ticks == 0
    ensures s.live ==> After(s, es).live
  {
    hide Do;
    if es != [] {
      StillCounting(s, es[..|es| - 1]);
      KeptStep(After(s, es[..|es| - 1]), es[|es| - 1]);
    }
  }

  /** The ticks of the bricks and the pending count add up to the ticks fed, modulo 2^32. */
  lemma {:induction false} TicksConserved(s: State, es: Run)
    requires Kept(es) && (s.live || s.ticks == 0)
    ensures BB.Wrap32(SumTicks(Out(s, es)) + After(s, es).ticks) == BB.Wrap32(s.ticks + Ticks(es))
  {
    hide Do, BB.Wrap32, SumTicks;
    if es == [] {
      SumNothing();
    } else {
      var front, e := es[..|es| - 1], es[|es| - 1];
      var m := After(s, front);
      TicksConserved(s, front);
      StillCounting(s, front);
      KeptStep(m, e);
      SumAppend(Out(s, front), Do(m, e).bricks);
      SumNothing();
      if e.Tick? {
        var d := SumTicks(Do(m, e).bricks) + Do(m, e).next.ticks;
        BB.TickWraps(m.ticks + 1);
        WrapTwice(m.ticks + 1);
        WrapSum(SumTicks(Out(s, front)), m.ticks, s.ticks + Ticks(front), d);
      }
    }
  }

  lemma {:induction false} WrapTwice(n: nat)
    ensures BB.Wrap32(BB.Wrap32(n)) == BB.Wrap32(n)
  {
  }

  /** And exactly, as long as fewer than 2^32 ticks are involved. */
  lemma {:induction false} TicksConservedExactly(s: State, es: Run)
    requires Kept(es) && (s.live || s.ticks == 0) && s.ticks + Ticks(es) < BB.W32
    ensures SumTicks(Out(s, es)) + After(s, es).ticks == s.ticks + Ticks(es)
  {
    hide Do, BB.Wrap32, SumTicks;
    SumNothing();
    if es != [] {
      var front, e := es[..|es| - 1], es[|es| - 1];
      var m := After(s, front);
      TicksConservedExactly(s, front);
      StillCounting(s, front);
      KeptStep(m, e);
      SumAppend(Out(s, front), Do(m, e).bricks);
      if e.Tick? {
        BB.TickWraps(m.ticks + 1);
      }
    }
  }

  // ---- Times ----

  /** When the brick before the `i`-th closed; `t` for the first one. */
  function Before(t: int, bs: seq<Brick>, i: nat): int
    requires i <= |bs|
  {
    if i == 0 then t else bs[i - 1].closeTs
  }

  /** Every brick opens when the one before closed, the first one at `t`. */
  predicate Follows(t: int, bs: seq<Brick>) {
    forall i :: 0 <= i < |bs| ==> bs[i].openTs == Before(t, bs, i)
  }

  function EndTs(t: int, bs: seq<Brick>): int { if bs == [] then t else bs[|bs| - 1].closeTs }

  lemma {:induction false} FollowsAppend(t: int, a: seq<Brick>, b: seq<Brick>)
    requires Follows(t, a) && Follows(EndTs(t, a), b)
    ensures Follows(t, a + b) && EndTs(t, a + b) == EndTs(EndTs(t, a), b)
  {
    var ab := a + b;
    assert b == [] ==> ab == a;
    assert b != [] ==> ab[|ab| - 1] == b[|b| - 1];
    forall i | 0 <= i < |ab|
      ensures ab[i].openTs == Before(t, ab, i)
    {
      if i < |a| {
        assert ab[i] == a[i] && Before(t, ab, i) == Before(t, a, i);
      } else {
        var j := i - |a|;
        assert ab[i] == b[j] && Before(t, ab, i) == Before(EndTs(t, a), b, j);
      }
    }
  }

  lemma {:induction false} WalkFollows(s: State, ts: int, cs: seq<real>)
    ensures Follows(s.startTs, BricksOf(s, ts, cs))
    ensures Lay(s, ts, cs).startTs == EndTs(s.startTs, BricksOf(s, ts, cs))
  {
    hide HighLow, Prev, Anchor;
  }

  lemma {:induction false} TickFollows(s: State, o: Obs, room: nat)
    requires s.live
    ensures Follows(s.startTs, Feed(s, o, room).bricks)
    ensures Feed(s, o, room).next.startTs == EndTs(s.startTs, Feed(s, o, room).bricks)
  {
    hide Closes, BricksOf, Lay, Follows, Anchor, Abs, Prepare;
    NothingFollows(s.startTs);
    PrepareKeeps(s, o);
    var p := Prepare(s, o);
    var w := Widen(p, o.price);
    WalkFollows(w, o.ts, Closes(w.lastClose, o.price, w.size, w.grid, Budget(room)));
  }

  /** In a run that is never switched off the bricks tile time. */
  lemma {:induction false} TimesChain(s: State, es: Run)
    requires s.live && Kept(es)
    ensures Follows(s.startTs, Out(s, es))
    ensures After(s, es).startTs == EndTs(s.startTs, Out(s, es))
  {
    hide Feed, Follows;
    if es != [] {
      var front, e := es[..|es| - 1], es[|es| - 1];
      var m := After(s, front);
      TimesChain(s, front);
      StillCounting(s, front);
      if e.Tick? {
        TickFollows(m, e.o, e.room);
      } else {
        NothingFollows(m.startTs);
      }
      FollowsAppend(s.startTs, Out(s, front), Do(m, e).bricks);
    } else {
      NothingFollows(s.startTs);
    }
  }

  lemma {:induction false} NothingFollows(t: int)
    ensures Follows(t, []) && EndTs(t, []) == t
  {
  }

  /** From the first tick of a fresh generator the bricks tile time starting at that tick. */
  lemma {:induction false} FreshRunTilesTime(c: Config, o: Obs, es: Run)
    requires Kept(es)
    ensures Follows(o.ts, Out(Start(Fresh(c), o), es))
  {
    hide Follows, Out, Snap, Resize;
    StartsNow(Fresh(c), o);
    TimesChain(Start(Fresh(c), o), es);
  }

  lemma {:induction false} StartsNow(s: State, o: Obs)
    ensures Start(s, o).startTs == o.ts && Start(s, o).live
  {
  }

  /** A generator primed by a seed has no start time: its first brick opens at time 0. */
  lemma {:induction false} SeededRunOpensAtZero(c: Config, last: real, es: Run)
    requires last > 0.0 && Kept(es) && Out(Seeded(Fresh(c), last), es) != []
    ensures Out(Seeded(Fresh(c), last), es)[0].openTs == 0
  {
    hide Out;
    TimesChain(Seeded(Fresh(c), last), es);
  }

  // ---- A consumer that fails ----

  /** The first close a budget pays for, if any. */
  lemma {:induction false} FirstClose(last: real, price: real, size: real, grid: real, n: nat)
    requires Closes(last, price, size, grid, n) != []
    ensures n > 0
    ensures var c := Closes(last, price, size, grid, n)[0];
            forall k: nat :: k > 0 ==> Closes(last, price, size, grid, k) == [c] + Closes(c, price, size, grid, k - 1)
  {
    hide Snap;
  }

  lemma {:induction false} ClosesSplit(last: real, price: real, size: real, grid: real, a: nat, b: nat)
    requires |Closes(last, price, size, grid, a)| == a
    ensures Closes(last, price, size, grid, a + b)
         == Closes(last, price, size, grid, a)
            + Closes(Anchor(last, Closes(last, price, size, grid, a)), price, size, grid, b)
    decreases a
  {
    hide Closes, Anchor;
    if a == 0 {
      AnchorOfNone(last);
    } else {
      FirstClose(last, price, size, grid, a);
      var c := Closes(last, price, size, grid, a)[0];
      ClosesSplit(c, price, size, grid, a - 1, b);
      AnchorCons(last, c, Closes(c, price, size, grid, a - 1));
    }
  }

  lemma {:induction false} AnchorOfNone(last: real)
    ensures Anchor(last, []) == last
  {
  }

  /** The prices at which bricks close. */
  function ClosesOf(bs: seq<Brick>): (cs: seq<real>)
    ensures |cs| == |bs| && forall i :: 0 <= i < |bs| ==> cs[i] == bs[i].close
  {
    seq(|bs|, i requires 0 <= i < |bs| => bs[i].close)
  }

  /** A failed write loses no brick: the next tick of the half hour at the same price goes on with the
      walk where it broke off, under a cap of its own; together they lay what one tick with room for
      both would have laid, as far as that is within one cap. */
  lemma {:induction false} FailedTickResumes(s: State, o: Obs, again: Obs, room: nat, rest: nat)
    requires Sound(s) && s.live && !Feed(s, o, room).ok
    requires again.price == o.price && !Due(Feed(s, o, room).next, again)
    ensures var p := Prepare(s, o);
            var laid := ClosesOf(Feed(s, o, room).bricks) + ClosesOf(Feed(Feed(s, o, room).next, again, rest).bricks);
            && laid == Closes(p.lastClose, o.price, p.size, p.grid, room + Budget(rest))
            && (room + rest <= MAX_BRICKS ==> laid == ClosesOf(Feed(s, o, room + rest).bricks))
  {
    hide Snap, Abs, Anchor, HighLow, Snapped, GridStepForBrick, BB.Wrap32, HalfHour, Resize, Raise, Lower;
    hide Closes, BricksOf, Prepare;
    FailedTick(s, o, room);
    PrepareKeeps(s, o);
    var p := Prepare(s, o);
    var cs := Closes(p.lastClose, o.price, p.size, p.grid, room);
    var n := Feed(s, o, room).next;
    UnsizedTick(n, again);
    ClosesSplit(p.lastClose, o.price, p.size, p.grid, room, Budget(rest));
    TickCloses(s, o, room);
    TickCloses(s, o, room + rest);
    TickCloses(n, again, rest);
  }

  /** What a failed tick leaves: as many bricks as there was room for, and the anchor after them. */
  lemma {:induction false} FailedTick(s: State, o: Obs, room: nat)
    requires Sound(s) && s.live && !Feed(s, o, room).ok
    ensures var n, p := Feed(s, o, room).next, Prepare(s, o);
            var cs := Closes(p.lastClose, o.price, p.size, p.grid, room);
            && room < MAX_BRICKS && |cs| == room && Trades(p, o)
            && n.live && n.size == p.size && n.grid == p.grid && n.lastClose == Anchor(p.lastClose, cs)
  {
    hide Snap, Abs, HighLow, Snapped, GridStepForBrick, Raise, Lower, Closes, BricksOf, Prepare;
    PrepareSound(s, o);
    PrepareKeeps(s, o);
    var p := Prepare(s, o);
    TickSettles(p.lastClose, o.price, p.size, p.grid, Budget(room));
  }

  lemma {:induction false} UnsizedTick(s: State, o: Obs)
    requires !Due(s, o)
    ensures var p := Prepare(s, o);
            p.live == s.live && p.size == s.size && p.grid == s.grid && p.lastClose == s.lastClose
  {
    hide HalfHour, Resize, Snap, BB.Wrap32;
  }

  /** The closes of the bricks of one tick. */
  lemma {:induction false} TickCloses(s: State, o: Obs, room: nat)
    requires s.live && Trades(Prepare(s, o), o)
    ensures var p := Prepare(s, o);
            ClosesOf(Feed(s, o, room).bricks) == Closes(p.lastClose, o.price, p.size, p.grid, Budget(room))
  {
    hide Prepare, Closes, BricksOf, Abs, Anchor, Raise, Lower;
    var p := Prepare(s, o);
    var w := Widen(p, o.price);
    BricksClose(w, o.ts, Closes(p.lastClose, o.price, p.size, p.grid, Budget(room)));
  }

  lemma {:induction false} BricksClose(s: State, ts: int, cs: seq<real>)
    ensures ClosesOf(BricksOf(s, ts, cs)) == cs
  {
    hide HighLow, Prev;
  }
}
