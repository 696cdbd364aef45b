/** The closes one price lays down: brick after brick until the price is less than a brick away. */
module RenkoWalk {
  import opened Grid

  const MAX_BRICKS: nat := 1000

  /** What the engine keeps of a positive size and its grid. */
  predicate Sized(size: real, grid: real) { Snapped(size) && grid == GridStepForBrick(size) }

  /** The closes from the anchor `last` towards `price`, at most `budget` of them. */
  function Closes(last: real, price: real, size: real, grid: real, budget: nat): seq<real>
    decreases budget
  {
    if budget == 0 then []
    else if price - last >= size then
      var c := Snap(last + size, grid); [c] + Closes(c, price, size, grid, budget - 1)
    else if last - price >= size then
      var c := Snap(last - size, grid); [c] + Closes(c, price, size, grid, budget - 1)
    else []
  }

  /** The close before the `i`-th one. */
  function Prev(last: real, cs: seq<real>, i: nat): real
    requires i < |cs|
  {
    if i == 0 then last else cs[i - 1]
  }

  /** The anchor once the closes are laid. */
  function Anchor(last: real, cs: seq<real>): real { if cs == [] then last else cs[|cs| - 1] }

  /** Every close moves up (down) by the size, give or take half a grid step. */
  predicate Ascends(last: real, cs: seq<real>, size: real, grid: real) {
    forall i :: 0 <= i < |cs| ==> Abs(cs[i] - Prev(last, cs, i) - size) <= grid / 2.0 && cs[i] > Prev(last, cs, i)
  }

  predicate Descends(last: real, cs: seq<real>, size: real, grid: real) {
    forall i :: 0 <= i < |cs| ==> Abs(Prev(last, cs, i) - cs[i] - size) <= grid / 2.0 && cs[i] < Prev(last, cs, i)
  }

  /** One brick moves strictly, by the size within half a grid step; the source's guard against a
      close that does not move never fires. */
  lemma {:induction false} StepMoves(last: real, size: real, grid: real)
    requires Sized(size, grid)
    ensures Abs(Snap(last + size, grid) - (last + size)) <= grid / 2.0
    ensures Abs(Snap(last - size, grid) - (last - size)) <= grid / 2.0
    ensures 0.0 < 500.0 * grid <= size
    ensures Snap(last - size, grid) < last < Snap(last + size, grid)
  {
    BrickOnGrid(size);
    SnapNearest(last + size, grid, 0);
    SnapNearest(last - size, grid, 0);
    hide Snap, At, Snapped, GridStepForBrick;
  }

  lemma {:induction false} PrevTail(last: real, c: real, tail: seq<real>, i: nat)
    requires i < |tail|
    ensures Prev(last, [c] + tail, i + 1) == Prev(c, tail, i)
  {
  }

  lemma {:induction false} AscendsCons(last: real, c: real, tail: seq<real>, size: real, grid: real)
    requires Abs(c - last - size) <= grid / 2.0 && c > last && Ascends(c, tail, size, grid)
    ensures Ascends(last, [c] + tail, size, grid)
  {
    var cs := [c] + tail;
    forall i | 0 <= i < |cs|
      ensures Abs(cs[i] - Prev(last, cs, i) - size) <= grid / 2.0 && cs[i] > Prev(last, cs, i)
    {
      if i > 0 {
        PrevTail(last, c, tail, i - 1);
        assert cs[i] == tail[i - 1];
      }
    }
  }

  lemma {:induction false} DescendsCons(last: real, c: real, tail: seq<real>, size: real, grid: real)
    requires Abs(last - c - size) <= grid / 2.0 && c < last && Descends(c, tail, size, grid)
    ensures Descends(last, [c] + tail, size, grid)
  {
    var cs := [c] + tail;
    forall i | 0 <= i < |cs|
      ensures Abs(Prev(last, cs, i) - cs[i] - size) <= grid / 2.0 && cs[i] < Prev(last, cs, i)
    {
      if i > 0 {
        PrevTail(last, c, tail, i - 1);
        assert cs[i] == tail[i - 1];
      }
    }
  }

  lemma {:induction false} AnchorCons(last: real, c: real, tail: seq<real>)
    ensures Anchor(last, [c] + tail) == Anchor(c, tail)
  {
  }

  /** A price not a brick below the anchor only raises it. */
  lemma {:induction false} Climbs(last: real, price: real, size: real, grid: real, budget: nat)
    requires Sized(size, grid) && last - price < size
    ensures var cs := Closes(last, price, size, grid, budget);
            && |cs| <= budget
            && (cs == [] <==> budget == 0 || price - last < size)
            && Ascends(last, cs, size, grid)
            && (|cs| < budget ==> Abs(price - Anchor(last, cs)) < size)
    decreases budget
  {
    hide Snap, Snapped, GridStepForBrick;
    if budget > 0 && price - last >= size {
      var c := Snap(last + size, grid);
      StepMoves(last, size, grid);
      var tail := Closes(c, price, size, grid, budget - 1);
      assert Closes(last, price, size, grid, budget) == [c] + tail;
      hide Closes, Ascends;
      Climbs(c, price, size, grid, budget - 1);
      AscendsCons(last, c, tail, size, grid);
      AnchorCons(last, c, tail);
      hide Anchor;
    }
  }

  /** A price not a brick above the anchor only lowers it. */
  lemma {:induction false} Falls(last: real, price: real, size: real, grid: real, budget: nat)
    requires Sized(size, grid) && price - last < size
    ensures var cs := Closes(last, price, size, grid, budget);
            && |cs| <= budget
            && (cs == [] <==> budget == 0 || last - price < size)
            && Descends(last, cs, size, grid)
            && (|cs| < budget ==> Abs(price - Anchor(last, cs)) < size)
    decreases budget
  {
    hide Snap, Snapped, GridStepForBrick;
    if budget > 0 && last - price >= size {
      var c := Snap(last - size, grid);
      StepMoves(last, size, grid);
      var tail := Closes(c, price, size, grid, budget - 1);
      assert Closes(last, price, size, grid, budget) == [c] + tail;
      hide Closes, Descends;
      Falls(c, price, size, grid, budget - 1);
      DescendsCons(last, c, tail, size, grid);
      AnchorCons(last, c, tail);
      hide Anchor;
    }
  }

  /** One price lays bricks in one direction only, each strictly, each of the size within half a
      grid step; they stop at the budget or with the price less than a brick away. */
  lemma {:induction false} TickSettles(last: real, price: real, size: real, grid: real, budget: nat)
    requires Sized(size, grid)
    ensures var cs := Closes(last, price, size, grid, budget);
            && |cs| <= budget
            && (cs == [] <==> budget == 0 || Abs(price - last) < size)
            && (price >= last ==> Ascends(last, cs, size, grid))
            && (price <= last ==> Descends(last, cs, size, grid))
            && (|cs| < budget ==> Abs(price - Anchor(last, cs)) < size)
  {
    if price > last {
      Climbs(last, price, size, grid, budget);
    } else if price < last {
      Falls(last, price, size, grid, budget);
    } else {
      Climbs(last, price, size, grid, budget);
      Falls(last, price, size, grid, budget);
    }
    hide Closes, Ascends, Descends, Anchor, Snapped, GridStepForBrick;
  }

  // ---- Exact bodies and counts ----

  /** The body of every brick from a grid price: the size itself when it lies on the close grid,
      and half a step more going up or half a step less going down when it lies between. */
  function Body(size: real, grid: real, up: bool): real
    requires grid > 0.0
  {
    if OnGrid(size, grid) then size else if up then size + grid / 2.0 else size - grid / 2.0
  }

  lemma {:induction false} BodyExact(last: real, size: real, grid: real)
    requires Sized(size, grid) && OnGrid(last, grid)
    ensures last + size >= 0.0 ==> Snap(last + size, grid) == last + Body(size, grid, true)
    ensures last - size >= 0.0 ==> Snap(last - size, grid) == last - Body(size, grid, false)
    ensures 0.0 < Body(size, grid, false) <= size <= Body(size, grid, true)
  {
    StepMoves(last, size, grid);
    BrickOnGrid(size);
    hide Snap, Snapped, OnHalf, GridStepForBrick;
    if OnGrid(size, grid) {
      GridPlusGrid(last, size, grid);
    } else {
      GridPlusHalf(last, size, grid);
      SnapHalf(last + size, grid);
      SnapHalf(last - size, grid);
    }
  }

  /** How many bricks of this body a move pays for. */
  function Paid(move: real, size: real, body: real): int
    requires body > 0.0
  {
    if move < size then 0 else Ratio(move - size, body).Floor + 1
  }

  lemma {:induction false} RatioUnits(step: real)
    requires step > 0.0
    ensures Ratio(0.0, step) == 0.0 && Ratio(step, step) == 1.0
  {
    assert At(0, step) == 0.0 && At(1, step) == step;
    RatioOfMultiple(0, step);
    RatioOfMultiple(1, step);
  }

  lemma {:induction false} PaidStep(move: real, size: real, body: real)
    requires body > 0.0 && size > 0.0 && move >= size
    ensures Paid(move, size, body) == Paid(move - body, size, body) + 1
  {
    RatioOrder(0.0, move - size, body);
    RatioOrder(body, move - size, body);
    RatioAdds(move - size, body, body);
    RatioUnits(body);
    assert move - body - size == (move - size) - body;
    hide Ratio;
  }

  lemma {:induction false} PaidBase(move: real, size: real, body: real)
    requires body > 0.0
    ensures Paid(move, size, body) >= 0
    ensures Paid(move, size, body) == 0 <==> move < size
  {
    RatioOrder(0.0, move - size, body);
    RatioUnits(body);
    hide Ratio;
  }

  /** On a size that lies on the grid that is the move divided by the size. */
  lemma {:induction false} PaidWhole(move: real, size: real)
    requires size > 0.0 && move >= 0.0
    ensures Paid(move, size, size) == Ratio(move, size).Floor
  {
    RatioOrder(0.0, move, size);
    RatioOrder(size, move, size);
    RatioAdds(move, size, size);
    RatioUnits(size);
    hide Ratio;
  }

  predicate Even(last: real, cs: seq<real>, step: real) {
    forall i :: 0 <= i < |cs| ==> cs[i] == Prev(last, cs, i) + step
  }

  lemma {:induction false} EvenCons(last: real, tail: seq<real>, step: real)
    requires Even(last + step, tail, step)
    ensures Even(last, [last + step] + tail, step)
  {
    var cs := [last + step] + tail;
    forall i | 0 <= i < |cs|
      ensures cs[i] == Prev(last, cs, i) + step
    {
      if i > 0 {
        PrevTail(last, last + step, tail, i - 1);
        assert cs[i] == tail[i - 1];
      }
    }
  }

  /** From a grid anchor an upward tick lays equal bricks, exactly as many as the move pays for,
      up to the budget. */
  lemma {:induction false} ClimbsExactly(last: real, price: real, size: real, grid: real, budget: nat)
    requires Sized(size, grid) && OnGrid(last, grid) && last + size >= 0.0 && last - price < size
    ensures var cs, b := Closes(last, price, size, grid, budget), Body(size, grid, true);
            && b > 0.0 && Even(last, cs, b)
            && |cs| == (if Paid(price - last, size, b) < budget then Paid(price - last, size, b) else budget)
    decreases budget
  {
    hide Snap, Snapped, GridStepForBrick, Paid, Body;
    var b := Body(size, grid, true);
    BodyExact(last, size, grid);
    StepMoves(last, size, grid);
    SnapOnGrid(last + size, grid);
    PaidBase(price - last, size, b);
    if budget > 0 && price - last >= size {
      var tail := Closes(last + b, price, size, grid, budget - 1);
      assert Closes(last, price, size, grid, budget) == [last + b] + tail;
      hide Closes, Even;
      ClimbsExactly(last + b, price, size, grid, budget - 1);
      EvenCons(last, tail, b);
      PaidStep(price - last, size, b);
      assert price - (last + b) == price - last - b;
    }
  }

  /** And a downward tick towards a positive price. */
  lemma {:induction false} FallsExactly(last: real, price: real, size: real, grid: real, budget: nat)
    requires Sized(size, grid) && OnGrid(last, grid) && price > 0.0 && price - last < size
    ensures var cs, b := Closes(last, price, size, grid, budget), Body(size, grid, false);
            && b > 0.0 && Even(last, cs, -b)
            && |cs| == (if Paid(last - price, size, b) < budget then Paid(last - price, size, b) else budget)
    decreases budget
  {
    hide Snap, Snapped, GridStepForBrick, Paid, Body;
    var b := Body(size, grid, false);
    BodyExact(last, size, grid);
    StepMoves(last, size, grid);
    SnapOnGrid(last - size, grid);
    PaidBase(last - price, size, b);
    if budget > 0 && last - price >= size {
      var tail := Closes(last - b, price, size, grid, budget - 1);
      assert Closes(last, price, size, grid, budget) == [last - b] + tail;
      hide Closes, Even;
      FallsExactly(last - b, price, size, grid, budget - 1);
      EvenCons(last, tail, -b);
      PaidStep(last - price, size, b);
      assert last - b - price == last - price - b;
      assert last + -b == last - b;
    }
  }

  /** With the size on its close grid the count is the move divided by the size, up to the budget. */
  lemma {:induction false} WholeBricks(last: real, price: real, size: real, grid: real, budget: nat)
    requires Sized(size, grid) && OnGrid(last, grid) && OnGrid(size, grid) && last >= 0.0 && price > 0.0
    ensures var n := Ratio(Abs(price - last), size).Floor;
            |Closes(last, price, size, grid, budget)| == if n < budget then n else budget
  {
    assert Body(size, grid, true) == Body(size, grid, false) == size;
    PaidWhole(Abs(price - last), size);
    hide Snap, Snapped, GridStepForBrick, Paid, Body, Closes, Even;
    if price >= last {
      ClimbsExactly(last, price, size, grid, budget);
    } else {
      FallsExactly(last, price, size, grid, budget);
    }
  }
}
