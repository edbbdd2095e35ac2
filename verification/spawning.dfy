/** Ship arrivals (`step` and `spawn_ship` in mesa/model.py): the fleet is
    released over the first `spawn_duration` steps, each step releasing the
    remaining ships divided by the steps left, rounded up; every new ship
    starts on a water cell of the bottom row when there is one.
 */
module Spawning {
  import opened Base
  import opened Grid

  /** Steps over which the fleet is released. */
  const SpawnDuration: int := 5

  /** Columns of the bottom row searched for a starting cell. */
  const BottomColumns: int := 38

  /** `math.ceil(a / b)` for a non-negative numerator and positive divisor. */
  function CeilDiv(a: nat, b: nat): (q: nat)
    requires b > 0
    ensures q * b >= a
    ensures a > 0 ==> (q - 1) * b < a
    ensures a == 0 ==> q == 0
  {
    var q := (a + b - 1) / b;
    assert (a + b - 1) == q * b + (a + b - 1) % b;
    q
  }

  /** Ships released at step `step` with `remaining` still to come:
      `ceil(remaining / (duration - step))` while the release lasts, but never
      more than remain (the release loop stops once none remain). */
  function SpawnCount(remaining: int, step: nat, duration: int): (k: nat)
    ensures k <= Max(remaining, 0)
    ensures step < duration && remaining > 0 ==> 1 <= k
    ensures step < duration && remaining > 0 ==> k * (duration - step) >= remaining
    ensures step < duration && remaining > 0 ==> k == CeilDiv(remaining, duration - step)
    ensures !(step < duration && remaining > 0) ==> k == 0
  {
    if step < duration && remaining > 0 then
      var rate := CeilDiv(remaining, duration - step);
      RateWithinRemaining(remaining, duration - step);
      Min(rate, remaining)
    else 0
  }

  /** The rounded-up share never exceeds what remains, so the release loop
      never stops early. */
  lemma RateWithinRemaining(remaining: nat, stepsLeft: nat)
    requires remaining > 0 && stepsLeft > 0
    ensures 1 <= CeilDiv(remaining, stepsLeft) <= remaining
  {
    var q := CeilDiv(remaining, stepsLeft);
    if q > remaining {
      MulMonotone(remaining, q - 1, stepsLeft);
      MulMonotone(1, stepsLeft, remaining);
    }
  }

  lemma MulMonotone(a: nat, b: nat, c: nat)
    requires a <= b
    ensures a * c <= b * c
  {
  }

  /** The last step of the release takes every remaining ship. */
  lemma LastReleaseStepTakesAll(remaining: int, duration: int)
    requires duration > 0
    ensures SpawnCount(remaining, duration - 1, duration) == Max(remaining, 0)
  {
  }

  /** Ships still to come after `n` steps starting at step `step`. */
  function RemainingAfter(remaining: int, step: nat, duration: int, n: nat): int
    decreases n
  {
    if n == 0 then remaining
    else RemainingAfter(remaining - SpawnCount(remaining, step, duration), step + 1, duration, n - 1)
  }

  /** The whole fleet is released by the end of the release window: from
      any step inside it, after the steps that are left no ship remains. */
  lemma {:induction false} AllShipsReleasedInTime(remaining: nat, step: nat, duration: int)
    requires step < duration
    ensures RemainingAfter(remaining, step, duration, duration - step) == 0
    decreases duration - step
  {
    var next := remaining - SpawnCount(remaining, step, duration);
    if step + 1 < duration {
      AllShipsReleasedInTime(next, step + 1, duration);
    } else {
      LastReleaseStepTakesAll(remaining, duration);
      assert RemainingAfter(next, step + 1, duration, 0) == 0;
    }
  }

  /** `RemainingAfter` one step further: the ships left after `n` steps,
      minus the ones the next step releases. */
  lemma {:induction false} RemainingAfterStep(remaining: int, step: nat, duration: int, n: nat)
    ensures var left := RemainingAfter(remaining, step, duration, n);
      RemainingAfter(remaining, step, duration, n + 1) == left - SpawnCount(left, step + n, duration)
    decreases n
  {
    if n > 0 {
      RemainingAfterStep(remaining - SpawnCount(remaining, step, duration), step + 1, duration, n - 1);
    }
  }

  /** From the start of a run, no ship remains to be released at any step
      from the end of the release window on. */
  lemma {:induction false} NothingRemainsAfterWindow(numShips: nat, n: nat)
    requires n >= SpawnDuration
    ensures RemainingAfter(numShips, 0, SpawnDuration, n) == 0
    decreases n
  {
    if n == SpawnDuration {
      AllShipsReleasedInTime(numShips, 0, SpawnDuration);
    } else {
      NothingRemainsAfterWindow(numShips, n - 1);
      RemainingAfterStep(numShips, 0, SpawnDuration, n - 1);
    }
  }

  /** The release is front-loaded: a step never releases more ships than the
      step before it. */
  lemma FrontLoaded(remaining: nat, step: nat, duration: int)
    requires step + 1 < duration
    ensures SpawnCount(remaining - SpawnCount(remaining, step, duration), step + 1, duration)
            <= SpawnCount(remaining, step, duration)
  {
    var k := SpawnCount(remaining, step, duration);
    var m := duration - step;
    var rest := remaining - k;
    if remaining > 0 && rest > 0 {
      // k * m >= remaining, so rest = remaining - k <= k * (m - 1)
      assert k * m == k * (m - 1) + k;
      var q := CeilDiv(rest, m - 1);
      if q > k {
        MulMonotone(k, q - 1, m - 1);
      }
    }
  }

  /** The cells of the bottom row searched for a starting position, in
      order of their column. */
  function BottomRow(width: int): (cells: seq<Pos>)
    ensures forall c :: c in cells <==> c.y == 0 && 0 <= c.x < Min(BottomColumns, width)
  {
    var n := Max(Min(BottomColumns, width), 0);
    var cells := seq(n, x => Pos(x, 0));
    assert forall c: Pos :: c.y == 0 && 0 <= c.x < n ==> cells[c.x] == c;
    cells
  }

  /** Every cell of the grid, column by column. */
  function AllCells(width: nat, height: nat): (cells: seq<Pos>)
    ensures forall c :: c in cells <==> InBounds(c, width, height)
  {
    if width == 0 then []
    else
      var column := seq(height, y => Pos(width - 1, y));
      assert forall c: Pos :: c.x == width - 1 && 0 <= c.y < height ==> column[c.y] == c;
      AllCells(width - 1, height) + column
  }

  /** `spawn_ship`'s starting cell: a random water cell of the first 38
      columns of the bottom row; failing that, a random water cell of the
      grid; failing that, the corner (0, 0). */
  function StartCell(isWater: Terrain, width: nat, height: nat, pick: nat): (c: Pos)
    requires height > 0
    ensures (exists x :: 0 <= x < Min(BottomColumns, width) && isWater(Pos(x, 0)))
            ==> c.y == 0 && 0 <= c.x < Min(BottomColumns, width) && isWater(c)
    ensures (exists p :: InBounds(p, width, height) && isWater(p)) ==> InBounds(c, width, height) && isWater(c)
    ensures (forall p :: InBounds(p, width, height) ==> !isWater(p)) ==> c == Pos(0, 0)
  {
    var bottom := WaterCells(BottomRow(width), isWater);
    var all := WaterCells(AllCells(width, height), isWater);
    if |bottom| > 0 then bottom[pick % |bottom|]
    else if |all| > 0 then
      assert forall x :: 0 <= x < Min(BottomColumns, width) ==> Pos(x, 0) in BottomRow(width);
      all[pick % |all|]
    else
      assert forall p :: InBounds(p, width, height) ==> p in AllCells(width, height);
      Pos(0, 0)
  }

  /** Every water cell of the searched bottom row can be a starting cell. */
  lemma EveryBottomWaterCellCanStart(isWater: Terrain, width: nat, height: nat, x: nat)
    requires height > 0 && x < Min(BottomColumns, width) && isWater(Pos(x, 0))
    ensures exists pick: nat :: StartCell(isWater, width, height, pick) == Pos(x, 0)
  {
    var bottom := WaterCells(BottomRow(width), isWater);
    assert Pos(x, 0) in bottom;
    var i := IndexOf(bottom, Pos(x, 0));
    SmallModulus(i, |bottom|);
    assert StartCell(isWater, width, height, i) == Pos(x, 0);
  }
}
