/**
 * Day 6 ("Chronal Coordinates"): the nearest-point grid.
 *
 * Positions are pairs of 16-bit unsigned coordinates. For a target, the
 * closest position is the one whose Manhattan distance is strictly smaller
 * than every other entry's; when the smallest distance is shared (even by
 * two equal entries) or the list is empty there is none. The grid covers
 * the bounding box from (0, 0) to the largest coordinates seen and holds
 * the closest position of every cell.
 */
module ChronalCoordinates {
  import opened Wrappers

  type U16 = x: int | 0 <= x < 0x1_0000

  datatype Position = Position(x: U16, y: U16)
  {
    /**
     * Manhattan distance, computed on signed differences; it is zero only
     * from a position to itself, and never exceeds 2 * 65535, so the final
     * cast to 32 bits keeps it exactly.
     */
    function DistanceFrom(other: Position): (d: nat)
      ensures d == 0 <==> this == other
      ensures d <= 2 * 0xFFFF
    {
      Abs(x - other.x) + Abs(y - other.y)
    }
  }

  function Abs(n: int): nat
  {
    if n < 0 then -n else n
  }

  /** Distance is a metric: zero only from a position to itself, symmetric, and obeys the triangle inequality. */
  lemma DistanceIsMetric(p: Position, q: Position, r: Position)
    ensures p.DistanceFrom(q) == 0 <==> p == q
    ensures p.DistanceFrom(q) == q.DistanceFrom(p)
    ensures p.DistanceFrom(r) <= p.DistanceFrom(q) + q.DistanceFrom(r)
  {
  }

  /** The distance from (1, 2) to itself is 0; from (0, 0) to (1, 1) it is 2. */
  lemma DistanceExamples()
    ensures Position(1, 2).DistanceFrom(Position(1, 2)) == 0
    ensures Position(0, 0).DistanceFrom(Position(1, 1)) == 2
  {
  }

  // ---------------------------------------------------------------------
  // Closest position
  // ---------------------------------------------------------------------

  /** The tracker of the smallest distance seen so far. */
  datatype MinDistance = Unique(position: Position, distance: nat) | NonUnique(distance: nat) | NoneSeen

  /** Entry `i` is strictly closer to `target` than every other entry. */
  ghost predicate UniquelyClosest(target: Position, positions: seq<Position>, i: int)
  {
    0 <= i < |positions|
    && forall j :: 0 <= j < |positions| && j != i ==>
         positions[i].DistanceFrom(target) < positions[j].DistanceFrom(target)
  }

  /** `r` names the uniquely closest entry, or is `None` when there is none. */
  ghost predicate IsClosestAnswer(r: Option<Position>, target: Position, positions: seq<Position>)
  {
    match r
    case Some(p) => exists i :: UniquelyClosest(target, positions, i) && positions[i] == p
    case None => forall i :: !UniquelyClosest(target, positions, i)
  }

  /** At most one entry is uniquely closest, so the answer is determined. */
  lemma ClosestAnswerUnique(r1: Option<Position>, r2: Option<Position>, target: Position, positions: seq<Position>)
    requires IsClosestAnswer(r1, target, positions) && IsClosestAnswer(r2, target, positions)
    ensures r1 == r2
  {
    if r1.Some? && r2.Some? {
      var i1 :| UniquelyClosest(target, positions, i1) && positions[i1] == r1.value;
      var i2 :| UniquelyClosest(target, positions, i2) && positions[i2] == r2.value;
      if i1 != i2 {
        assert false;
      }
    }
  }

  /**
   * Scans the entries once, keeping the smallest distance seen and whether
   * it was seen once (with its position) or more than once.
   */
  method Closest(target: Position, positions: seq<Position>) returns (r: Option<Position>)
    ensures IsClosestAnswer(r, target, positions)
  {
    var minDistanceTracker := NoneSeen;
    ghost var winner: int := 0;
    ghost var first: int := 0;
    ghost var second: int := 0;
    for k := 0 to |positions|
      invariant minDistanceTracker.NoneSeen? <==> k == 0
      invariant minDistanceTracker.Unique? ==>
                  0 <= winner < k && minDistanceTracker.position == positions[winner]
                  && minDistanceTracker.distance == positions[winner].DistanceFrom(target)
                  && forall j :: 0 <= j < k && j != winner ==>
                       positions[winner].DistanceFrom(target) < positions[j].DistanceFrom(target)
      invariant minDistanceTracker.NonUnique? ==>
                  0 <= first < second < k
                  && positions[first].DistanceFrom(target) == minDistanceTracker.distance
                  && positions[second].DistanceFrom(target) == minDistanceTracker.distance
                  && forall j :: 0 <= j < k ==> minDistanceTracker.distance <= positions[j].DistanceFrom(target)
    {
      var p := positions[k];
      var distance := p.DistanceFrom(target);
      match minDistanceTracker {
        case Unique(_, minDistance) =>
          if distance < minDistance {
            minDistanceTracker := Unique(p, distance);
            winner := k;
          } else if distance == minDistance {
            minDistanceTracker := NonUnique(distance);
            first, second := winner, k;
          }
        case NonUnique(minDistance) =>
          if distance < minDistance {
            minDistanceTracker := Unique(p, distance);
            winner := k;
          }
        case NoneSeen =>
          minDistanceTracker := Unique(p, distance);
          winner := k;
      }
    }
    match minDistanceTracker {
      case Unique(p, _) =>
        r := Some(p);
        assert UniquelyClosest(target, positions, winner);
      case NonUnique(_) =>
        r := None;
        TieHasNoWinner(target, positions, first, second);
      case NoneSeen =>
        r := None;
    }
  }

  /** Two entries at a smallest distance leave no entry uniquely closest. */
  lemma TieHasNoWinner(target: Position, positions: seq<Position>, first: int, second: int)
    requires 0 <= first < second < |positions|
    requires positions[first].DistanceFrom(target) == positions[second].DistanceFrom(target)
    requires forall j :: 0 <= j < |positions| ==>
               positions[first].DistanceFrom(target) <= positions[j].DistanceFrom(target)
    ensures forall i :: !UniquelyClosest(target, positions, i)
  {
  }

  /** With entries (1, 2) and (3, 4), the target (5, 6) is closest to (3, 4). */
  lemma ClosestTwoPointsExample(r: Option<Position>, positions: seq<Position>)
    requires positions == [Position(1, 2), Position(3, 4)]
    requires IsClosestAnswer(r, Position(5, 6), positions)
    ensures r == Some(Position(3, 4))
  {
    assert UniquelyClosest(Position(5, 6), positions, 1);
    ClosestAnswerUnique(r, Some(Position(3, 4)), Position(5, 6), positions);
  }

  // ---------------------------------------------------------------------
  // The grid
  // ---------------------------------------------------------------------

  /** Folds the componentwise maximum over the entries, starting from `acc`. */
  function FoldMax(acc: Position, positions: seq<Position>): (r: Position)
    ensures acc.x <= r.x && acc.y <= r.y
    ensures forall i :: 0 <= i < |positions| ==> positions[i].x <= r.x && positions[i].y <= r.y
    ensures r.x == acc.x || exists i :: 0 <= i < |positions| && r.x == positions[i].x
    ensures r.y == acc.y || exists i :: 0 <= i < |positions| && r.y == positions[i].y
    decreases |positions|
  {
    if |positions| == 0 then acc
    else
      var p := positions[0];
      var r := FoldMax(Position(if acc.x < p.x then p.x else acc.x, if acc.y < p.y then p.y else acc.y), positions[1..]);
      assert forall i :: 1 <= i < |positions| ==> positions[i] == positions[1..][i - 1];
      r
  }

  /** The far corner of the bounding box, folded from (0, 0). */
  function MaxPosition(positions: seq<Position>): Position
  {
    FoldMax(Position(0, 0), positions)
  }

  /** Cell (x, y) holds the closest position to (x, y). */
  ghost predicate CellHolds(cell: Option<Position>, x: int, y: int, positions: seq<Position>)
  {
    0 <= x < 0x1_0000 && 0 <= y < 0x1_0000 && IsClosestAnswer(cell, Position(x, y), positions)
  }

  /** Row `y` has `width` cells, each holding its closest position. */
  ghost predicate RowHolds(row: seq<Option<Position>>, y: int, width: int, positions: seq<Position>)
  {
    |row| == width && forall x :: 0 <= x < |row| ==> CellHolds(row[x], x, y, positions)
  }

  /** The grid spans the bounding box, row by row. */
  ghost predicate GridHolds(grid: seq<seq<Option<Position>>>, positions: seq<Position>)
  {
    var corner := MaxPosition(positions);
    |grid| == corner.y + 1
    && forall y :: 0 <= y < |grid| ==> RowHolds(grid[y], y, corner.x + 1, positions)
  }

  /** Builds the grid row by row, a cell at a time. */
  method CreateGrid(positions: seq<Position>) returns (grid: seq<seq<Option<Position>>>)
    ensures GridHolds(grid, positions)
  {
    var maxPosition := MaxPosition(positions);
    grid := [];
    for y := 0 to maxPosition.y + 1
      invariant |grid| == y
      invariant forall yy :: 0 <= yy < y ==> RowHolds(grid[yy], yy, maxPosition.x + 1, positions)
    {
      grid := grid + [[]];
      for x := 0 to maxPosition.x + 1
        invariant |grid| == y + 1
        invariant forall yy :: 0 <= yy < y ==> RowHolds(grid[yy], yy, maxPosition.x + 1, positions)
        invariant |grid[y]| == x
        invariant forall xx :: 0 <= xx < x ==> CellHolds(grid[y][xx], xx, y, positions)
      {
        var target := Position(x, y);
        var cell := Closest(target, positions);
        grid := grid[y := grid[y] + [cell]];
      }
    }
  }

  /** The bounding box of (0, 0) and (1, 1) has its far corner at (1, 1). */
  lemma GridExampleCorner(positions: seq<Position>)
    requires positions == [Position(0, 0), Position(1, 1)]
    ensures MaxPosition(positions) == Position(1, 1)
  {
    var corner := MaxPosition(positions);
    assert corner.x >= positions[1].x && corner.y >= positions[1].y;
  }

  /** In the example, each of the two positions wins its own cell. */
  lemma GridExampleOwnCell(cell: Option<Position>, i: int, positions: seq<Position>)
    requires positions == [Position(0, 0), Position(1, 1)] && 0 <= i < 2
    requires IsClosestAnswer(cell, positions[i], positions)
    ensures cell == Some(positions[i])
  {
    assert UniquelyClosest(positions[i], positions, i);
    ClosestAnswerUnique(cell, Some(positions[i]), positions[i], positions);
  }

  /** Cells (1, 0) and (0, 1) are one step from both example positions, so neither wins. */
  lemma GridExampleTie(target: Position, positions: seq<Position>)
    requires positions == [Position(0, 0), Position(1, 1)]
    requires target == Position(1, 0) || target == Position(0, 1)
    ensures IsClosestAnswer(None, target, positions)
  {
    forall i | 0 <= i < |positions|
      ensures !UniquelyClosest(target, positions, i)
    {
      assert positions[i].DistanceFrom(target) == 1 == positions[1 - i].DistanceFrom(target);
    }
  }

  /** In the example, cells (1, 0) and (0, 1) are one step from both positions. */
  lemma GridExampleTieCell(cell: Option<Position>, target: Position, positions: seq<Position>)
    requires positions == [Position(0, 0), Position(1, 1)]
    requires target == Position(1, 0) || target == Position(0, 1)
    requires IsClosestAnswer(cell, target, positions)
    ensures cell == None
  {
    GridExampleTie(target, positions);
    ClosestAnswerUnique(cell, None, target, positions);
  }

  /** Row 0 of the example grid: (0, 0) wins its own cell, (1, 0) is a tie. */
  lemma GridExampleRowZero(row: seq<Option<Position>>, positions: seq<Position>)
    requires positions == [Position(0, 0), Position(1, 1)]
    requires RowHolds(row, 0, 2, positions)
    ensures row == [Some(Position(0, 0)), None]
  {
    assert CellHolds(row[0], 0, 0, positions) && CellHolds(row[1], 1, 0, positions);
    GridExampleOwnCell(row[0], 0, positions);
    GridExampleTieCell(row[1], Position(1, 0), positions);
  }

  /** Row 1 of the example grid: (0, 1) is a tie, (1, 1) wins its own cell. */
  lemma GridExampleRowOne(row: seq<Option<Position>>, positions: seq<Position>)
    requires positions == [Position(0, 0), Position(1, 1)]
    requires RowHolds(row, 1, 2, positions)
    ensures row == [None, Some(Position(1, 1))]
  {
    assert CellHolds(row[0], 0, 1, positions) && CellHolds(row[1], 1, 1, positions);
    GridExampleTieCell(row[0], Position(0, 1), positions);
    GridExampleOwnCell(row[1], 1, positions);
  }

  /** The grid of (0, 0) and (1, 1): each is closest to its own cell, the other two cells are ties. */
  lemma GridExample(grid: seq<seq<Option<Position>>>, positions: seq<Position>)
    requires positions == [Position(0, 0), Position(1, 1)]
    requires GridHolds(grid, positions)
    ensures grid == [[Some(Position(0, 0)), None], [None, Some(Position(1, 1))]]
  {
    GridExampleCorner(positions);
    assert RowHolds(grid[0], 0, 2, positions) && RowHolds(grid[1], 1, 2, positions);
    GridExampleRowZero(grid[0], positions);
    GridExampleRowOne(grid[1], positions);
  }
}
