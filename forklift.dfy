/**
 * The forklift rules of 2025/day-04/src/main.rs: a paper roll can be
 * reached when at most three of its eight neighbours are paper rolls;
 * part two removes every reachable roll, round after round, until none is
 * left reachable, and counts the removals.
 */
module Forklift {
  import opened Wrappers
  import opened Numbers
  import opened PaperGrid

  /** PAPER_ROLL_ACCESSABLE_THRESHOLD: the most neighbouring rolls a reachable roll may have. */
  const Threshold: nat := 3

  // ---------------------------------------------------------------------------
  // Neighbours
  // ---------------------------------------------------------------------------

  /** 1 when (x, y) lies in the grid and holds a paper roll; positions left of or above the grid count 0. */
  function Probe(grid: Grid, x: int, y: int): nat
    reads grid
  {
    if x < 0 || y < 0 then 0
    else if grid.At(Coordinate(x, y)) == Some(PaperRoll) then 1 else 0
  }

  /** The eight positions around c, probed one by one. */
  function NeighborCount(grid: Grid, c: Coordinate): nat
    reads grid
  {
    var x, y := c.x as int, c.y as int;
    Probe(grid, x - 1, y - 1) + Probe(grid, x, y - 1) + Probe(grid, x + 1, y - 1)
    + Probe(grid, x - 1, y) + Probe(grid, x + 1, y)
    + Probe(grid, x - 1, y + 1) + Probe(grid, x, y + 1) + Probe(grid, x + 1, y + 1)
  }

  /** What the inner loop adds for position (x, y): nothing for c itself, else its probe. */
  function Hit(grid: Grid, c: Coordinate, x: nat, y: nat): nat
    reads grid
  {
    if x == c.x && y == c.y then 0 else Probe(grid, x, y)
  }

  /** The inner loop's sum over y in lo..hi for column x. */
  function ColumnSum(grid: Grid, c: Coordinate, x: nat, lo: nat, hi: nat): nat
    reads grid
    decreases hi - lo
  {
    if hi <= lo then 0 else ColumnSum(grid, c, x, lo, hi - 1) + Hit(grid, c, x, hi - 1)
  }

  /** The outer loop's sum over columns lo..hi, each over the rows c.y - 1 (saturating) to c.y + 1. */
  function BlockSum(grid: Grid, c: Coordinate, lo: nat, hi: nat): nat
    reads grid
    decreases hi - lo
  {
    if hi <= lo then 0
    else BlockSum(grid, c, lo, hi - 1) + ColumnSum(grid, c, hi - 1, SaturatingPred(c.y), c.y + 2)
  }

  /** `saturating_sub(1)` on a nat. */
  function SaturatingPred(n: nat): nat {
    if n == 0 then 0 else n - 1
  }

  /** The three rows of column x around c, whichever row c.y - 1 is. */
  lemma ColumnOfThree(grid: Grid, c: Coordinate, x: nat)
    ensures ColumnSum(grid, c, x, SaturatingPred(c.y), c.y + 2)
      == Hit3(grid, c, x)
  {
    var y := c.y;
    assert ColumnSum(grid, c, x, SaturatingPred(y), y + 2)
      == ColumnSum(grid, c, x, SaturatingPred(y), y + 1) + Hit(grid, c, x, y + 1);
    assert ColumnSum(grid, c, x, SaturatingPred(y), y + 1)
      == ColumnSum(grid, c, x, SaturatingPred(y), y) + Hit(grid, c, x, y);
    if y > 0 {
      assert ColumnSum(grid, c, x, y - 1, y) == Hit(grid, c, x, y - 1);
    }
  }

  /** Column x's part of the neighbour count: its probes at rows c.y - 1, c.y and c.y + 1, leaving out c. */
  function Hit3(grid: Grid, c: Coordinate, x: nat): nat
    reads grid
  {
    var y := c.y as int;
    (if x == c.x then 0 else Probe(grid, x, y)) + Probe(grid, x, y - 1) + Probe(grid, x, y + 1)
  }

  /** The loops' block over columns c.x - 1 (saturating) to c.x + 1 is the eight-probe count. */
  lemma BlockIsNeighborCount(grid: Grid, c: Coordinate)
    ensures BlockSum(grid, c, SaturatingPred(c.x), c.x + 2) == NeighborCount(grid, c)
  {
    var x := c.x;
    ColumnOfThree(grid, c, x + 1);
    ColumnOfThree(grid, c, x);
    assert BlockSum(grid, c, SaturatingPred(x), x + 2)
      == BlockSum(grid, c, SaturatingPred(x), x + 1) + Hit3(grid, c, x + 1);
    assert BlockSum(grid, c, SaturatingPred(x), x + 1)
      == BlockSum(grid, c, SaturatingPred(x), x) + Hit3(grid, c, x);
    if x > 0 {
      ColumnOfThree(grid, c, x - 1);
      assert BlockSum(grid, c, x - 1, x) == Hit3(grid, c, x - 1);
    }
  }

  /**
   * count_neighbors: for x and y from one below (saturating at 0) to one
   * above the coordinate, skipping the coordinate itself, count the
   * positions where `at` finds a paper roll.
   */
  method CountNeighbors(grid: Grid, coord: Coordinate) returns (neighbors: nat)
    ensures neighbors == NeighborCount(grid, coord)
    ensures neighbors <= 8
  {
    neighbors := 0;
    var lowX, lowY := SaturatingPred(coord.x), SaturatingPred(coord.y);
    for x := lowX to coord.x + 2
      invariant neighbors == BlockSum(grid, coord, lowX, x)
    {
      for y := lowY to coord.y + 2
        invariant neighbors == BlockSum(grid, coord, lowX, x) + ColumnSum(grid, coord, x, lowY, y)
      {
        if x == coord.x && y == coord.y {
          continue;
        }
        var cell := grid.At(Coordinate(x, y));
        if cell.Some? && cell.value == PaperRoll {
          neighbors := neighbors + 1;
        }
      }
    }
    BlockIsNeighborCount(grid, coord);
  }

  // ---------------------------------------------------------------------------
  // Reachable rolls
  // ---------------------------------------------------------------------------

  /** Buffer position i holds a roll with at most Threshold neighbouring rolls. */
  predicate Reachable(grid: Grid, i: nat)
    reads grid
    requires grid.Valid()
  {
    i < |grid.cells| && grid.cells[i] == PaperRoll
    && NeighborCount(grid, CoordinateOf(i, grid.width)) <= Threshold
  }

  /** The coordinates of the reachable positions among the first n, in buffer order. */
  function ReachableUpTo(grid: Grid, n: nat): seq<Coordinate>
    reads grid
    requires grid.Valid() && n <= |grid.cells|
  {
    if n == 0 then []
    else ReachableUpTo(grid, n - 1) + (if Reachable(grid, n - 1) then [CoordinateOf(n - 1, grid.width)] else [])
  }

  /**
   * paper_roll_locations_accessable_by_forklift: walk the grid's iterator
   * and keep each coordinate whose cell is a roll with at most Threshold
   * neighbouring rolls. The grid is only read.
   */
  method AccessibleLocations(grid: Grid) returns (result: seq<Coordinate>)
    requires grid.Valid()
    ensures result == ReachableUpTo(grid, |grid.cells|)
  {
    result := [];
    var it := grid.Iter();
    while true
      invariant it.grid == grid && it.index <= |grid.cells|
      invariant result == ReachableUpTo(grid, it.index)
      decreases |grid.cells| - it.index
    {
      ghost var i := it.index;
      var next := it.Next();
      if next.None? {
        break;
      }
      var (coord, cell) := next.value;
      assert ReachableUpTo(grid, i + 1) == result + (if Reachable(grid, i) then [coord] else []);
      if cell == PaperRoll {
        var count := CountNeighbors(grid, coord);
        if count <= Threshold {
          result := result + [coord];
        }
      }
    }
  }

  /** Every coordinate of list is that of a reachable buffer position below n. */
  ghost predicate ListsReachable(grid: Grid, list: seq<Coordinate>, n: nat)
    reads grid
    requires grid.Valid()
  {
    forall k | 0 <= k < |list| ::
      && IndexOf(list[k], grid.width) < n
      && Reachable(grid, IndexOf(list[k], grid.width))
      && list[k] == CoordinateOf(IndexOf(list[k], grid.width), grid.width)
  }

  /** The coordinates of list follow strictly increasing row-major order. */
  ghost predicate RowMajorOrdered(list: seq<Coordinate>, width: nat) {
    forall a, b | 0 <= a < b < |list| :: IndexOf(list[a], width) < IndexOf(list[b], width)
  }

  /** Every listed coordinate is that of a reachable buffer position below n. */
  lemma {:induction false} ReachableUpToSound(grid: Grid, n: nat)
    requires grid.Valid() && n <= |grid.cells|
    ensures ListsReachable(grid, ReachableUpTo(grid, n), n)
  {
    if n > 0 {
      var list, before := ReachableUpTo(grid, n), ReachableUpTo(grid, n - 1);
      ReachableUpToSound(grid, n - 1);
      IteratedCellAt(grid, n - 1);
      forall k | 0 <= k < |list|
        ensures && IndexOf(list[k], grid.width) < n
                && Reachable(grid, IndexOf(list[k], grid.width))
                && list[k] == CoordinateOf(IndexOf(list[k], grid.width), grid.width)
      {
        if k < |before| {
          assert list[k] == before[k];
        } else {
          assert list[k] == CoordinateOf(n - 1, grid.width);
        }
      }
    }
  }

  /** The listed coordinates follow strictly increasing row-major order. */
  lemma {:induction false} ReachableUpToOrdered(grid: Grid, n: nat)
    requires grid.Valid() && n <= |grid.cells|
    ensures RowMajorOrdered(ReachableUpTo(grid, n), grid.width)
  {
    if n > 0 {
      var list, before := ReachableUpTo(grid, n), ReachableUpTo(grid, n - 1);
      ReachableUpToOrdered(grid, n - 1);
      ReachableUpToSound(grid, n - 1);
      IteratedCellAt(grid, n - 1);
      forall a, b | 0 <= a < b < |list|
        ensures IndexOf(list[a], grid.width) < IndexOf(list[b], grid.width)
      {
        assert list[a] == before[a];
        if b < |before| {
          assert list[b] == before[b];
        }
      }
    }
  }

  /** Every reachable buffer position below n has its coordinate listed. */
  lemma {:induction false} ReachableUpToComplete(grid: Grid, n: nat, i: nat)
    requires grid.Valid() && n <= |grid.cells| && i < n && Reachable(grid, i)
    ensures CoordinateOf(i, grid.width) in ReachableUpTo(grid, n)
  {
    if i < n - 1 {
      ReachableUpToComplete(grid, n - 1, i);
    }
  }

  /** A buffer position is reachable exactly when the list holds its coordinate. */
  lemma ReachableUpToIsFilter(grid: Grid, i: nat)
    requires grid.Valid() && i < |grid.cells|
    ensures Reachable(grid, i) <==> CoordinateOf(i, grid.width) in ReachableUpTo(grid, |grid.cells|)
  {
    var list := ReachableUpTo(grid, |grid.cells|);
    if Reachable(grid, i) {
      ReachableUpToComplete(grid, |grid.cells|, i);
    }
    if CoordinateOf(i, grid.width) in list {
      ReachableUpToSound(grid, |grid.cells|);
      IteratedCellAt(grid, i);
    }
  }

  /** The reachable list, read as coordinates: in the grid, a roll, at most Threshold neighbours. */
  lemma ReachableListed(grid: Grid, c: Coordinate)
    requires grid.Valid()
    ensures c in ReachableUpTo(grid, |grid.cells|)
      <==> c.x < grid.width && c.y < grid.height && grid.At(c) == Some(PaperRoll) && NeighborCount(grid, c) <= Threshold
  {
    var list := ReachableUpTo(grid, |grid.cells|);
    var w := grid.width;
    if c in list {
      ReachableUpToSound(grid, |grid.cells|);
      var k :| 0 <= k < |list| && list[k] == c;
      IteratedCellAt(grid, IndexOf(c, w));
    }
    if c.x < w && c.y < grid.height && grid.At(c) == Some(PaperRoll) && NeighborCount(grid, c) <= Threshold {
      var i := IndexOf(c, w);
      IndexInside(c.x, c.y, w, grid.height);
      DivModUnique(i, w, c.y, c.x);
      assert CoordinateOf(i, w) == c;
      ReachableUpToComplete(grid, |grid.cells|, i);
    }
  }

  // ---------------------------------------------------------------------------
  // Removing rolls
  // ---------------------------------------------------------------------------

  /** The number of paper rolls in a buffer. */
  function RollCount(cells: seq<Cell>): (n: nat)
    ensures n <= |cells|
  {
    if cells == [] then 0 else (if cells[0] == PaperRoll then 1 else 0) + RollCount(cells[1..])
  }

  /** Emptying a cell that held a roll removes exactly one roll; emptying an empty cell removes none. */
  lemma {:induction false} RollCountClear(cells: seq<Cell>, i: nat)
    requires i < |cells|
    ensures RollCount(cells[i := Empty]) + (if cells[i] == PaperRoll then 1 else 0) == RollCount(cells)
  {
    if i > 0 {
      assert cells[i := Empty][1..] == cells[1..][i - 1 := Empty];
      RollCountClear(cells[1..], i - 1);
    }
  }

  /** The buffer after emptying the listed positions one after the other. */
  function Cleared(cells: seq<Cell>, positions: seq<nat>): (r: seq<Cell>)
    requires forall k | 0 <= k < |positions| :: positions[k] < |cells|
    ensures |r| == |cells|
  {
    if positions == [] then cells
    else Cleared(cells, positions[..|positions| - 1])[positions[|positions| - 1] := Empty]
  }

  /** The positions are distinct positions of the buffer, each holding a roll. */
  ghost predicate DistinctRolls(cells: seq<Cell>, positions: seq<nat>) {
    && (forall k | 0 <= k < |positions| :: positions[k] < |cells| && cells[positions[k]] == PaperRoll)
    && (forall a, b | 0 <= a < b < |positions| :: positions[a] != positions[b])
  }

  /**
   * Emptying k distinct positions that all held rolls removes exactly k
   * rolls; the listed positions end up empty and every other one keeps its
   * cell.
   */
  lemma {:induction false} ClearedRolls(cells: seq<Cell>, positions: seq<nat>)
    requires DistinctRolls(cells, positions)
    ensures RollCount(Cleared(cells, positions)) + |positions| == RollCount(cells)
    ensures forall i | 0 <= i < |cells| ::
      Cleared(cells, positions)[i] == (if i in positions then Empty else cells[i])
  {
    if positions != [] {
      var init := positions[..|positions| - 1];
      var last := positions[|positions| - 1];
      ClearedRolls(cells, init);
      assert last !in init by {
        forall k | 0 <= k < |init| ensures init[k] != last {
          assert init[k] == positions[k];
        }
      }
      RollCountClear(Cleared(cells, init), last);
      assert positions == init + [last];
    }
  }

  /** The buffer positions of a list of coordinates. */
  function IndicesOf(coords: seq<Coordinate>, width: nat): (r: seq<nat>)
    ensures |r| == |coords| && forall k | 0 <= k < |coords| :: r[k] == IndexOf(coords[k], width)
  {
    seq(|coords|, k requires 0 <= k < |coords| => IndexOf(coords[k], width))
  }

  /** The buffer positions of the reachable list are distinct positions of the buffer that hold rolls. */
  lemma ClearingPlan(grid: Grid, locations: seq<Coordinate>)
    requires grid.Valid() && locations == ReachableUpTo(grid, |grid.cells|)
    ensures DistinctRolls(grid.cells, IndicesOf(locations, grid.width))
    ensures forall k | 0 <= k < |locations| :: locations[k] == CoordinateOf(IndicesOf(locations, grid.width)[k], grid.width)
  {
    ReachableUpToSound(grid, |grid.cells|);
    ReachableUpToOrdered(grid, |grid.cells|);
  }

  // ---------------------------------------------------------------------------
  // The removal on a bare buffer
  // ---------------------------------------------------------------------------

  /** Probe on a buffer of the given dimensions, read as `at` reads it. */
  function ProbeIn(cells: seq<Cell>, width: nat, height: nat, x: int, y: int): nat {
    if x < 0 || y < 0 || x >= width || y >= height || x + width * y >= |cells| then 0
    else if cells[x + width * y] == PaperRoll then 1 else 0
  }

  /** The eight positions around c, probed on a buffer. */
  function NeighborsIn(cells: seq<Cell>, width: nat, height: nat, c: Coordinate): nat {
    var x, y := c.x as int, c.y as int;
    ProbeIn(cells, width, height, x - 1, y - 1) + ProbeIn(cells, width, height, x, y - 1)
    + ProbeIn(cells, width, height, x + 1, y - 1) + ProbeIn(cells, width, height, x - 1, y)
    + ProbeIn(cells, width, height, x + 1, y) + ProbeIn(cells, width, height, x - 1, y + 1)
    + ProbeIn(cells, width, height, x, y + 1) + ProbeIn(cells, width, height, x + 1, y + 1)
  }

  /** Buffer position i holds a roll with at most Threshold neighbouring rolls. */
  predicate ReachableIn(cells: seq<Cell>, width: nat, height: nat, i: nat)
    requires width > 0
  {
    i < |cells| && cells[i] == PaperRoll && NeighborsIn(cells, width, height, CoordinateOf(i, width)) <= Threshold
  }

  /** The positions below n that are reachable in one snapshot of the buffer, ascending. */
  function ReachableIndices(cells: seq<Cell>, width: nat, height: nat, n: nat): (ps: seq<nat>)
    requires width > 0 && n <= |cells|
    ensures forall k | 0 <= k < |ps| :: ps[k] < n && ReachableIn(cells, width, height, ps[k])
    ensures forall a, b | 0 <= a < b < |ps| :: ps[a] < ps[b]
  {
    if n == 0 then []
    else
      ReachableIndices(cells, width, height, n - 1)
      + (if ReachableIn(cells, width, height, n - 1) then [n - 1] else [])
  }

  /** Every reachable position below n is taken. */
  lemma {:induction false} ReachableIndicesComplete(cells: seq<Cell>, width: nat, height: nat, n: nat, i: nat)
    requires width > 0 && n <= |cells| && i < n && ReachableIn(cells, width, height, i)
    ensures i in ReachableIndices(cells, width, height, n)
  {
    if i < n - 1 {
      ReachableIndicesComplete(cells, width, height, n - 1, i);
    }
  }

  /** A round that takes nothing leaves a buffer with no reachable roll. */
  lemma NoneReachable(cells: seq<Cell>, width: nat, height: nat)
    requires width > 0 && ReachableIndices(cells, width, height, |cells|) == []
    ensures forall i | 0 <= i < |cells| :: !ReachableIn(cells, width, height, i)
  {
    forall i | 0 <= i < |cells| ensures !ReachableIn(cells, width, height, i) {
      if ReachableIn(cells, width, height, i) {
        ReachableIndicesComplete(cells, width, height, |cells|, i);
      }
    }
  }

  /**
   * The removal, round by round: take the positions reachable in the
   * current buffer, stop when there are none, and otherwise empty all of
   * them at once and go on with the new buffer.
   */
  function Removal(cells: seq<Cell>, width: nat, height: nat): (r: seq<Cell>)
    requires width > 0
    ensures |r| == |cells| && RollCount(r) <= RollCount(cells)
    decreases RollCount(cells)
  {
    var ps := ReachableIndices(cells, width, height, |cells|);
    if ps == [] then cells
    else
      RoundClears(cells, width, height);
      Removal(Cleared(cells, ps), width, height)
  }

  /** One round empties exactly the positions it takes and nothing else. */
  lemma RoundClears(cells: seq<Cell>, width: nat, height: nat)
    requires width > 0
    ensures var ps := ReachableIndices(cells, width, height, |cells|);
      && |Cleared(cells, ps)| == |cells|
      && RollCount(Cleared(cells, ps)) + |ps| == RollCount(cells)
      && forall i | 0 <= i < |cells| :: Cleared(cells, ps)[i] == if i in ps then Empty else cells[i]
  {
    var ps := ReachableIndices(cells, width, height, |cells|);
    assert DistinctRolls(cells, ps) by {
      forall k | 0 <= k < |ps| ensures ps[k] < |cells| && cells[ps[k]] == PaperRoll {
        assert ReachableIn(cells, width, height, ps[k]);
      }
    }
    ClearedRolls(cells, ps);
  }

  /** After the removal no roll is reachable. */
  lemma {:induction false} RemovalIsFinal(cells: seq<Cell>, width: nat, height: nat)
    requires width > 0
    ensures forall i | 0 <= i < |cells| :: !ReachableIn(Removal(cells, width, height), width, height, i)
    decreases RollCount(cells)
  {
    var ps := ReachableIndices(cells, width, height, |cells|);
    if ps == [] {
      NoneReachable(cells, width, height);
    } else {
      RoundClears(cells, width, height);
      RemovalIsFinal(Cleared(cells, ps), width, height);
    }
  }

  /** The removal only empties positions: every roll left was a roll before. */
  lemma {:induction false} RemovalOnlyEmpties(cells: seq<Cell>, width: nat, height: nat)
    requires width > 0
    ensures forall i | 0 <= i < |cells| :: Removal(cells, width, height)[i] == PaperRoll ==> cells[i] == PaperRoll
    decreases RollCount(cells)
  {
    var ps := ReachableIndices(cells, width, height, |cells|);
    if ps != [] {
      RoundClears(cells, width, height);
      RemovalOnlyEmpties(Cleared(cells, ps), width, height);
    }
  }

  /** A round that takes some positions hands the cleared buffer to the next round. */
  lemma RemovalRound(cells: seq<Cell>, width: nat, height: nat, positions: seq<nat>)
    requires width > 0 && positions == ReachableIndices(cells, width, height, |cells|)
    ensures forall k | 0 <= k < |positions| :: positions[k] < |cells|
    ensures positions == [] ==> Removal(cells, width, height) == cells
    ensures positions != [] ==> Removal(cells, width, height) == Removal(Cleared(cells, positions), width, height)
  {
  }

  /** A roll reachable before the first round is gone after the removal. */
  lemma RemovalTakesReachable(cells: seq<Cell>, width: nat, height: nat, i: nat)
    requires width > 0 && ReachableIn(cells, width, height, i)
    ensures Removal(cells, width, height)[i] == Empty
  {
    var ps := ReachableIndices(cells, width, height, |cells|);
    ReachableIndicesComplete(cells, width, height, |cells|, i);
    RoundClears(cells, width, height);
    RemovalOnlyEmpties(Cleared(cells, ps), width, height);
  }

  /** `at` on a valid grid probes its buffer. */
  lemma ProbeAgrees(grid: Grid, x: int, y: int)
    requires grid.Valid()
    ensures Probe(grid, x, y) == ProbeIn(grid.cells, grid.width, grid.height, x, y)
  {
    if x >= 0 && y >= 0 && x < grid.width && y < grid.height {
      IndexInside(x, y, grid.width, grid.height);
    }
  }

  /** Reachability on a valid grid is reachability on its buffer. */
  lemma ReachableAgrees(grid: Grid, i: nat)
    requires grid.Valid()
    ensures Reachable(grid, i) <==> ReachableIn(grid.cells, grid.width, grid.height, i)
  {
    var c := CoordinateOf(i, grid.width);
    var x, y := c.x as int, c.y as int;
    ProbeAgrees(grid, x - 1, y - 1);
    ProbeAgrees(grid, x, y - 1);
    ProbeAgrees(grid, x + 1, y - 1);
    ProbeAgrees(grid, x - 1, y);
    ProbeAgrees(grid, x + 1, y);
    ProbeAgrees(grid, x - 1, y + 1);
    ProbeAgrees(grid, x, y + 1);
    ProbeAgrees(grid, x + 1, y + 1);
  }

  /** The buffer positions of the listed coordinates are the reachable positions of the buffer. */
  lemma {:induction false} ListedIndices(grid: Grid, n: nat)
    requires grid.Valid() && n <= |grid.cells|
    ensures IndicesOf(ReachableUpTo(grid, n), grid.width) == ReachableIndices(grid.cells, grid.width, grid.height, n)
  {
    if n > 0 {
      var w := grid.width;
      ListedIndices(grid, n - 1);
      ReachableAgrees(grid, n - 1);
      IteratedCellAt(grid, n - 1);
      var before := ReachableUpTo(grid, n - 1);
      var extra := if Reachable(grid, n - 1) then [CoordinateOf(n - 1, w)] else [];
      IndicesOfAppend(before, extra, w);
    }
  }

  lemma IndicesOfAppend(a: seq<Coordinate>, b: seq<Coordinate>, width: nat)
    ensures IndicesOf(a + b, width) == IndicesOf(a, width) + IndicesOf(b, width)
  {
    assert forall k | 0 <= k < |a| + |b| :: (a + b)[k] == if k < |a| then a[k] else b[k - |a|];
  }

  /** The `for` loop of the removal: every listed coordinate is set to empty, and every `set` succeeds. */
  method ClearLocations(grid: Grid, locations: seq<Coordinate>, ghost positions: seq<nat>)
    requires grid.Valid() && DistinctRolls(grid.cells, positions) && |positions| == |locations|
    requires forall j | 0 <= j < |locations| :: locations[j] == CoordinateOf(positions[j], grid.width)
    modifies grid
    ensures grid.Valid() && grid.width == old(grid.width) && grid.height == old(grid.height)
    ensures grid.cells == Cleared(old(grid.cells), positions)
  {
    ghost var before := grid.cells;
    for k := 0 to |locations|
      invariant grid.Valid() && grid.width == old(grid.width) && grid.height == old(grid.height)
      invariant |grid.cells| == |before|
      invariant grid.cells == Cleared(before, positions[..k])
    {
      IteratedCellAt(grid, positions[k]);
      var r := grid.Set(locations[k], Empty);
      assert r.Success?;
      assert positions[..k + 1][..k] == positions[..k];
    }
    assert positions[..|locations|] == positions;
  }

  /**
   * num_of_paper_roll_locations_accessable_by_forklift_when_removing_rolls:
   * list the reachable rolls, stop at none, otherwise empty every listed
   * coordinate (each `set` succeeds) and add what the next rounds remove.
   * The result is the number of rolls removed; afterwards no roll is
   * reachable, and only rolls were taken away.
   */
  method RemoveAccessibleRolls(grid: Grid) returns (total: nat)
    requires grid.Valid()
    modifies grid
    ensures grid.Valid() && grid.width == old(grid.width) && grid.height == old(grid.height)
    ensures total + RollCount(grid.cells) == old(RollCount(grid.cells))
    ensures forall i | 0 <= i < |grid.cells| :: !Reachable(grid, i)
    ensures forall i | 0 <= i < |grid.cells| :: grid.cells[i] == PaperRoll ==> old(grid.cells[i]) == PaperRoll
    ensures grid.cells == Removal(old(grid.cells), grid.width, grid.height)
    decreases RollCount(grid.cells)
  {
    var locations := AccessibleLocations(grid);
    var count := |locations|;
    ghost var positions := IndicesOf(locations, grid.width);
    if count == 0 {
      forall i | 0 <= i < |grid.cells|
        ensures !Reachable(grid, i)
      {
        if Reachable(grid, i) {
          ReachableUpToComplete(grid, |grid.cells|, i);
        }
      }
      ListedIndices(grid, |grid.cells|);
      RemovalRound(grid.cells, grid.width, grid.height, positions);
      return 0;
    }
    ghost var before := grid.cells;
    ClearingPlan(grid, locations);
    ListedIndices(grid, |grid.cells|);
    RemovalRound(before, grid.width, grid.height, positions);
    ClearLocations(grid, locations, positions);
    ClearedRolls(before, positions);
    var rest := RemoveAccessibleRolls(grid);
    total := count + rest;
  }
}
