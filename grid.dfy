/**
 * The paper-roll grid of 2025/day-04/src/grid.rs: a flat, row-major buffer
 * of cells with its width and height, bounds-checked reads and writes, the
 * construction from text, and an iterator over (coordinate, cell) pairs in
 * buffer order.
 */
module PaperGrid {
  import opened Wrappers
  import opened Text
  import opened Numbers

  datatype Cell = Empty | PaperRoll

  datatype Coordinate = Coordinate(x: nat, y: nat)

  datatype CoordinateNotInGrid = CoordinateNotInGrid

  datatype GridConstructionError = ValueIsNotOfRectangularShape | DimensionsCannotBeZero

  /** The position of a coordinate in the row-major buffer. */
  function IndexOf(c: Coordinate, width: nat): nat {
    c.x + width * c.y
  }

  /** The coordinate of buffer position i, as the iterator reports it. */
  function CoordinateOf(i: nat, width: nat): Coordinate
    requires width > 0
  {
    Coordinate(i % width, i / width)
  }

  /** '@' is a paper roll, every other character an empty cell. */
  function CellOf(ch: char): Cell {
    if ch == '@' then PaperRoll else Empty
  }

  /** The cells of the lines, one per character, concatenated row after row (the `flat_map`). */
  function CellsOf(lines: seq<string>): (cells: seq<Cell>)
    ensures |cells| == |Concat(lines)|
    ensures forall i | 0 <= i < |cells| :: cells[i] == CellOf(Concat(lines)[i])
  {
    if lines == [] then []
    else
      var line := lines[0];
      seq(|line|, i requires 0 <= i < |line| => CellOf(line[i])) + CellsOf(lines[1..])
  }

  /** The buffer and the dimensions try_from settles on before it builds the grid. */
  datatype Layout = Layout(cells: seq<Cell>, width: nat, height: nat)

  /**
   * The checks of try_from, in its order: no lines, then a zero width
   * (fewer cells than lines), then a cell count that width * height misses.
   * Only the total is checked, not the length of each line.
   */
  function ParseLayout(value: string): (r: Result<Layout, GridConstructionError>)
    ensures var lines := Lines(value); var total := |Concat(lines)|;
      && (r == Failure(DimensionsCannotBeZero) <==> |lines| == 0 || total < |lines|)
      && (r == Failure(ValueIsNotOfRectangularShape) <==> |lines| > 0 && total >= |lines| && total % |lines| != 0)
      && (r.Success? ==>
            && r.value.height == |lines| && r.value.width > 0
            && |r.value.cells| == r.value.width * r.value.height
            && r.value.cells == CellsOf(lines))
  {
    var lines := Lines(value);
    var height := |lines|;
    var cells := CellsOf(lines);
    if height == 0 then Failure(DimensionsCannotBeZero)
    else
      var width := |cells| / height;
      QuotientZero(|cells|, height);
      QuotientExact(|cells|, height);
      if width == 0 then Failure(DimensionsCannotBeZero)
      else if width * height != |cells| then Failure(ValueIsNotOfRectangularShape)
      else Success(Layout(cells, width, height))
  }

  /** Cell i of a parsed grid is a paper roll exactly when the i-th non-newline character of the text is '@'. */
  lemma LayoutCells(value: string, i: nat)
    requires ParseLayout(value).Success? && i < |ParseLayout(value).value.cells|
    ensures var text := Without(value, {'\n'});
      i < |text| && (ParseLayout(value).value.cells[i] == PaperRoll <==> text[i] == '@')
  {
  }

  class Grid {
    var cells: seq<Cell>
    var width: nat
    var height: nat

    /** What try_from guarantees and set keeps: both dimensions positive and the buffer exactly width * height long. */
    ghost predicate Valid()
      reads this
    {
      width > 0 && height > 0 && |cells| == width * height
    }

    constructor (layout: Layout)
      ensures cells == layout.cells && width == layout.width && height == layout.height
    {
      cells := layout.cells;
      width := layout.width;
      height := layout.height;
    }

    /** `TryFrom<&str>`: the grid, or why the text is not one. */
    static method TryFrom(value: string) returns (r: Result<Grid, GridConstructionError>)
      ensures ParseLayout(value).Failure? ==> r == Failure(ParseLayout(value).error)
      ensures ParseLayout(value).Success? ==>
        && r.Success? && fresh(r.value) && r.value.Valid()
        && r.value.cells == ParseLayout(value).value.cells
        && r.value.width == ParseLayout(value).value.width
        && r.value.height == ParseLayout(value).value.height
    {
      var layout := ParseLayout(value);
      if layout.Failure? {
        return Failure(layout.error);
      }
      var grid := new Grid(layout.value);
      return Success(grid);
    }

    /** `at`: the cell at a coordinate, or None outside the grid. */
    function At(c: Coordinate): (r: Option<Cell>)
      reads this
      ensures Valid() ==> (r.None? <==> c.x >= width || c.y >= height)
      ensures r.Some? ==> IndexOf(c, width) < |cells| && r.value == cells[IndexOf(c, width)]
    {
      if c.x >= width || c.y >= height then None
      else
        var cellIndex := c.x + width * c.y;
        IndexInside(c.x, c.y, width, height);
        if cellIndex >= |cells| then None else Some(cells[cellIndex])
    }

    /**
     * `set`: outside the grid nothing changes and the call fails; inside it
     * exactly the coordinate's buffer position takes the new cell.
     */
    method Set(c: Coordinate, cell: Cell) returns (r: Result<(), CoordinateNotInGrid>)
      modifies this
      ensures width == old(width) && height == old(height)
      ensures r.Success? <==> old(At(c)).Some?
      ensures r.Failure? ==> r.error == CoordinateNotInGrid && cells == old(cells)
      ensures r.Success? ==> IndexOf(c, width) < |old(cells)| && cells == old(cells)[IndexOf(c, width) := cell]
      ensures old(Valid()) ==> Valid()
    {
      if c.x >= width || c.y >= height {
        return Failure(CoordinateNotInGrid);
      }
      var cellIndex := c.x + width * c.y;
      if cellIndex >= |cells| {
        return Failure(CoordinateNotInGrid);
      }
      cells := cells[cellIndex := cell];
      return Success(());
    }

    /** `iter`: an iterator at the start of the buffer. */
    method Iter() returns (it: GridIterator)
      ensures fresh(it) && it.grid == this && it.index == 0
    {
      it := new GridIterator(this);
    }
  }

  class GridIterator {
    var index: nat
    const grid: Grid

    constructor (grid: Grid)
      ensures this.grid == grid && index == 0
    {
      index := 0;
      this.grid := grid;
    }

    /** `next`: the buffer position's coordinate and cell, then one step on; None once the buffer is done. */
    method Next() returns (item: Option<(Coordinate, Cell)>)
      requires grid.Valid()
      modifies this
      ensures old(index) < |grid.cells| ==>
        && index == old(index) + 1
        && item == Some((CoordinateOf(old(index), grid.width), grid.cells[old(index)]))
      ensures old(index) >= |grid.cells| ==> index == old(index) && item == None
    {
      if index < |grid.cells| {
        var x := index % grid.width;
        var y := (index - x) / grid.width;
        RowOf(index, grid.width);
        var cell := grid.cells[index];
        index := index + 1;
        return Some((Coordinate(x, y), cell));
      } else {
        return None;
      }
    }
  }

  /** The iterator's `(index - x) / width` is the row index / width. */
  lemma RowOf(i: nat, width: nat)
    requires width > 0
    ensures (i - i % width) / width == i / width
  {
    var q := i / width;
    assert i - i % width == width * q;
    DivModUnique(i - i % width, width, q, 0);
  }

  /**
   * Every buffer position the iterator reports has an in-grid coordinate
   * whose row-major index is that position, and `at` of it is the reported
   * cell.
   */
  lemma IteratedCellAt(grid: Grid, i: nat)
    requires grid.Valid() && i < |grid.cells|
    ensures var c := CoordinateOf(i, grid.width);
      && c.x < grid.width && c.y < grid.height
      && IndexOf(c, grid.width) == i
      && grid.At(c) == Some(grid.cells[i])
  {
    SplitIndex(i, grid.width, grid.height);
  }

  /** Distinct buffer positions have distinct coordinates, and coordinates follow buffer order. */
  lemma CoordinateOrder(i: nat, j: nat, width: nat)
    requires width > 0 && i < j
    ensures CoordinateOf(i, width) != CoordinateOf(j, width)
    ensures IndexOf(CoordinateOf(i, width), width) < IndexOf(CoordinateOf(j, width), width)
  {
    assert i % width + width * (i / width) == i;
    assert j % width + width * (j / width) == j;
  }

  /** The lines of two newline-free pieces joined by a newline are the two pieces. */
  lemma TwoLines(first: string, second: string)
    requires '\n' !in first && '\n' !in second && second != ""
    ensures Lines(first + "\n" + second) == [first, second]
  {
    SplitPrefix(first, '\n', {'\n'}, second);
    SplitNoSep(second, {'\n'});
  }

  /**
   * Lines of three and five characters are accepted: eight cells over two
   * lines make a 4 by 2 grid, although neither line is four long.
   */
  lemma UnevenLinesAccepted(first: string, second: string)
    requires |first| == 3 && |second| == 5 && '\n' !in first && '\n' !in second
    ensures var r := ParseLayout(first + "\n" + second);
      r.Success? && r.value.width == 4 && r.value.height == 2
  {
    TwoLines(first, second);
    assert [first, second][1..] == [second] && [second][1..] == [];
    assert Concat([second]) == second + [];
    assert Concat([first, second]) == first + second + [];
    assert 8 / 2 == 4;
  }

  /** A text with no lines is refused. */
  lemma EmptyTextRefused()
    ensures ParseLayout("") == Failure(DimensionsCannotBeZero)
  {
  }
}
