/** The Board component: it owns the grid of lights as a two-dimensional
    array, replaces it with a flipped deep copy on every press, and renders
    either the victory message or the table of cells.
 */
module Board {
  import opened Coords
  import opened BoardLogic

  /** The grid an array holds, row by row. */
  function ToGrid(a: array2<bool>): (g: Grid)
    reads a
    ensures WellShaped(g, a.Length0, a.Length1)
    ensures forall i, j :: 0 <= i < a.Length0 && 0 <= j < a.Length1 ==> g[i][j] == a[i, j]
  {
    seq(a.Length0, i requires 0 <= i < a.Length0 reads a =>
      seq(a.Length1, j requires 0 <= j < a.Length1 reads a => a[i, j]))
  }

  /** What the flip handler does to a grid for a parsed coordinate: a press
      at (y, x) when both are numbers; with NaN every bounds test of
      flipCell fails, so nothing is toggled. */
  function ApplyFlip(g: Grid, nrows: nat, ncols: nat, c: Coordinate): (h: Grid)
    requires WellShaped(g, nrows, ncols)
    ensures WellShaped(h, nrows, ncols)
    ensures c.0.NaN? || c.1.NaN? ==> h == g
  {
    match c
    case (Int(y), Int(x)) => FlipSpec(g, nrows, ncols, y, x)
    case _ => g
  }

  /** Whatever string the handler receives, handling it twice in a row
      restores the grid. */
  lemma ApplyFlipTwiceRestores(g: Grid, nrows: nat, ncols: nat, coord: string)
    requires WellShaped(g, nrows, ncols)
    ensures ApplyFlip(ApplyFlip(g, nrows, ncols, ParseCoord(coord)), nrows, ncols, ParseCoord(coord)) == g
  {
    var c := ParseCoord(coord);
    if c.0.Int? && c.1.Int? {
      FlipTwiceRestores(g, nrows, ncols, c.0.value, c.1.value);
    }
  }

  /** Clicking the cell at (y, x) presses exactly that cell. */
  lemma ClickPressesOwnCell(g: Grid, nrows: nat, ncols: nat, y: nat, x: nat)
    requires WellShaped(g, nrows, ncols)
    ensures ApplyFlip(g, nrows, ncols, ParseCoord(FormatCoord(y, x))) == FlipSpec(g, nrows, ncols, y, x)
  {
    ParseFormatRoundTrip(y, x);
  }

  /** The deep copy of the old board: a fresh array with the same cells. */
  method DeepCopy(src: array2<bool>) returns (dst: array2<bool>)
    ensures fresh(dst)
    ensures dst.Length0 == src.Length0 && dst.Length1 == src.Length1
    ensures ToGrid(dst) == ToGrid(src)
  {
    dst := new bool[src.Length0, src.Length1];
    var i := 0;
    while i < src.Length0
      invariant 0 <= i <= src.Length0
      invariant forall r, c :: 0 <= r < i && 0 <= c < src.Length1 ==> dst[r, c] == src[r, c]
    {
      var j := 0;
      while j < src.Length1
        invariant 0 <= j <= src.Length1
        invariant forall r, c :: 0 <= r < i && 0 <= c < src.Length1 ==> dst[r, c] == src[r, c]
        invariant forall c :: 0 <= c < j ==> dst[i, c] == src[i, c]
      {
        dst[i, j] := src[i, j];
        j := j + 1;
      }
      i := i + 1;
    }
    GridsEqual(ToGrid(dst), ToGrid(src), src.Length0, src.Length1);
  }

  /** One cell of the board as the table renders it: its light and the
      coordinate its click handler passes to flipCellsAround. */
  datatype CellProps = CellProps(isLit: bool, coord: string)

  /** What the component renders: the victory message alone, or the table. */
  datatype Screen = Victory | Table(rows: seq<seq<CellProps>>)

  /** The render branch: the victory message exactly when every cell is off;
      otherwise one row per grid row and one cell per column, each showing
      its own light and pressing its own position. */
  function Render(g: Grid): (s: Screen)
    ensures s.Victory? <==> NoneLit(g)
    ensures s.Table? ==> |s.rows| == |g|
    ensures s.Table? ==> forall y :: 0 <= y < |g| ==> |s.rows[y]| == |g[y]|
    ensures s.Table? ==> forall y, x :: 0 <= y < |g| && 0 <= x < |g[y]| ==>
      x < |s.rows[y]| && s.rows[y][x].isLit == g[y][x] &&
      ParseCoord(s.rows[y][x].coord) == (Int(y), Int(x))
  {
    HasWonIffNoneLit(g);
    if HasWon(g) then Victory
    else
      var rows := seq(|g|, y requires 0 <= y < |g| =>
        seq(|g[y]|, x requires 0 <= x < |g[y]| => CellProps(g[y][x], FormatCoord(y, x))));
      assert forall y, x :: 0 <= y < |g| && 0 <= x < |g[y]| ==>
        ParseCoord(rows[y][x].coord) == (Int(y), Int(x)) by {
        forall y: nat, x: nat | y < |g| && x < |g[y]| {
          ParseFormatRoundTrip(y, x);
        }
      }
      Table(rows)
  }

  class Board {
    const nrows: nat
    const ncols: nat
    /** The state the component holds; each press replaces it. */
    var board: array2<bool>

    ghost predicate Valid()
      reads this
    {
      board.Length0 == nrows && board.Length1 == ncols
    }

    function Contents(): (g: Grid)
      reads this, board
      requires Valid()
      ensures WellShaped(g, nrows, ncols)
    {
      ToGrid(board)
    }

    /** The first render: the state starts as createBoard's grid, drawn with
        draws[i][j] as the random value for cell (i, j). */
    constructor (nrows: nat, ncols: nat, chanceLightStartsOn: real, draws: seq<seq<real>>)
      requires WellShaped(draws, nrows, ncols)
      ensures Valid() && fresh(board)
      ensures this.nrows == nrows && this.ncols == ncols
      ensures Contents() == CreateBoard(nrows, ncols, chanceLightStartsOn, draws)
    {
      var initial := CreateBoard(nrows, ncols, chanceLightStartsOn, draws);
      this.nrows := nrows;
      this.ncols := ncols;
      board := new bool[nrows, ncols]((i: nat, j: nat) requires i < nrows && j < ncols => initial[i][j]);
      new;
      GridsEqual(ToGrid(board), initial, nrows, ncols);
    }

    /** flipCell: toggle (y, x) of the copy if it lies on the board. A NaN
        coordinate fails the bounds test and toggles nothing. */
    method FlipCell(y: Num, x: Num, boardCopy: array2<bool>)
      requires boardCopy.Length0 == nrows && boardCopy.Length1 == ncols
      modifies boardCopy
      ensures ToGrid(boardCopy) ==
        if y.Int? && x.Int? then FlipCellSpec(old(ToGrid(boardCopy)), nrows, ncols, y.value, x.value)
        else old(ToGrid(boardCopy))
    {
      ghost var before := ToGrid(boardCopy);
      if x.Int? && y.Int? && x.value >= 0 && x.value < ncols && y.value >= 0 && y.value < nrows {
        boardCopy[y.value, x.value] := !boardCopy[y.value, x.value];
      }
      if y.Int? && x.Int? {
        GridsEqual(ToGrid(boardCopy), FlipCellSpec(before, nrows, ncols, y.value, x.value), nrows, ncols);
      } else {
        GridsEqual(ToGrid(boardCopy), before, nrows, ncols);
      }
    }

    /** The updater given to setBoard: parse the coordinate, deep-copy the
        old board, flip the pressed cell and its four neighbours in the copy
        and return the copy. The old board is not modified. */
    method FlipUpdater(oldBoard: array2<bool>, coord: string) returns (boardCopy: array2<bool>)
      requires oldBoard.Length0 == nrows && oldBoard.Length1 == ncols
      ensures fresh(boardCopy)
      ensures boardCopy.Length0 == nrows && boardCopy.Length1 == ncols
      ensures ToGrid(boardCopy) == ApplyFlip(ToGrid(oldBoard), nrows, ncols, ParseCoord(coord))
    {
      var (y, x) := ParseCoord(coord);
      ghost var g0 := ToGrid(oldBoard);
      boardCopy := DeepCopy(oldBoard);
      FlipCell(y, x, boardCopy);
      ghost var g1 := ToGrid(boardCopy);
      FlipCell(Plus(y, -1), x, boardCopy);
      ghost var g2 := ToGrid(boardCopy);
      FlipCell(Plus(y, 1), x, boardCopy);
      ghost var g3 := ToGrid(boardCopy);
      FlipCell(y, Plus(x, -1), boardCopy);
      ghost var g4 := ToGrid(boardCopy);
      FlipCell(y, Plus(x, 1), boardCopy);
      assert ToGrid(oldBoard) == g0;
      if y.Int? && x.Int? {
        assert g1 == FlipCellSpec(g0, nrows, ncols, y.value, x.value);
        assert g2 == FlipCellSpec(g1, nrows, ncols, y.value - 1, x.value);
        assert g3 == FlipCellSpec(g2, nrows, ncols, y.value + 1, x.value);
        assert g4 == FlipCellSpec(g3, nrows, ncols, y.value, x.value - 1);
      }
    }

    /** flipCellsAround: the state becomes the updater's fresh copy; the
        previous board keeps its cells and the shape is unchanged. */
    method FlipCellsAround(coord: string)
      requires Valid()
      modifies this
      ensures Valid() && fresh(board)
      ensures Contents() == ApplyFlip(old(Contents()), nrows, ncols, ParseCoord(coord))
      ensures ToGrid(old(board)) == old(Contents())
    {
      board := FlipUpdater(board, coord);
    }
  }
}
