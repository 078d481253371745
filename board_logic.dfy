/** The game rules of the Lights Out board, on grid values.

    A grid is a list of rows of "lit" flags. The board is created nrows high
    and ncols wide, the player has won when every cell is off, and pressing
    the cell at (y, x) toggles it and its four orthogonal neighbours, each
    only when it lies on the board.
 */
module BoardLogic {

  type Grid = seq<seq<bool>>

  /** The grid has nrows rows of ncols cells each. */
  predicate WellShaped<T>(g: seq<seq<T>>, nrows: nat, ncols: nat) {
    |g| == nrows && forall i :: 0 <= i < |g| ==> |g[i]| == ncols
  }

  /** The bounds test of flipCell: (y, x) lies on an nrows x ncols board. */
  predicate OnBoard(nrows: nat, ncols: nat, y: int, x: int) {
    x >= 0 && x < ncols && y >= 0 && y < nrows
  }

  /** (i, j) is the pressed cell (y, x) or one of its four orthogonal neighbours. */
  predicate IsTarget(y: int, x: int, i: int, j: int) {
    || (i == y && j == x)
    || (i == y - 1 && j == x)
    || (i == y + 1 && j == x)
    || (i == y && j == x - 1)
    || (i == y && j == x + 1)
  }

  // ---------------------------------------------------------------------------
  // Creation
  // ---------------------------------------------------------------------------

  /** createBoard: nrows rows of ncols cells, the cell (i, j) lit exactly when
      the random draw made for it, draws[i][j], exceeds chanceLightStartsOn. */
  function CreateBoard(nrows: nat, ncols: nat, chanceLightStartsOn: real, draws: seq<seq<real>>): (g: Grid)
    requires WellShaped(draws, nrows, ncols)
    ensures WellShaped(g, nrows, ncols)
    ensures forall i, j :: 0 <= i < nrows && 0 <= j < ncols ==>
      (g[i][j] <==> draws[i][j] > chanceLightStartsOn)
  {
    seq(nrows, i requires 0 <= i < nrows =>
      seq(ncols, j requires 0 <= j < ncols => draws[i][j] > chanceLightStartsOn))
  }

  // ---------------------------------------------------------------------------
  // Winning
  // ---------------------------------------------------------------------------

  /** `row.every(cell => cell === false)` */
  predicate AllOff(row: seq<bool>) {
    |row| == 0 || (!row[0] && AllOff(row[1..]))
  }

  /** hasWon: `board.every(row => row.every(cell => cell === false))` */
  predicate HasWon(g: Grid) {
    |g| == 0 || (AllOff(g[0]) && HasWon(g[1..]))
  }

  /** No cell of the grid is lit. */
  ghost predicate NoneLit(g: Grid) {
    forall i, j :: 0 <= i < |g| && 0 <= j < |g[i]| ==> !g[i][j]
  }

  lemma {:induction false} AllOffIffNoneLit(row: seq<bool>)
    ensures AllOff(row) <==> forall j :: 0 <= j < |row| ==> !row[j]
    decreases |row|
  {
    if |row| > 0 {
      AllOffIffNoneLit(row[1..]);
      assert forall j :: 1 <= j < |row| ==> row[j] == row[1..][j - 1];
    }
  }

  /** The player has won exactly when every cell of every row is off. */
  lemma {:induction false} HasWonIffNoneLit(g: Grid)
    ensures HasWon(g) <==> NoneLit(g)
    decreases |g|
  {
    if |g| > 0 {
      AllOffIffNoneLit(g[0]);
      HasWonIffNoneLit(g[1..]);
      assert forall i :: 1 <= i < |g| ==> g[i] == g[1..][i - 1];
    }
  }

  /** A single lit cell anywhere keeps the game going. */
  lemma OneLitCellLoses(g: Grid, i: nat, j: nat)
    requires i < |g| && j < |g[i]| && g[i][j]
    ensures !HasWon(g)
  {
    HasWonIffNoneLit(g);
  }

  /** With a threshold of at least 1 no draw in [0, 1) lights a cell, so the
      game is won before the first press; the threshold is the chance that a
      cell starts unlit. */
  lemma CreateBoardHighChanceAllOff(nrows: nat, ncols: nat, chanceLightStartsOn: real, draws: seq<seq<real>>)
    requires WellShaped(draws, nrows, ncols)
    requires forall i, j :: 0 <= i < nrows && 0 <= j < ncols ==> 0.0 <= draws[i][j] < 1.0
    requires chanceLightStartsOn >= 1.0
    ensures HasWon(CreateBoard(nrows, ncols, chanceLightStartsOn, draws))
  {
    HasWonIffNoneLit(CreateBoard(nrows, ncols, chanceLightStartsOn, draws));
  }

  /** With a negative threshold every draw in [0, 1) lights its cell. */
  lemma CreateBoardNegativeChanceAllLit(nrows: nat, ncols: nat, chanceLightStartsOn: real, draws: seq<seq<real>>)
    requires WellShaped(draws, nrows, ncols)
    requires forall i, j :: 0 <= i < nrows && 0 <= j < ncols ==> 0.0 <= draws[i][j] < 1.0
    requires chanceLightStartsOn < 0.0
    ensures forall i, j :: 0 <= i < nrows && 0 <= j < ncols ==>
      CreateBoard(nrows, ncols, chanceLightStartsOn, draws)[i][j]
  {
  }

  // ---------------------------------------------------------------------------
  // Flipping
  // ---------------------------------------------------------------------------

  /** flipCell(y, x, boardCopy): negate the cell (y, x) if it lies on the
      board; off the board nothing happens, with no wraparound. */
  function FlipCellSpec(g: Grid, nrows: nat, ncols: nat, y: int, x: int): (h: Grid)
    requires WellShaped(g, nrows, ncols)
    ensures WellShaped(h, nrows, ncols)
    ensures forall i, j :: 0 <= i < nrows && 0 <= j < ncols ==>
      h[i][j] == (if i == y && j == x then !g[i][j] else g[i][j])
  {
    if OnBoard(nrows, ncols, y, x) then g[y := g[y][x := !g[y][x]]] else g
  }

  /** The body of the flipCellsAround updater: the pressed cell, then top,
      bottom, left and right, each through the guarded flipCell. The result
      has the same shape, each of the five targets that lies on the board is
      negated, and every other cell is as it was. */
  function FlipSpec(g: Grid, nrows: nat, ncols: nat, y: int, x: int): (h: Grid)
    requires WellShaped(g, nrows, ncols)
    ensures WellShaped(h, nrows, ncols)
    ensures forall i, j :: 0 <= i < nrows && 0 <= j < ncols ==>
      h[i][j] == (if IsTarget(y, x, i, j) then !g[i][j] else g[i][j])
  {
    var g1 := FlipCellSpec(g, nrows, ncols, y, x);
    var g2 := FlipCellSpec(g1, nrows, ncols, y - 1, x);
    var g3 := FlipCellSpec(g2, nrows, ncols, y + 1, x);
    var g4 := FlipCellSpec(g3, nrows, ncols, y, x - 1);
    FlipCellSpec(g4, nrows, ncols, y, x + 1)
  }

  /** Two grids of one shape that agree cell by cell are equal. */
  lemma GridsEqual(g: Grid, h: Grid, nrows: nat, ncols: nat)
    requires WellShaped(g, nrows, ncols) && WellShaped(h, nrows, ncols)
    requires forall i, j :: 0 <= i < nrows && 0 <= j < ncols ==> g[i][j] == h[i][j]
    ensures g == h
  {
    forall i | 0 <= i < nrows
      ensures g[i] == h[i]
    {
      assert forall j :: 0 <= j < ncols ==> g[i][j] == h[i][j];
    }
  }

  /** Pressing the same cell twice in a row restores the grid. */
  lemma FlipTwiceRestores(g: Grid, nrows: nat, ncols: nat, y: int, x: int)
    requires WellShaped(g, nrows, ncols)
    ensures FlipSpec(FlipSpec(g, nrows, ncols, y, x), nrows, ncols, y, x) == g
  {
    GridsEqual(FlipSpec(FlipSpec(g, nrows, ncols, y, x), nrows, ncols, y, x), g, nrows, ncols);
  }

  /** The cells on which two grids of one shape differ. */
  function Changed(g: Grid, h: Grid, nrows: nat, ncols: nat): set<(int, int)>
    requires WellShaped(g, nrows, ncols) && WellShaped(h, nrows, ncols)
  {
    set i, j | 0 <= i < nrows && 0 <= j < ncols && g[i][j] != h[i][j] :: (i, j)
  }

  /** {(y, x)} when (y, x) lies on the board, otherwise nothing. */
  function OnBoardCell(nrows: nat, ncols: nat, y: int, x: int): set<(int, int)> {
    if OnBoard(nrows, ncols, y, x) then {(y, x)} else {}
  }

  /** The targets of a press at (y, x) that lie on the board. */
  function Neighbourhood(nrows: nat, ncols: nat, y: int, x: int): set<(int, int)> {
    OnBoardCell(nrows, ncols, y, x) + OnBoardCell(nrows, ncols, y - 1, x)
    + OnBoardCell(nrows, ncols, y + 1, x) + OnBoardCell(nrows, ncols, y, x - 1)
    + OnBoardCell(nrows, ncols, y, x + 1)
  }

  function Indicator(b: bool): nat {
    if b then 1 else 0
  }

  /** How many of the five targets of a press at (y, x) lie on the board. */
  function OnBoardTargets(nrows: nat, ncols: nat, y: int, x: int): nat {
    Indicator(OnBoard(nrows, ncols, y, x)) + Indicator(OnBoard(nrows, ncols, y - 1, x))
    + Indicator(OnBoard(nrows, ncols, y + 1, x)) + Indicator(OnBoard(nrows, ncols, y, x - 1))
    + Indicator(OnBoard(nrows, ncols, y, x + 1))
  }

  /** The five targets are distinct cells, so each one on the board adds one. */
  lemma NeighbourhoodSize(nrows: nat, ncols: nat, y: int, x: int)
    ensures |Neighbourhood(nrows, ncols, y, x)| == OnBoardTargets(nrows, ncols, y, x)
  {
    var s1 := OnBoardCell(nrows, ncols, y, x);
    var s2 := s1 + OnBoardCell(nrows, ncols, y - 1, x);
    var s3 := s2 + OnBoardCell(nrows, ncols, y + 1, x);
    var s4 := s3 + OnBoardCell(nrows, ncols, y, x - 1);
    var s5 := s4 + OnBoardCell(nrows, ncols, y, x + 1);
    assert (y - 1, x) !in s1;
    assert (y + 1, x) !in s2;
    assert (y, x - 1) !in s3;
    assert (y, x + 1) !in s4;
  }

  /** A press changes exactly the cells of its neighbourhood that lie on the
      board: nothing else, and none of those is left as it was. */
  lemma FlipChangesNeighbourhood(g: Grid, nrows: nat, ncols: nat, y: int, x: int)
    requires WellShaped(g, nrows, ncols)
    ensures Changed(g, FlipSpec(g, nrows, ncols, y, x), nrows, ncols) == Neighbourhood(nrows, ncols, y, x)
  {
  }

  /** A corner press on a board at least 2 x 2 changes exactly 3 cells. */
  lemma CornerFlipChangesThree(g: Grid, nrows: nat, ncols: nat, y: int, x: int)
    requires WellShaped(g, nrows, ncols) && nrows >= 2 && ncols >= 2
    requires (y == 0 || y == nrows - 1) && (x == 0 || x == ncols - 1)
    ensures |Changed(g, FlipSpec(g, nrows, ncols, y, x), nrows, ncols)| == 3
  {
    FlipChangesNeighbourhood(g, nrows, ncols, y, x);
    NeighbourhoodSize(nrows, ncols, y, x);
  }

  /** A press on an edge but not in a corner, on a board at least 2 x 2,
      changes exactly 4 cells. */
  lemma EdgeFlipChangesFour(g: Grid, nrows: nat, ncols: nat, y: int, x: int)
    requires WellShaped(g, nrows, ncols) && nrows >= 2 && ncols >= 2
    requires || ((y == 0 || y == nrows - 1) && 0 < x < ncols - 1)
             || ((x == 0 || x == ncols - 1) && 0 < y < nrows - 1)
    ensures |Changed(g, FlipSpec(g, nrows, ncols, y, x), nrows, ncols)| == 4
  {
    FlipChangesNeighbourhood(g, nrows, ncols, y, x);
    NeighbourhoodSize(nrows, ncols, y, x);
  }

  /** A press away from every edge changes exactly 5 cells. */
  lemma InteriorFlipChangesFive(g: Grid, nrows: nat, ncols: nat, y: int, x: int)
    requires WellShaped(g, nrows, ncols)
    requires 0 < y < nrows - 1 && 0 < x < ncols - 1
    ensures |Changed(g, FlipSpec(g, nrows, ncols, y, x), nrows, ncols)| == 5
  {
    FlipChangesNeighbourhood(g, nrows, ncols, y, x);
    NeighbourhoodSize(nrows, ncols, y, x);
  }

  /** The board of the component's documentation comment, pressed at (1, 2). */
  lemma DocumentedExampleFlip()
    ensures FlipSpec([[false, false, false], [true, true, false], [false, false, false]], 3, 3, 1, 2)
         == [[false, false, true], [true, false, true], [false, false, true]]
  {
    var g := [[false, false, false], [true, true, false], [false, false, false]];
    GridsEqual(FlipSpec(g, 3, 3, 1, 2), [[false, false, true], [true, false, true], [false, false, true]], 3, 3);
  }
}
