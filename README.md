# Lights Out board, modelled in Dafny

The model covers the game logic of the Lights Out `Board` component in
`src/Board.js`. The board is an `nrows` x `ncols` grid of lights. Pressing
a cell toggles it and its four orthogonal neighbours. A neighbour off the
board is skipped. The player has won when every light is off.

Three modules:

- `Coords` (`coords.dfy`) is the `"y-x"` coordinate. A rendered cell writes
  it with a template literal. The flip handler reads it back with
  `split("-").map(Number)`. Split, join, decimal numerals and JavaScript's
  `NaN` are modelled. The round trip is proved: parsing the string written
  for `(y, x)` gives back `(y, x)`.
- `BoardLogic` (`board_logic.dfy`) holds the rules on grid values
  (`seq<seq<bool>>`):
  - creation from the random draws;
  - `hasWon`, written as the nested `every` it is;
  - the guarded `flipCell`;
  - the five-toggle flip.
  It also proves the properties of the flip: which cells change, how many
  change at a corner, an edge and inside, that two presses cancel out, and
  that the shape is kept.
- `Board` (`board.dfy`) is the component. A `Board` class holds the state as
  an `array2<bool>`. Its methods do what the source does in place:
  - `FlipCell` toggles one cell of the copy behind a bounds check;
  - `FlipUpdater` is the `setBoard` updater: it deep-copies the old array
    element by element, then calls `FlipCell` five times;
  - `FlipCellsAround` replaces the state with that fresh copy.
  Each method is proved against the matching `BoardLogic` function. The
  module also models the render branch: the victory message, or the table
  of cells. Each cell carries its light and the coordinate its click
  handler sends.

Two points of the code are modelled as they are written:

- The component does not check its props. The model accepts any `nrows` and
  `ncols`, zero included, and any threshold.
- The comment at `src/Board.js:11` calls `chanceLightStartsOn` the chance
  that a cell is lit at the start. Line 36 lights a cell when its random
  draw is *greater* than that value, so it is really the chance that a cell
  starts unlit. `CreateBoardHighChanceAllOff` and
  `CreateBoardNegativeChanceAllLit` state the polarity line 36 has.

## Model

| member | source | states |
|---|---|---|
| `Coords.FormatCoord` | src/Board.js:88 | The template literal `${y}-${x}`; its property is stated by `Coords.ParseFormatRoundTrip` (it parses back to `(y, x)`) and `Coords.FormatCoordInjective` |
| `Coords.ParseCoord` | src/Board.js:47 | `coord.split("-").map(Number)` destructured to `[y, x]`, a missing second piece read as `NaN`; its property is stated by `Coords.ParseFormatRoundTrip` |
| `Coords.ToNumber` | src/Board.js:47 | `Number` on one piece of the split; its property is stated by `Coords.NumberOfNumeral` (a written numeral reads back as its value, not `NaN`) |
| `Coords.Join` | src/Board.js:47 | The inverse of `split`; its property is stated by `Coords.JoinSplit` and `Coords.SplitJoin` |
| `BoardLogic.AllOff` | src/Board.js:42 | `row.every(cell => cell === false)`; its property is stated by `BoardLogic.AllOffIffNoneLit` |
| `BoardLogic.HasWon` | src/Board.js:41-43 | The nested `every` of `hasWon`; its property is stated by `BoardLogic.HasWonIffNoneLit` (won exactly when every cell is off) |
| `Coords.ParseFormatRoundTrip` | src/Board.js:47 | Parsing the coordinate string written for `(y, x)` (line 88) with `split("-").map(Number)` yields exactly `(y, x)`, for all non-negative `y`, `x` |
| `Coords.FormatCoordInjective` | src/Board.js:88 | Two cells with the same coordinate string are the same cell |
| `Coords.NatToString` | src/Board.js:88 | The numeral a template literal writes for a natural number is non-empty and all decimal digits, so it never contains the `-` separator |
| `Coords.DigitsValueOfNatToString` | src/Board.js:47 | The decimal value of the numeral written for `n` is `n` |
| `Coords.NumberOfNumeral` | src/Board.js:47 | `Number` applied to the numeral written for `n` gives the number `n`, not `NaN` |
| `Coords.Split` | src/Board.js:47 | `split` on one separator returns at least one piece, and no piece contains the separator |
| `Coords.JoinSplit` | src/Board.js:47 | Joining the pieces of a split with the separator gives back the original string, so splitting loses no character |
| `Coords.SplitJoin` | src/Board.js:47 | Splitting the join of separator-free pieces gives back exactly those pieces |
| `Coords.SplitPrefix` | src/Board.js:47 | A separator-free prefix is glued onto the first piece of the split of the text that follows it |
| `Coords.Plus` | src/Board.js:61-64 | `y - 1`, `y + 1`, `x - 1`, `x + 1` are numbers exactly when `y` or `x` is; `NaN` stays `NaN` |
| `BoardLogic.CreateBoard` | src/Board.js:34-39 | The new board has exactly `nrows` rows of exactly `ncols` cells. Cell `(i, j)` is lit exactly when its random draw is greater than `chanceLightStartsOn` |
| `BoardLogic.CreateBoardHighChanceAllOff` | src/Board.js:36 | With a threshold of at least 1 and draws in `[0, 1)`, the new board is already won |
| `BoardLogic.CreateBoardNegativeChanceAllLit` | src/Board.js:36 | With a negative threshold and draws in `[0, 1)`, every cell of the new board is lit |
| `BoardLogic.AllOffIffNoneLit` | src/Board.js:42 | `row.every(cell => cell === false)` holds exactly when no cell of the row is lit |
| `BoardLogic.HasWonIffNoneLit` | src/Board.js:41-43 | `hasWon` holds exactly when every cell of every row is off, in both directions |
| `BoardLogic.OneLitCellLoses` | src/Board.js:41-43 | One lit cell anywhere makes `hasWon` false |
| `BoardLogic.FlipCellSpec` | src/Board.js:49-54 | `flipCell` keeps the shape. It negates cell `(y, x)` when that cell is on the board. Every other cell is unchanged, and an off-board `(y, x)` changes nothing, with no wraparound |
| `BoardLogic.FlipSpec` | src/Board.js:59-64 | The five guarded toggles keep the shape. Each of `(y,x)`, `(y-1,x)`, `(y+1,x)`, `(y,x-1)`, `(y,x+1)` that lies on the board is negated, and every other cell is unchanged |
| `BoardLogic.FlipTwiceRestores` | src/Board.js:60-64 | Flipping at the same `(y, x)` twice gives back the original grid |
| `BoardLogic.FlipChangesNeighbourhood` | src/Board.js:49-64 | The cells a flip changes are exactly the on-board members of the pressed cell's five-cell neighbourhood |
| `BoardLogic.NeighbourhoodSize` | src/Board.js:60-64 | The five targets are distinct cells, so the neighbourhood has one cell for each target that lies on the board |
| `BoardLogic.CornerFlipChangesThree` | src/Board.js:51-53 | On a board of at least 2 x 2, a flip at any corner changes exactly 3 cells |
| `BoardLogic.EdgeFlipChangesFour` | src/Board.js:51-53 | On a board of at least 2 x 2, a flip on an edge but not at a corner changes exactly 4 cells |
| `BoardLogic.InteriorFlipChangesFive` | src/Board.js:51-53 | A flip away from every edge changes exactly 5 cells |
| `BoardLogic.DocumentedExampleFlip` | src/Board.js:17-22 | The board of the documentation comment, `[[f,f,f],[t,t,f],[f,f,f]]`, flipped at `(1, 2)` becomes `[[f,f,t],[t,f,t],[f,f,t]]` |
| `Board.ApplyFlip` | src/Board.js:47-64 | The handler keeps the shape. When either coordinate is `NaN` (or missing), every bounds test fails and the grid is unchanged |
| `Board.ApplyFlipTwiceRestores` | src/Board.js:45-69 | For any string, with `Number` as modelled (see "## Left out"), handling it twice in a row gives back the original grid |
| `Board.ClickPressesOwnCell` | src/Board.js:88 | Clicking the cell at `(y, x)` flips around exactly `(y, x)` |
| `Board.DeepCopy` | src/Board.js:57 | The copy is a freshly allocated array with the same shape and the same cells as the old board |
| `Board.Render` | src/Board.js:72-96 | The victory message is shown exactly when every cell is off. Otherwise the table has one row per grid row and exactly one cell per grid cell of that row. Each cell shows its own light, and its click handler sends a coordinate that parses back to that cell's own position |
| `Board.Board.constructor` | src/Board.js:31-39 | The initial state is a fresh `nrows` x `ncols` array holding `createBoard`'s grid |
| `Board.Board.FlipCell` | src/Board.js:49-54 | In place on the copy: the array afterwards is `FlipCellSpec` of the array before. With a `NaN` coordinate it is unchanged |
| `Board.Board.FlipUpdater` | src/Board.js:46-68 | It returns a freshly allocated array of the same shape, holding the old board flipped around the parsed coordinate. The old board is not modified |
| `Board.Board.FlipCellsAround` | src/Board.js:45-69 | The state becomes a fresh array holding the old grid flipped around the parsed coordinate. The shape is unchanged, and the previous array still holds the previous grid |

## Left out

- React rendering is not modelled beyond the branch on `hasWon()` and the
  per-cell props: JSX, the `<table>` markup, `key`s, the `Cell` component
  and `Board.css` are presentation.
- The `useState` hook machinery is not modelled. The state is a field that
  `FlipCellsAround` replaces with the updater's result. React's queueing
  and batching of updates is not modelled.
- `Math.random()` is not modelled. The value drawn for cell `(i, j)` is the
  parameter `draws[i][j]`, and floating-point draws and thresholds are
  modelled as reals.
- The JSON serialise/parse mechanism is not modelled. The deep copy is an
  element-wise copy into a fresh array.
- `Number` is modelled only for strings of decimal digits (the empty string
  gives 0). Every other string gives `NaN`, including whitespace, signs,
  decimals, exponents, hexadecimal and `Infinity`, which JavaScript would
  read as numbers. Precision loss above 2^53 is not modelled either. The
  component only ever sends numerals of row and column indices.
- Board.ApplyFlipTwiceRestores: holds for `Number` as modelled, not for
  every string the JavaScript handler could receive. For a non-integer
  numeral such as `"0.5-0"`, JavaScript's `Number` gives 0.5, the bounds
  test at `src/Board.js:51` passes, and `boardCopy[0.5][0]` at line 52
  throws a TypeError. The model reads the piece as `NaN` and leaves the grid
  unchanged. The component only sends integer row and column indices.
- The props `nrows` and `ncols` are assumed fixed for the component's
  lifetime. The `const` fields of `Board.Board` and the `WellShaped`
  preconditions encode this. In the source the board keeps its creation
  shape while line 51 tests against the current props. After a re-render
  with larger props, pressing a cell on the last row or column makes
  `flipCell` index past the board and throw. After one with smaller props,
  cells still rendered by `board.map` can no longer be flipped. Neither case
  is modelled.
- `Coords.ParseCoord` models a missing second piece (`undefined`) as `NaN`.
  The handler only compares and subtracts it, where `undefined` acts like
  `NaN`.
