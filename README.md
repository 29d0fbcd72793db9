# n-queens board: conflict detection

This project models the board of an n-queens / n-rooks puzzle checker,
`src/Board.js`. The board is an n×n matrix of integer cells, where a cell holds
a piece exactly when its value is 1. It answers yes/no questions about
conflicts. A conflict is more than one piece on one line: a row, a column, a
major diagonal (↘, named by `c - r`) or a minor diagonal (↙, named by `c + r`).

The model has two layers.

- `BoardSpec` (BoardSpec.dfy) is the specification, written as functions over
  the matrix.
  - A `Line` is a row, column or diagonal. `Walk(m, line)` is the sequence of
    "this position holds 1" values that the line's check visits.
  - `HasConflict(m, line)` is the counter-then-`> 1` test, using `CountTrue`
    from `Counting` (Counting.dfy).
  - The aggregates ("any row", "any column", "any major", "any minor", rooks,
    queens) and the point query are built from `HasConflict`.
  - The lemmas state what these mean. A line conflicts exactly when two
    different cells on it hold 1. On a square board, a queens conflict means
    exactly that two pieces attack each other.
  - The module also models toggling and its frame and locality properties.
- `NQueensBoard.Board` (Board.dfy) is the board object. It has the size `n` and
  the rows as fields, and the two constructors. `TogglePiece` changes one cell
  in place. Each check is a loop with a `queens` counter or a `hasConflict`
  flag, and each is proved equal to its `BoardSpec` counterpart.
- `BoardExamples` (Examples.dfy) works through small boards: a row conflict, a
  column conflict, the identity board, the anti-diagonal board and a point
  query.

The matrix given to the constructor is never checked for squareness. So the
row and column checks are modelled on any matrix: a row is counted along its
own length, and a column counts only the rows long enough to have that entry.
The diagonal checks and `_isInBounds` use the n×n window. Only the geometric
lemmas (`RooksConflictIff`, `QueensConflictIff`) assume a square board. The
column aggregate needs that assumption because it takes its column indices from
the row indices.

The row and column checks and the constructor raise no errors:

- An out-of-range row or column makes its check return false: the row check
  walks nothing, and a missing column entry is never 1 (`RowOutOfRange`,
  `ColOutOfRange`).
- For a diagonal id outside its range, the model's check returns false too
  (`MajorIdOutOfRange`, `MinorIdOutOfRange`). This follows from the intended
  diagonal semantics below, not from the shipped code. The shipped major check
  throws a `TypeError` at its first step for every id below n, out-of-range ids
  included.
- Building a board from a negative size gives an empty board that keeps that
  `n`.

The point query reports conflicts that already exist on the board. On a board
whose only piece is at (0, 0), the query at (1, 1) is false, even though
(1, 1) shares a diagonal with that piece. It becomes true once a piece is
placed at (1, 1) (`PointQueryExample`).

The diagonal checks are modelled as their doc-comments and the id helpers
describe them (`src/Board.js:137-140`, `:201-204`, `:32-38`): a diagonal
conflicts when more than one in-bounds cell with that id holds 1. The walks
enter the grid at (0, d) or (-d, 0) for major diagonals, and at (0, d) or
(d - n + 1, n - 1) for minor diagonals. The shipped bodies do something else:

- `hasMajorDiagonalConflictAt` indexes the `rows` method instead of its result.
- The minor checks read `this.length` and `this[0]`, which the board object
  lacks, so their loops never run.
- `hasAnyMinorDiagonalConflicts` names an undefined `arr`.
- `hasAnyMajorDiagonalConflicts` is a stub that returns false.

## Model

| member | source | states |
|---|---|---|
| `Counting.CountTrue` | src/Board.js:82-87 | the `queens` counter never exceeds the number of cells walked |
| `Counting.CountTrueAboveOne` | src/Board.js:88-91 | the count is above one iff two different entries are true |
| `Counting.CountTrueZero` | src/Board.js:82-87 | the count is zero iff no entry is true |
| `BoardSpec.EmptyMatrix` | src/Board.js:255-261 | `makeEmptyMatrix(n)` is square with n rows (none for n < 0), every cell 0 |
| `BoardSpec.MajorDiagonalId` | src/Board.js:32-34 | the major id of (r, c) is the column d where its ↘ line meets row 0, so (r, c) is r steps ↘ of (0, d); ranges and step invariance are in `DiagonalIdRanges` and `DiagonalIdSteps` |
| `BoardSpec.MinorDiagonalId` | src/Board.js:36-38 | the minor id of (r, c) is the column d where its ↙ line meets row 0, so (r, c) is r steps ↙ of (0, d); ranges and step invariance are in `DiagonalIdRanges` and `DiagonalIdSteps` |
| `BoardSpec.DiagonalIdRanges` | src/Board.js:32-38 | for a cell passing `_isInBounds`, the major id is in [-(n-1), n-1] and the minor id in [0, 2n-2] |
| `BoardSpec.DiagonalIdSteps` | src/Board.js:32-38 | stepping ↘ keeps the major id and stepping ↙ keeps the minor id |
| `BoardSpec.ConflictIff` | src/Board.js:81-92 | for each kind of line, the counter-then-`> 1` test is true iff two different cells on the line hold exactly 1 |
| `BoardSpec.RowOutOfRange` | src/Board.js:81-92 | a row index outside [0, n) gives no conflict |
| `BoardSpec.ColOutOfRange` | src/Board.js:110-121 | a column index that no row is long enough to have gives no conflict |
| `BoardSpec.MajorIdOutOfRange` | src/Board.js:137-140 | a major id outside [-(n-1), n-1] gives no conflict (intended semantics; the shipped body throws) |
| `BoardSpec.MinorIdOutOfRange` | src/Board.js:201-204 | a minor id outside [0, 2n-2] gives no conflict (intended semantics) |
| `BoardSpec.RooksConflictIff` | src/Board.js:40-42 | on a square board, any row or column conflict iff two pieces attack each other as rooks |
| `BoardSpec.QueensConflictIff` | src/Board.js:53-55 | on a square board, any row, column or diagonal conflict iff two pieces attack each other as queens |
| `BoardSpec.PairOnSharedLine` | src/Board.js:44-55 | two in-bounds pieces that attack each other put a conflict on the line they share, and the queens aggregate is true |
| `BoardSpec.QueenConflictOnAttacked` | src/Board.js:44-51 | if (r, c) holds 1 and another in-bounds piece shares a line with it, the point query at (r, c) is true |
| `BoardSpec.QueenConflictOnIff` | src/Board.js:44-51 | the point query is true iff one of the four lines through (r, c), named by the ids `c - r` and `c + r`, holds two pieces |
| `BoardSpec.NoPiecesNoConflict` | src/Board.js:81-92 | a board with no cell equal to 1 has no conflict on any line |
| `BoardSpec.EmptyBoardHasNoConflicts` | src/Board.js:14-15 | the board built from `{n}` has no row, column, diagonal, queens or point-query conflict |
| `BoardSpec.ToggledValue` | src/Board.js:28 | `+ !v` is always 0 or 1, and is 1 exactly when v is 0 |
| `BoardSpec.Toggle` | src/Board.js:27-30 | the toggled cell becomes `+!old` (0 to 1, any other value to 0); every other cell and every row length stay the same |
| `BoardSpec.ToggleTwice` | src/Board.js:27-28 | toggling a 0/1 cell twice restores the board |
| `BoardSpec.ToggleKeepsSquare` | src/Board.js:27-28 | toggling keeps a square board square |
| `BoardSpec.ToggleOccupied` | src/Board.js:27-28 | after a toggle the cell holds a piece iff it was 0; no other cell changes occupancy |
| `BoardSpec.ToggleKeepsOtherLines` | src/Board.js:27-28 | a line that does not pass through the toggled cell keeps its conflict verdict |
| `BoardSpec.PlacingAttackedQueen` | src/Board.js:44-51 | placing a piece on an empty cell that another piece attacks makes the point query there true |
| `NQueensBoard.Board.FromSize` | src/Board.js:14-15 | `new Board({n})` keeps n and holds `makeEmptyMatrix(n)` |
| `NQueensBoard.Board.FromMatrix` | src/Board.js:16-17 | `new Board(matrix)` holds the matrix, with n its row count |
| `NQueensBoard.Board.Rows` | src/Board.js:21-25 | `rows()` gives n rows (none for n < 0) |
| `NQueensBoard.Board.IsInBounds` | src/Board.js:57-62 | `_isInBounds` holds iff both coordinates are in [0, number of rows) |
| `NQueensBoard.Board.TogglePiece` | src/Board.js:27-30 | an existing cell is toggled as `Toggle` says and `n` is unchanged; a missing cell is reported and nothing changes |
| `NQueensBoard.Board.HasRowConflictAt` | src/Board.js:81-92 | the loop's verdict equals the row's conflict test, including false for a missing row |
| `NQueensBoard.Board.HasAnyRowConflicts` | src/Board.js:95-104 | the flag is set iff some row index in [0, n) has a conflict |
| `NQueensBoard.Board.HasColConflictAt` | src/Board.js:110-121 | the loop's verdict equals the column's conflict test; rows without that entry are skipped |
| `NQueensBoard.Board.HasAnyColConflicts` | src/Board.js:124-133 | the flag is set iff some column index in [0, n) has a conflict |
| `NQueensBoard.Board.HasMajorDiagonalConflictAt` | src/Board.js:137-162 | walking from the entry cell of major diagonal d gives that diagonal's conflict test, for any id |
| `NQueensBoard.Board.HasAnyMajorDiagonalConflicts` | src/Board.js:164-199 | the flag is set iff some id in [-(n-1), n-1] has a conflict |
| `NQueensBoard.Board.HasMinorDiagonalConflictAt` | src/Board.js:201-223 | walking from the entry cell of minor diagonal d gives that diagonal's conflict test, for any id |
| `NQueensBoard.Board.HasAnyMinorDiagonalConflicts` | src/Board.js:225-248 | the flag is set iff some id in [0, 2n-2] has a conflict |
| `NQueensBoard.Board.HasAnyRooksConflicts` | src/Board.js:40-42 | the result is the rooks aggregate (any row or any column conflict) |
| `NQueensBoard.Board.HasAnyQueensConflicts` | src/Board.js:53-55 | the result is the queens aggregate (rooks or either diagonal family) |
| `NQueensBoard.Board.HasAnyQueenConflictsOn` | src/Board.js:44-51 | the result is the point query: the row, column and two diagonals through (r, c) |
| `BoardExamples.RowExample` | src/Board.js:81-104 | `[[1,0,0],[0,1,0],[1,0,1]]` has a conflict in row 2 and none in row 0 |
| `BoardExamples.ColumnExample` | src/Board.js:110-133 | `[[1,0,0],[1,0,0],[0,0,0]]` has a column-0 conflict and no row conflict |
| `BoardExamples.MainDiagonalNoRooksConflict` | src/Board.js:40-42 | a square board whose pieces all lie on the main diagonal has no rooks conflict |
| `BoardExamples.IdentityExample` | src/Board.js:53-55 | the identity board conflicts on major diagonal 0 only as queens, not as rooks |
| `BoardExamples.AntiDiagonalExample` | src/Board.js:201-223 | the anti-diagonal board conflicts on minor diagonal 2 and on no major diagonal |
| `BoardExamples.PointQueryExample` | src/Board.js:44-51 | with one piece at (0, 0) the query at (1, 1) is false, and it is true after toggling (1, 1) |

## Left out

- `NQueensBoard.Board.TogglePiece`: a cell that does not exist is reported as `IndexOutOfRange` and the board is left unchanged. The source throws for a missing row. For a column past the end of an existing row, the source writes a 1 there and the row grows. For a negative column, the source sets a property such as `"-1"` that the row walk never visits and only the column check at that index reads.
- The Backbone attribute store (`set`/`get`) and the `change` event fired after a toggle: only the state change is modelled.
- Calling the constructor with no argument only prints a usage guide to the console. The model's constructors take an argument, so that case cannot arise.
- Aliasing: the source keeps the caller's row arrays, so a toggle is visible through the caller's matrix. The model stores the rows as a value.
- The shipped bodies of the four diagonal checks are not modelled as written (see above). Neither is the commented-out draft in `hasAnyMajorDiagonalConflicts`.
- Non-integer cell values, and non-integer or non-numeric indices (JavaScript would read them as missing properties), are not modelled: cells and indices are integers.
- The visualiser that consumes these results is not part of this model.
