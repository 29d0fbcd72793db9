/**
 * The conflict-detection logic of the n-queens board, as functions over the
 * board's matrix.
 *
 * A board is a sequence of rows of integers. The matrix a caller hands to the
 * board is not checked for squareness, so nothing here assumes it except the
 * lemmas that say so; the board's size `n` is its number of rows. A cell holds
 * a piece exactly when its value is 1 (values such as 2 are not pieces).
 *
 * The four kinds of line are rows, columns, major diagonals (top-left to
 * bottom-right, named by `c - r`) and minor diagonals (top-right to bottom-left,
 * named by `c + r`). A line has a conflict when more than one of its cells holds
 * a piece.
 *
 * The diagonal checks are modelled as the doc-comments of the diagonal helpers
 * and the id helpers describe them: more than one in-bounds cell with the given
 * id holds 1. The shipped diagonal bodies do something else: the major check
 * indexes the `rows` method itself instead of its result, the minor checks read
 * a `length` and a `[0]` that the board object does not have (so their loops
 * never run), the "any minor" scan names an undefined `arr`, and the "any major"
 * check is a stub returning false.
 */
module BoardSpec {
  import opened Counting

  type Matrix = seq<seq<int>>

  /** The board's rows all have the board's length. */
  predicate Square(m: Matrix) {
    forall r :: 0 <= r < |m| ==> |m[r]| == |m|
  }

  /** A cell that exists in the matrix (its row exists and is long enough). */
  predicate IsCell(m: Matrix, r: int, c: int) {
    0 <= r < |m| && 0 <= c < |m[r]|
  }

  /** A cell whose value is exactly 1; a missing cell is never occupied. */
  predicate Occupied(m: Matrix, r: int, c: int) {
    IsCell(m, r, c) && m[r][c] == 1
  }

  /** `_isInBounds`: both coordinates lie in [0, n). */
  predicate InBounds(n: int, r: int, c: int) {
    0 <= r < n && 0 <= c < n
  }

  /**
   * Id of the major diagonal through (r, c): the column d where it meets row 0,
   * so that (r, c) is r steps down and to the right of (0, d).
   */
  function MajorDiagonalId(r: int, c: int): (d: int)
    ensures c == d + r
  {
    c - r
  }

  /**
   * Id of the minor diagonal through (r, c): the column d where it meets row 0
   * (the grid or its extension), so that (r, c) is r steps down and to the left
   * of (0, d).
   */
  function MinorDiagonalId(r: int, c: int): (d: int)
    ensures c == d - r
  {
    c + r
  }

  lemma DiagonalIdRanges(n: int, r: int, c: int)
    requires InBounds(n, r, c)
    ensures -(n - 1) <= MajorDiagonalId(r, c) <= n - 1
    ensures 0 <= MinorDiagonalId(r, c) <= 2 * n - 2
  {
  }

  /** Stepping along a diagonal keeps its id. */
  lemma DiagonalIdSteps(r: int, c: int, k: int)
    ensures MajorDiagonalId(r + k, c + k) == MajorDiagonalId(r, c)
    ensures MinorDiagonalId(r + k, c - k) == MinorDiagonalId(r, c)
  {
  }

  /** The empty board of `makeEmptyMatrix(n)`: n rows of n zeros (none for n < 0). */
  function EmptyMatrix(n: int): (m: Matrix)
    ensures Square(m) && |m| == (if n < 0 then 0 else n)
    ensures forall r, c :: IsCell(m, r, c) ==> m[r][c] == 0
  {
    var k := if n < 0 then 0 else n;
    seq(k, _ => seq(k, _ => 0))
  }

  // ---------------------------------------------------------------------------
  // Lines and their conflicts
  // ---------------------------------------------------------------------------

  /** A row, a column, a major diagonal or a minor diagonal, by index or id. */
  datatype Line = Row(r: int) | Col(c: int) | Major(d: int) | Minor(d: int)

  /** Cell (r, c) lies on `line` of a board with `n` rows. */
  predicate OnLine(n: int, line: Line, r: int, c: int) {
    match line
    case Row(k) => r == k
    case Col(k) => c == k
    case Major(d) => InBounds(n, r, c) && MajorDiagonalId(r, c) == d
    case Minor(d) => InBounds(n, r, c) && MinorDiagonalId(r, c) == d
  }

  /** The cell at position `i` of the walk along `line`. */
  function CellAt(line: Line, i: int): (cell: (int, int)) {
    match line
    case Row(k) => (k, i)
    case Col(k) => (i, k)
    case Major(d) => (i, i + d)
    case Minor(d) => (i, d - i)
  }

  /** Position of cell (r, c) in the walk along `line`. */
  function PositionOn(line: Line, r: int, c: int): (i: int) {
    if line.Row? then c else r
  }

  /**
   * What the check of `line` sees, position by position: a row is walked
   * along its own entries, every other line row by row; an entry is true when
   * that position is a cell of the line holding exactly 1.
   */
  function Walk(m: Matrix, line: Line): (s: seq<bool>) {
    match line
    case Row(k) => if 0 <= k < |m| then seq(|m[k]|, j => Occupied(m, k, j)) else []
    case Col(k) => seq(|m|, i => Occupied(m, i, k))
    case Major(d) => seq(|m|, i => InBounds(|m|, i, i + d) && Occupied(m, i, i + d))
    case Minor(d) => seq(|m|, i => InBounds(|m|, i, d - i) && Occupied(m, i, d - i))
  }

  /** The conflict test shared by all `*ConflictAt` checks: more than one piece. */
  predicate HasConflict(m: Matrix, line: Line) {
    CountTrue(Walk(m, line)) > 1
  }

  /** Two different cells of `line` both hold exactly 1. */
  ghost predicate TwoPiecesOn(m: Matrix, line: Line) {
    exists r1, c1, r2, c2 ::
      (r1 != r2 || c1 != c2) &&
      OnLine(|m|, line, r1, c1) && Occupied(m, r1, c1) &&
      OnLine(|m|, line, r2, c2) && Occupied(m, r2, c2)
  }

  /** Entry `i` of the walk is the cell `CellAt(line, i)`. */
  lemma WalkAt(m: Matrix, line: Line, i: int)
    requires 0 <= i < |Walk(m, line)|
    ensures Walk(m, line)[i] <==>
            OnLine(|m|, line, CellAt(line, i).0, CellAt(line, i).1) &&
            Occupied(m, CellAt(line, i).0, CellAt(line, i).1)
    ensures PositionOn(line, CellAt(line, i).0, CellAt(line, i).1) == i
  {
  }

  /** Entry `i` of a major-diagonal walk: the cell (i, i + d) if it is in bounds. */
  lemma MajorWalkAt(m: Matrix, d: int, i: int)
    requires 0 <= i < |m|
    ensures Walk(m, Major(d))[i] <==> 0 <= i + d < |m| && i + d < |m[i]| && m[i][i + d] == 1
  {
    assert Walk(m, Major(d))[i] == (InBounds(|m|, i, i + d) && Occupied(m, i, i + d));
  }

  /** Entry `i` of a minor-diagonal walk: the cell (i, d - i) if it is in bounds. */
  lemma MinorWalkAt(m: Matrix, d: int, i: int)
    requires 0 <= i < |m|
    ensures Walk(m, Minor(d))[i] <==> 0 <= d - i < |m| && d - i < |m[i]| && m[i][d - i] == 1
  {
    assert Walk(m, Minor(d))[i] == (InBounds(|m|, i, d - i) && Occupied(m, i, d - i));
  }

  /** Every occupied cell of `line` appears in the walk, at its position. */
  lemma WalkFinds(m: Matrix, line: Line, r: int, c: int)
    requires OnLine(|m|, line, r, c) && Occupied(m, r, c)
    ensures 0 <= PositionOn(line, r, c) < |Walk(m, line)|
    ensures Walk(m, line)[PositionOn(line, r, c)]
    ensures CellAt(line, PositionOn(line, r, c)) == (r, c)
  {
  }

  /**
   * The counter-then-`> 1` test means what its comment says: the line
   * has a conflict exactly when two different cells on it hold a piece.
   */
  lemma ConflictIff(m: Matrix, line: Line)
    ensures HasConflict(m, line) <==> TwoPiecesOn(m, line)
  {
    var s := Walk(m, line);
    CountTrueAboveOne(s);
    if HasConflict(m, line) {
      var i, j :| 0 <= i < |s| && 0 <= j < |s| && i != j && s[i] && s[j];
      WalkAt(m, line, i);
      WalkAt(m, line, j);
      var (r1, c1) := CellAt(line, i);
      var (r2, c2) := CellAt(line, j);
      assert OnLine(|m|, line, r1, c1) && Occupied(m, r1, c1);
      assert OnLine(|m|, line, r2, c2) && Occupied(m, r2, c2);
    }
    if TwoPiecesOn(m, line) {
      var r1, c1, r2, c2 :|
        (r1 != r2 || c1 != c2) &&
        OnLine(|m|, line, r1, c1) && Occupied(m, r1, c1) &&
        OnLine(|m|, line, r2, c2) && Occupied(m, r2, c2);
      WalkFinds(m, line, r1, c1);
      WalkFinds(m, line, r2, c2);
      var i, j := PositionOn(line, r1, c1), PositionOn(line, r2, c2);
      assert 0 <= i < |s| && 0 <= j < |s| && i != j && s[i] && s[j];
    }
  }

  /** No conflict is ever reported for a row index outside [0, n). */
  lemma RowOutOfRange(m: Matrix, r: int)
    requires r < 0 || r >= |m|
    ensures !HasConflict(m, Row(r))
  {
  }

  /** Nor for a column that no row is long enough to have. */
  lemma ColOutOfRange(m: Matrix, c: int)
    requires forall r :: 0 <= r < |m| ==> !(0 <= c < |m[r]|)
    ensures !HasConflict(m, Col(c))
  {
    ConflictIff(m, Col(c));
  }

  /** Nor for a major diagonal id outside [-(n-1), n-1]. */
  lemma MajorIdOutOfRange(m: Matrix, d: int)
    requires d < -(|m| - 1) || d > |m| - 1
    ensures !HasConflict(m, Major(d))
  {
    ConflictIff(m, Major(d));
    forall r1, c1 | InBounds(|m|, r1, c1)
      ensures MajorDiagonalId(r1, c1) != d
    {
      DiagonalIdRanges(|m|, r1, c1);
    }
  }

  /** Nor for a minor diagonal id outside [0, 2n-2]. */
  lemma MinorIdOutOfRange(m: Matrix, e: int)
    requires e < 0 || e > 2 * |m| - 2
    ensures !HasConflict(m, Minor(e))
  {
    ConflictIff(m, Minor(e));
    forall r1, c1 | InBounds(|m|, r1, c1)
      ensures MinorDiagonalId(r1, c1) != e
    {
      DiagonalIdRanges(|m|, r1, c1);
    }
  }

  // ---------------------------------------------------------------------------
  // Aggregates and the point query
  // ---------------------------------------------------------------------------

  /** `hasAnyRowConflicts`: some row index in [0, n) has a conflict. */
  predicate HasAnyRowConflict(m: Matrix) {
    exists r :: 0 <= r < |m| && HasConflict(m, Row(r))
  }

  /** `hasAnyColConflicts`: column indices are taken from the row indices [0, n). */
  predicate HasAnyColConflict(m: Matrix) {
    exists c :: 0 <= c < |m| && HasConflict(m, Col(c))
  }

  /** Some major diagonal id in [-(n-1), n-1] has a conflict. */
  predicate HasAnyMajorConflict(m: Matrix) {
    exists d :: -(|m| - 1) <= d <= |m| - 1 && HasConflict(m, Major(d))
  }

  /** Some minor diagonal id in [0, 2n-2] has a conflict. */
  predicate HasAnyMinorConflict(m: Matrix) {
    exists d :: 0 <= d <= 2 * |m| - 2 && HasConflict(m, Minor(d))
  }

  predicate HasAnyRooksConflict(m: Matrix) {
    HasAnyRowConflict(m) || HasAnyColConflict(m)
  }

  predicate HasAnyQueensConflict(m: Matrix) {
    HasAnyRooksConflict(m) || HasAnyMajorConflict(m) || HasAnyMinorConflict(m)
  }

  /** `hasAnyQueenConflictsOn(r, c)`: one of the four lines through (r, c) conflicts. */
  predicate HasQueenConflictOn(m: Matrix, r: int, c: int) {
    HasConflict(m, Row(r)) ||
    HasConflict(m, Col(c)) ||
    HasConflict(m, Major(MajorDiagonalId(r, c))) ||
    HasConflict(m, Minor(MinorDiagonalId(r, c)))
  }

  /** Two different cells that a rook on one would attack on the other. */
  predicate RookAttacks(r1: int, c1: int, r2: int, c2: int) {
    (r1 != r2 || c1 != c2) && (r1 == r2 || c1 == c2)
  }

  /** Two different cells that a queen on one would attack on the other. */
  predicate QueenAttacks(r1: int, c1: int, r2: int, c2: int) {
    (r1 != r2 || c1 != c2) &&
    (r1 == r2 || c1 == c2 ||
     MajorDiagonalId(r1, c1) == MajorDiagonalId(r2, c2) ||
     MinorDiagonalId(r1, c1) == MinorDiagonalId(r2, c2))
  }

  /** On a square board, a rooks conflict is exactly two pieces that attack as rooks. */
  lemma RooksConflictIff(m: Matrix)
    requires Square(m)
    ensures HasAnyRooksConflict(m) <==>
            exists r1, c1, r2, c2 ::
              Occupied(m, r1, c1) && Occupied(m, r2, c2) && RookAttacks(r1, c1, r2, c2)
  {
    if HasAnyRowConflict(m) {
      var r :| 0 <= r < |m| && HasConflict(m, Row(r));
      ConflictIff(m, Row(r));
      var r1, c1, r2, c2 :| (r1 != r2 || c1 != c2) &&
        OnLine(|m|, Row(r), r1, c1) && Occupied(m, r1, c1) &&
        OnLine(|m|, Row(r), r2, c2) && Occupied(m, r2, c2);
      assert RookAttacks(r1, c1, r2, c2);
    } else if HasAnyColConflict(m) {
      var c :| 0 <= c < |m| && HasConflict(m, Col(c));
      ConflictIff(m, Col(c));
      var r1, c1, r2, c2 :| (r1 != r2 || c1 != c2) &&
        OnLine(|m|, Col(c), r1, c1) && Occupied(m, r1, c1) &&
        OnLine(|m|, Col(c), r2, c2) && Occupied(m, r2, c2);
      assert RookAttacks(r1, c1, r2, c2);
    }
    if exists r1, c1, r2, c2 ::
         Occupied(m, r1, c1) && Occupied(m, r2, c2) && RookAttacks(r1, c1, r2, c2) {
      var r1, c1, r2, c2 :|
        Occupied(m, r1, c1) && Occupied(m, r2, c2) && RookAttacks(r1, c1, r2, c2);
      PairOnSharedLine(m, r1, c1, r2, c2);
    }
  }

  /** On a square board, a queens conflict is exactly two pieces that attack as queens. */
  lemma QueensConflictIff(m: Matrix)
    requires Square(m)
    ensures HasAnyQueensConflict(m) <==>
            exists r1, c1, r2, c2 ::
              Occupied(m, r1, c1) && Occupied(m, r2, c2) && QueenAttacks(r1, c1, r2, c2)
  {
    RooksConflictIff(m);
    if HasAnyRooksConflict(m) {
      var r1, c1, r2, c2 :|
        Occupied(m, r1, c1) && Occupied(m, r2, c2) && RookAttacks(r1, c1, r2, c2);
      assert QueenAttacks(r1, c1, r2, c2);
    } else if HasAnyMajorConflict(m) {
      var d :| -(|m| - 1) <= d <= |m| - 1 && HasConflict(m, Major(d));
      ConflictIff(m, Major(d));
      var r1, c1, r2, c2 :| (r1 != r2 || c1 != c2) &&
        OnLine(|m|, Major(d), r1, c1) && Occupied(m, r1, c1) &&
        OnLine(|m|, Major(d), r2, c2) && Occupied(m, r2, c2);
      assert QueenAttacks(r1, c1, r2, c2);
    } else if HasAnyMinorConflict(m) {
      var d :| 0 <= d <= 2 * |m| - 2 && HasConflict(m, Minor(d));
      ConflictIff(m, Minor(d));
      var r1, c1, r2, c2 :| (r1 != r2 || c1 != c2) &&
        OnLine(|m|, Minor(d), r1, c1) && Occupied(m, r1, c1) &&
        OnLine(|m|, Minor(d), r2, c2) && Occupied(m, r2, c2);
      assert QueenAttacks(r1, c1, r2, c2);
    }
    if exists r1, c1, r2, c2 ::
         Occupied(m, r1, c1) && Occupied(m, r2, c2) && QueenAttacks(r1, c1, r2, c2) {
      var r1, c1, r2, c2 :|
        Occupied(m, r1, c1) && Occupied(m, r2, c2) && QueenAttacks(r1, c1, r2, c2);
      PairOnSharedLine(m, r1, c1, r2, c2);
    }
  }

  /**
   * Two different in-bounds pieces that attack each other put a conflict on
   * the line they share, and that line's index or id is in its valid range.
   */
  lemma PairOnSharedLine(m: Matrix, r1: int, c1: int, r2: int, c2: int)
    requires InBounds(|m|, r1, c1) && InBounds(|m|, r2, c2)
    requires Occupied(m, r1, c1) && Occupied(m, r2, c2) && QueenAttacks(r1, c1, r2, c2)
    ensures r1 == r2 ==> HasConflict(m, Row(r1))
    ensures c1 == c2 ==> HasConflict(m, Col(c1))
    ensures MajorDiagonalId(r1, c1) == MajorDiagonalId(r2, c2) ==>
              HasConflict(m, Major(MajorDiagonalId(r1, c1)))
    ensures MinorDiagonalId(r1, c1) == MinorDiagonalId(r2, c2) ==>
              HasConflict(m, Minor(MinorDiagonalId(r1, c1)))
    ensures HasAnyQueensConflict(m)
    ensures RookAttacks(r1, c1, r2, c2) ==> HasAnyRooksConflict(m)
  {
    var d, e := MajorDiagonalId(r1, c1), MinorDiagonalId(r1, c1);
    DiagonalIdRanges(|m|, r1, c1);
    if r1 == r2 {
      assert TwoPiecesOn(m, Row(r1)) by {
        assert OnLine(|m|, Row(r1), r1, c1) && OnLine(|m|, Row(r1), r2, c2);
      }
      ConflictIff(m, Row(r1));
    }
    if c1 == c2 {
      assert TwoPiecesOn(m, Col(c1)) by {
        assert OnLine(|m|, Col(c1), r1, c1) && OnLine(|m|, Col(c1), r2, c2);
      }
      ConflictIff(m, Col(c1));
    }
    if d == MajorDiagonalId(r2, c2) {
      assert TwoPiecesOn(m, Major(d)) by {
        assert OnLine(|m|, Major(d), r1, c1) && OnLine(|m|, Major(d), r2, c2);
      }
      ConflictIff(m, Major(d));
    }
    if e == MinorDiagonalId(r2, c2) {
      assert TwoPiecesOn(m, Minor(e)) by {
        assert OnLine(|m|, Minor(e), r1, c1) && OnLine(|m|, Minor(e), r2, c2);
      }
      ConflictIff(m, Minor(e));
    }
  }

  /**
   * The point query reports a conflict for an in-bounds cell holding a piece
   * when another in-bounds piece shares one of its four lines.
   */
  lemma QueenConflictOnAttacked(m: Matrix, r: int, c: int, r2: int, c2: int)
    requires InBounds(|m|, r, c) && InBounds(|m|, r2, c2)
    requires Occupied(m, r, c) && Occupied(m, r2, c2) && QueenAttacks(r, c, r2, c2)
    ensures HasQueenConflictOn(m, r, c)
  {
    PairOnSharedLine(m, r, c, r2, c2);
  }

  /** The point query is true exactly when a line through (r, c) holds two pieces. */
  lemma QueenConflictOnIff(m: Matrix, r: int, c: int)
    ensures HasQueenConflictOn(m, r, c) <==>
            TwoPiecesOn(m, Row(r)) || TwoPiecesOn(m, Col(c)) ||
            TwoPiecesOn(m, Major(MajorDiagonalId(r, c))) ||
            TwoPiecesOn(m, Minor(MinorDiagonalId(r, c)))
  {
    ConflictIff(m, Row(r));
    ConflictIff(m, Col(c));
    ConflictIff(m, Major(MajorDiagonalId(r, c)));
    ConflictIff(m, Minor(MinorDiagonalId(r, c)));
  }

  /** A board with no cell holding 1 has no conflict on any line. */
  lemma NoPiecesNoConflict(m: Matrix, line: Line)
    requires forall r, c :: !Occupied(m, r, c)
    ensures !HasConflict(m, line)
  {
    ConflictIff(m, line);
  }

  /** The board built from `{n}` has no conflict of any kind. */
  lemma EmptyBoardHasNoConflicts(n: int)
    ensures !HasAnyRowConflict(EmptyMatrix(n)) && !HasAnyColConflict(EmptyMatrix(n))
    ensures !HasAnyMajorConflict(EmptyMatrix(n)) && !HasAnyMinorConflict(EmptyMatrix(n))
    ensures !HasAnyQueensConflict(EmptyMatrix(n))
    ensures forall r, c :: !HasQueenConflictOn(EmptyMatrix(n), r, c)
  {
    var m := EmptyMatrix(n);
    forall line: Line
      ensures !HasConflict(m, line)
    {
      NoPiecesNoConflict(m, line);
    }
  }

  // ---------------------------------------------------------------------------
  // Toggling a cell
  // ---------------------------------------------------------------------------

  /** `+ !v`: 0 becomes 1, every other value becomes 0. */
  function ToggledValue(v: int): (t: int)
    ensures t == 0 || t == 1
    ensures t == 1 <==> v == 0
  {
    if v == 0 then 1 else 0
  }

  /** `togglePiece` on an existing cell: only that cell changes. */
  function Toggle(m: Matrix, r: int, c: int): (t: Matrix)
    requires IsCell(m, r, c)
    ensures |t| == |m| && forall i :: 0 <= i < |m| ==> |t[i]| == |m[i]|
    ensures t[r][c] == ToggledValue(m[r][c])
    ensures forall i, j :: IsCell(m, i, j) && (i != r || j != c) ==> t[i][j] == m[i][j]
  {
    m[r := m[r][c := ToggledValue(m[r][c])]]
  }

  /** Toggling a 0/1 cell twice restores the board. */
  lemma ToggleTwice(m: Matrix, r: int, c: int)
    requires IsCell(m, r, c) && (m[r][c] == 0 || m[r][c] == 1)
    ensures Toggle(Toggle(m, r, c), r, c) == m
  {
    var t := Toggle(Toggle(m, r, c), r, c);
    assert t[r] == m[r];
  }

  lemma ToggleKeepsSquare(m: Matrix, r: int, c: int)
    requires IsCell(m, r, c) && Square(m)
    ensures Square(Toggle(m, r, c))
  {
  }

  /** After the toggle, (r, c) holds a piece exactly when it was 0 before. */
  lemma ToggleOccupied(m: Matrix, r: int, c: int, i: int, j: int)
    requires IsCell(m, r, c)
    ensures Occupied(Toggle(m, r, c), i, j) ==
            if i == r && j == c then m[r][c] == 0 else Occupied(m, i, j)
  {
  }

  /** A line that does not pass through (r, c) keeps its verdict across the toggle. */
  lemma ToggleKeepsOtherLines(m: Matrix, r: int, c: int, line: Line)
    requires IsCell(m, r, c) && !OnLine(|m|, line, r, c)
    ensures HasConflict(Toggle(m, r, c), line) == HasConflict(m, line)
  {
    var t := Toggle(m, r, c);
    forall i, j ensures OnLine(|m|, line, i, j) ==> Occupied(t, i, j) == Occupied(m, i, j) {
      ToggleOccupied(m, r, c, i, j);
    }
    ConflictIff(m, line);
    ConflictIff(t, line);
  }

  /**
   * Placing a piece on an empty cell that another piece attacks makes the
   * point query at that cell report a conflict.
   */
  lemma PlacingAttackedQueen(m: Matrix, r: int, c: int, r2: int, c2: int)
    requires InBounds(|m|, r, c) && InBounds(|m|, r2, c2) && IsCell(m, r, c)
    requires m[r][c] == 0 && Occupied(m, r2, c2) && QueenAttacks(r, c, r2, c2)
    ensures HasQueenConflictOn(Toggle(m, r, c), r, c)
  {
    var t := Toggle(m, r, c);
    ToggleOccupied(m, r, c, r, c);
    ToggleOccupied(m, r, c, r2, c2);
    QueenConflictOnAttacked(t, r, c, r2, c2);
  }
}
