/**
 * The n-queens board object: a size `n` and the rows of its matrix, with the
 * checks that walk the rows, columns and diagonals with a counter, and the
 * scans that run a check for every index or id and raise a flag.
 *
 * Every query method is proved equal to its counterpart in `BoardSpec`; what
 * those counterparts mean (two pieces on a line, two pieces that attack each
 * other) is proved there.
 */
module NQueensBoard {
  import opened Counting
  import opened BoardSpec

  /** Outcome of `TogglePiece`: the cell was flipped, or it does not exist. */
  datatype Status = Toggled | IndexOutOfRange

  class Board {
    var n: int
    var cells: Matrix

    /** `rows()` lists rows 0 .. n-1, so there are n of them (none when n < 0). */
    ghost predicate Valid()
      reads this
    {
      |cells| == if n < 0 then 0 else n
    }

    /** `new Board({n: size})`: an empty board from `makeEmptyMatrix`. */
    constructor FromSize(size: int)
      ensures Valid() && n == size && cells == EmptyMatrix(size)
    {
      n := size;
      cells := EmptyMatrix(size);
    }

    /** `new Board(matrix)`: the rows are the matrix's, `n` its row count. */
    constructor FromMatrix(m: Matrix)
      ensures Valid() && n == |m| && cells == m
    {
      n := |m|;
      cells := m;
    }

    /** `rows()`: the board's n rows, in order. */
    function Rows(): (rs: Matrix)
      reads this
      requires Valid()
      ensures |rs| == (if n < 0 then 0 else n)
    {
      cells
    }

    /** `_isInBounds`: both coordinates are row indices of the board. */
    function IsInBounds(r: int, c: int): (b: bool)
      reads this
      requires Valid()
      ensures b <==> InBounds(|Rows()|, r, c)
    {
      0 <= r < n && 0 <= c < n
    }

    /**
     * `togglePiece(r, c)`: the cell becomes `+ !old`, everything else stays.
     * A cell that does not exist is reported instead of written.
     */
    method TogglePiece(r: int, c: int) returns (status: Status)
      requires Valid()
      modifies this
      ensures Valid() && n == old(n)
      ensures status == if IsCell(old(cells), r, c) then Toggled else IndexOutOfRange
      ensures status == Toggled ==> cells == Toggle(old(cells), r, c)
      ensures status == IndexOutOfRange ==> cells == old(cells)
    {
      if 0 <= r < |cells| && 0 <= c < |cells[r]| {
        cells := cells[r := cells[r][c := ToggledValue(cells[r][c])]];
        status := Toggled;
      } else {
        status := IndexOutOfRange;
      }
    }

    /** `hasRowConflictAt(r)`: count the entries of row r equal to 1. */
    method HasRowConflictAt(r: int) returns (b: bool)
      requires Valid()
      ensures b == HasConflict(Rows(), Row(r))
    {
      var rows := Rows();
      var queens := 0;
      if 0 <= r < |rows| {
        var row := rows[r];
        ghost var walk := Walk(rows, Row(r));
        var j := 0;
        while j < |row|
          invariant 0 <= j <= |row| == |walk|
          invariant queens == CountTrue(walk[..j])
        {
          CountTrueStep(walk, j);
          if row[j] == 1 {
            queens := queens + 1;
          }
          j := j + 1;
        }
        assert walk[..j] == walk;
      }
      b := queens > 1;
    }

    /** `hasAnyRowConflicts`: run the row check for every row index. */
    method HasAnyRowConflicts() returns (hasConflict: bool)
      requires Valid()
      ensures hasConflict == HasAnyRowConflict(Rows())
    {
      var rows := Rows();
      hasConflict := false;
      var i := 0;
      while i < |rows|
        invariant 0 <= i <= |rows|
        invariant hasConflict <==> exists k :: 0 <= k < i && HasConflict(rows, Row(k))
      {
        var conflict := HasRowConflictAt(i);
        if conflict {
          hasConflict := true;
        }
        i := i + 1;
      }
    }

    /**
     * `hasColConflictAt(c)`: count the rows whose entry c equals 1; a row
     * without an entry c contributes nothing.
     */
    method HasColConflictAt(c: int) returns (b: bool)
      requires Valid()
      ensures b == HasConflict(Rows(), Col(c))
    {
      var rows := Rows();
      ghost var walk := Walk(rows, Col(c));
      var queens := 0;
      var i := 0;
      while i < |rows|
        invariant 0 <= i <= |rows|
        invariant queens == CountTrue(walk[..i])
      {
        CountTrueStep(walk, i);
        var row := rows[i];
        if 0 <= c < |row| && row[c] == 1 {
          queens := queens + 1;
        }
        i := i + 1;
      }
      assert walk[..i] == walk;
      b := queens > 1;
    }

    /** `hasAnyColConflicts`: the column indices are the row indices 0 .. n-1. */
    method HasAnyColConflicts() returns (hasConflict: bool)
      requires Valid()
      ensures hasConflict == HasAnyColConflict(Rows())
    {
      var rows := Rows();
      hasConflict := false;
      var i := 0;
      while i < |rows|
        invariant 0 <= i <= |rows|
        invariant hasConflict <==> exists k :: 0 <= k < i && HasConflict(rows, Col(k))
      {
        var conflict := HasColConflictAt(i);
        if conflict {
          hasConflict := true;
        }
        i := i + 1;
      }
    }

    /**
     * `hasMajorDiagonalConflictAt(d)`: enter the grid at (0, d) for d >= 0 or
     * at (-d, 0) for d < 0, step down and right while both coordinates are in
     * [0, n), and count the cells equal to 1.
     */
    method HasMajorDiagonalConflictAt(d: int) returns (b: bool)
      requires Valid()
      ensures b == HasConflict(Rows(), Major(d))
    {
      var rows := Rows();
      var size := |rows|;
      ghost var walk := Walk(rows, Major(d));
      var r, c := if d < 0 then -d else 0, if d < 0 then 0 else d;
      forall i | 0 <= i < Min(r, size)
        ensures !walk[i]
      {
        MajorWalkAt(rows, d, i);
      }
      CountTrueNoneBefore(walk, Min(r, size));
      var queens := 0;
      while r < size && c < size
        invariant 0 <= r && 0 <= c && c == r + d
        invariant queens == CountTrue(walk[..Min(r, size)])
      {
        CountTrueStep(walk, r);
        MajorWalkAt(rows, d, r);
        var row := rows[r];
        if c < |row| && row[c] == 1 {
          queens := queens + 1;
        }
        r, c := r + 1, c + 1;
      }
      forall i | Min(r, size) <= i < size
        ensures !walk[i]
      {
        MajorWalkAt(rows, d, i);
      }
      CountTrueFalseSuffix(walk, Min(r, size));
      b := queens > 1;
    }

    /** `hasAnyMajorDiagonalConflicts`: run the check for every id in [-(n-1), n-1]. */
    method HasAnyMajorDiagonalConflicts() returns (hasConflict: bool)
      requires Valid()
      ensures hasConflict == HasAnyMajorConflict(Rows())
    {
      var rows := Rows();
      var size := |rows|;
      hasConflict := false;
      var d := 1 - size;
      while d <= size - 1
        invariant 1 - size <= d <= if size == 0 then 1 else size
        invariant hasConflict <==> exists k :: 1 - size <= k < d && HasConflict(rows, Major(k))
      {
        var conflict := HasMajorDiagonalConflictAt(d);
        if conflict {
          hasConflict := true;
        }
        d := d + 1;
      }
    }

    /**
     * `hasMinorDiagonalConflictAt(d)`: enter the grid at (0, d) for d < n or at
     * (d - n + 1, n - 1) otherwise, step down and left while the row is below n
     * and the column not negative, and count the cells equal to 1.
     */
    method HasMinorDiagonalConflictAt(d: int) returns (b: bool)
      requires Valid()
      ensures b == HasConflict(Rows(), Minor(d))
    {
      var rows := Rows();
      var size := |rows|;
      ghost var walk := Walk(rows, Minor(d));
      var r, c := if d < size then 0 else d - size + 1, if d < size then d else size - 1;
      forall i | 0 <= i < Min(r, size)
        ensures !walk[i]
      {
        MinorWalkAt(rows, d, i);
      }
      CountTrueNoneBefore(walk, Min(r, size));
      var queens := 0;
      while r < size && c >= 0
        invariant 0 <= r && c < size && c == d - r
        invariant queens == CountTrue(walk[..Min(r, size)])
      {
        CountTrueStep(walk, r);
        MinorWalkAt(rows, d, r);
        var row := rows[r];
        if c < |row| && row[c] == 1 {
          queens := queens + 1;
        }
        r, c := r + 1, c - 1;
      }
      forall i | Min(r, size) <= i < size
        ensures !walk[i]
      {
        MinorWalkAt(rows, d, i);
      }
      CountTrueFalseSuffix(walk, Min(r, size));
      b := queens > 1;
    }

    /** `hasAnyMinorDiagonalConflicts`: run the check for every id in [0, 2n-2]. */
    method HasAnyMinorDiagonalConflicts() returns (hasConflict: bool)
      requires Valid()
      ensures hasConflict == HasAnyMinorConflict(Rows())
    {
      var rows := Rows();
      var size := |rows|;
      hasConflict := false;
      var d := 0;
      while d <= 2 * size - 2
        invariant 0 <= d <= if size == 0 then 0 else 2 * size - 1
        invariant hasConflict <==> exists k :: 0 <= k < d && HasConflict(rows, Minor(k))
      {
        var conflict := HasMinorDiagonalConflictAt(d);
        if conflict {
          hasConflict := true;
        }
        d := d + 1;
      }
    }

    /** `hasAnyRooksConflicts`: any row conflict, else any column conflict. */
    method HasAnyRooksConflicts() returns (b: bool)
      requires Valid()
      ensures b == HasAnyRooksConflict(Rows())
    {
      b := HasAnyRowConflicts();
      if !b {
        b := HasAnyColConflicts();
      }
    }

    /** `hasAnyQueensConflicts`: a rooks conflict, else either diagonal family. */
    method HasAnyQueensConflicts() returns (b: bool)
      requires Valid()
      ensures b == HasAnyQueensConflict(Rows())
    {
      b := HasAnyRooksConflicts();
      if !b {
        b := HasAnyMajorDiagonalConflicts();
      }
      if !b {
        b := HasAnyMinorDiagonalConflicts();
      }
    }

    /**
     * `hasAnyQueenConflictsOn(r, c)`: the row, the column and the two
     * diagonals through (r, c), the diagonals named by their ids.
     */
    method HasAnyQueenConflictsOn(r: int, c: int) returns (b: bool)
      requires Valid()
      ensures b == HasQueenConflictOn(Rows(), r, c)
    {
      b := HasRowConflictAt(r);
      if !b {
        b := HasColConflictAt(c);
      }
      if !b {
        b := HasMajorDiagonalConflictAt(MajorDiagonalId(r, c));
      }
      if !b {
        b := HasMinorDiagonalConflictAt(MinorDiagonalId(r, c));
      }
    }
  }

  function Min(a: int, b: int): (k: int) {
    if a < b then a else b
  }
}
