/**
 * Small boards and what the checks say about them.
 */
module BoardExamples {
  import opened BoardSpec

  /** Every piece of `m` lies on the main diagonal. */
  ghost predicate PiecesOnMainDiagonal(m: Matrix) {
    forall r, c :: Occupied(m, r, c) ==> r == c
  }

  /** Two pieces in row 2 and one each in rows 0 and 1. */
  lemma RowExample()
    ensures HasConflict([[1, 0, 0], [0, 1, 0], [1, 0, 1]], Row(2))
    ensures !HasConflict([[1, 0, 0], [0, 1, 0], [1, 0, 1]], Row(0))
    ensures HasAnyRowConflict([[1, 0, 0], [0, 1, 0], [1, 0, 1]])
  {
  }

  /** Two pieces in column 0, in different rows. */
  lemma ColumnExample()
    ensures HasConflict([[1, 0, 0], [1, 0, 0], [0, 0, 0]], Col(0))
    ensures HasAnyColConflict([[1, 0, 0], [1, 0, 0], [0, 0, 0]])
    ensures !HasAnyRowConflict([[1, 0, 0], [1, 0, 0], [0, 0, 0]])
  {
  }

  /** On a square board whose pieces are all on the main diagonal, no two share a row or column. */
  lemma MainDiagonalNoRooksConflict(m: Matrix)
    requires Square(m) && PiecesOnMainDiagonal(m)
    ensures !HasAnyRooksConflict(m)
  {
    RooksConflictIff(m);
  }

  /** The identity board: three pieces on major diagonal 0 only. */
  lemma IdentityExample()
    ensures HasConflict([[1, 0, 0], [0, 1, 0], [0, 0, 1]], Major(0))
    ensures !HasAnyRooksConflict([[1, 0, 0], [0, 1, 0], [0, 0, 1]])
    ensures HasAnyQueensConflict([[1, 0, 0], [0, 1, 0], [0, 0, 1]])
  {
    var m: Matrix := [[1, 0, 0], [0, 1, 0], [0, 0, 1]];
    assert OnLine(|m|, Major(0), 0, 0) && Occupied(m, 0, 0);
    assert OnLine(|m|, Major(0), 1, 1) && Occupied(m, 1, 1);
    ConflictIff(m, Major(0));
    forall r, c | Occupied(m, r, c)
      ensures r == c
    {
      if r == 0 {
        if c == 1 {
        } else if c == 2 {
        }
      } else if r == 1 {
        if c == 0 {
        } else if c == 2 {
        }
      } else {
        if c == 0 {
        } else if c == 1 {
        }
      }
    }
    MainDiagonalNoRooksConflict(m);
  }

  /** The anti-diagonal board: three pieces on minor diagonal 2, no two on a major diagonal. */
  lemma AntiDiagonalExample()
    ensures HasConflict([[0, 0, 1], [0, 1, 0], [1, 0, 0]], Minor(2))
    ensures !HasAnyMajorConflict([[0, 0, 1], [0, 1, 0], [1, 0, 0]])
    ensures HasAnyQueensConflict([[0, 0, 1], [0, 1, 0], [1, 0, 0]])
  {
    var m: Matrix := [[0, 0, 1], [0, 1, 0], [1, 0, 0]];
    assert OnLine(|m|, Minor(2), 0, 2) && Occupied(m, 0, 2);
    assert OnLine(|m|, Minor(2), 1, 1) && Occupied(m, 1, 1);
    ConflictIff(m, Minor(2));
    forall r, c | Occupied(m, r, c)
      ensures r + c == 2
    {
      if r == 0 {
        if c == 0 {
        } else if c == 1 {
        }
      } else if r == 1 {
        if c == 0 {
        } else if c == 2 {
        }
      } else {
        if c == 1 {
        } else if c == 2 {
        }
      }
    }
    forall d | -(|m| - 1) <= d <= |m| - 1
      ensures !HasConflict(m, Major(d))
    {
      ConflictIff(m, Major(d));
    }
  }

  /**
   * The point query reports conflicts already on the board, not the effect of
   * a piece that is not there: with one piece at (0, 0), cell (1, 1) shares a
   * major diagonal with it, yet the query at (1, 1) is false until a piece is
   * placed there.
   */
  lemma PointQueryExample()
    ensures !HasQueenConflictOn([[1, 0, 0], [0, 0, 0], [0, 0, 0]], 1, 1)
    ensures HasQueenConflictOn(Toggle([[1, 0, 0], [0, 0, 0], [0, 0, 0]], 1, 1), 1, 1)
  {
    var m: Matrix := [[1, 0, 0], [0, 0, 0], [0, 0, 0]];
    forall r, c | Occupied(m, r, c)
      ensures r == 0 && c == 0
    {
      if r == 1 {
        if c == 0 {
        } else if c == 1 {
        } else if c == 2 {
        }
      } else if r == 2 {
        if c == 0 {
        } else if c == 1 {
        } else if c == 2 {
        }
      } else {
        if c == 1 {
        } else if c == 2 {
        }
      }
    }
    QueenConflictOnIff(m, 1, 1);
    PlacingAttackedQueen(m, 1, 1, 0, 0);
  }
}
