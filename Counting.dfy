/**
 * Counting the `true` entries of a sequence of booleans.
 *
 * Every conflict check of the board walks one line of cells and counts the
 * cells that hold exactly 1; a line is modelled as the sequence of booleans
 * "this cell holds a piece", and the counter as `CountTrue`.
 */
module Counting {

  /** Number of `true` entries of `s`, counted from the front (as a loop does). */
  function CountTrue(s: seq<bool>): (k: nat)
    ensures k <= |s|
  {
    if |s| == 0 then 0 else CountTrue(s[..|s| - 1]) + (if s[|s| - 1] then 1 else 0)
  }

  /** One more step of a counting loop: the prefix of length `i + 1`. */
  lemma CountTrueStep(s: seq<bool>, i: int)
    requires 0 <= i < |s|
    ensures CountTrue(s[..i + 1]) == CountTrue(s[..i]) + (if s[i] then 1 else 0)
  {
    assert s[..i + 1][..i] == s[..i];
  }

  lemma {:induction false} CountTrueAppend(a: seq<bool>, b: seq<bool>)
    ensures CountTrue(a + b) == CountTrue(a) + CountTrue(b)
  {
    if |b| == 0 {
      assert a + b == a;
    } else {
      assert (a + b)[..|a + b| - 1] == a + b[..|b| - 1];
      CountTrueAppend(a, b[..|b| - 1]);
    }
  }

  /** The count is zero exactly when no entry is `true`. */
  lemma {:induction false} CountTrueZero(s: seq<bool>)
    ensures CountTrue(s) == 0 <==> forall i :: 0 <= i < |s| ==> !s[i]
  {
    if |s| > 0 {
      var p := s[..|s| - 1];
      CountTrueZero(p);
      assert forall i :: 0 <= i < |p| ==> p[i] == s[i];
    }
  }

  /** The count is above one exactly when two different entries are `true`. */
  lemma {:induction false} CountTrueAboveOne(s: seq<bool>)
    ensures CountTrue(s) > 1 <==>
            exists i, j :: 0 <= i < |s| && 0 <= j < |s| && i != j && s[i] && s[j]
  {
    if |s| > 0 {
      var last := |s| - 1;
      var p := s[..last];
      assert forall i :: 0 <= i < |p| ==> p[i] == s[i];
      CountTrueAboveOne(p);
      CountTrueZero(p);
      if CountTrue(s) > 1 {
        if CountTrue(p) > 1 {
          var i, j :| 0 <= i < |p| && 0 <= j < |p| && i != j && p[i] && p[j];
          assert s[i] && s[j];
        } else {
          var i :| 0 <= i < |p| && p[i];
          assert s[i] && s[last];
        }
      } else if exists i, j :: 0 <= i < |s| && 0 <= j < |s| && i != j && s[i] && s[j] {
        var i, j :| 0 <= i < |s| && 0 <= j < |s| && i != j && s[i] && s[j];
        if i < last && j < last {
          assert p[i] && p[j];
        } else if i < last {
          assert p[i];
        } else {
          assert p[j];
        }
      }
    }
  }

  /** A prefix of `false` entries counts nothing. */
  lemma CountTrueNoneBefore(s: seq<bool>, k: int)
    requires 0 <= k <= |s|
    requires forall i :: 0 <= i < k ==> !s[i]
    ensures CountTrue(s[..k]) == 0
  {
    CountTrueZero(s[..k]);
  }

  /** Entries from `k` on that are all `false` add nothing to the count. */
  lemma CountTrueFalseSuffix(s: seq<bool>, k: int)
    requires 0 <= k <= |s|
    requires forall i :: k <= i < |s| ==> !s[i]
    ensures CountTrue(s) == CountTrue(s[..k])
  {
    assert s == s[..k] + s[k..];
    CountTrueAppend(s[..k], s[k..]);
    CountTrueZero(s[k..]);
  }
}
