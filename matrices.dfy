/** Augmented matrices over exact reals and the three row operations that
    Gaussian elimination is built from. */
module Matrices {

  /** A matrix as the list of its rows. In an augmented matrix the last column
      holds the constants and column `j` the coefficient of variable `x(j+1)`. */
  type Matrix = seq<seq<real>>

  /** Every row of `m` has `cols` entries. */
  predicate Shaped(m: Matrix, cols: nat) {
    forall i :: 0 <= i < |m| ==> |m[i]| == cols
  }

  /** A non-empty rectangular matrix: the shape that every stage reads its
      column count from (`len(matrix[0])`). */
  predicate Rectangular(m: Matrix) {
    |m| > 0 && Shaped(m, |m[0]|)
  }

  function Cols(m: Matrix): nat
    requires |m| > 0
  {
    |m[0]|
  }

  /** The matrix with rows `i` and `j` exchanged. */
  function Swap(m: Matrix, i: nat, j: nat): (r: Matrix)
    requires i < |m| && j < |m|
    ensures |r| == |m| && r[i] == m[j] && r[j] == m[i]
    ensures forall k :: 0 <= k < |m| && k != i && k != j ==> r[k] == m[k]
  {
    m[i := m[j]][j := m[i]]
  }

  /** Row `row` divided entrywise by the nonzero `p`. */
  function Scale(row: seq<real>, p: real): (s: seq<real>)
    requires p != 0.0
    ensures |s| == |row|
    ensures forall k :: 0 <= k < |row| ==> s[k] == row[k] / p
  {
    seq(|row|, k requires 0 <= k < |row| => row[k] / p)
  }

  /** Row `row` minus `f` times the row `pivot`, entry by entry. */
  function SubMultiple(row: seq<real>, f: real, pivot: seq<real>): (s: seq<real>)
    requires |pivot| == |row|
    ensures |s| == |row|
    ensures forall k :: 0 <= k < |row| ==> s[k] == row[k] - f * pivot[k]
  {
    seq(|row|, k requires 0 <= k < |row| => row[k] - f * pivot[k])
  }

  /** The first row at or below `from` whose entry in column `col` is nonzero,
      or `|m|` when there is none. */
  function FirstNonzero(m: Matrix, col: nat, from: nat): (j: nat)
    requires Rectangular(m) && col < Cols(m) && from <= |m|
    ensures from <= j <= |m|
    ensures forall k :: from <= k < j ==> m[k][col] == 0.0
    ensures j < |m| ==> m[j][col] != 0.0
    decreases |m| - from
  {
    if from == |m| then from
    else if m[from][col] != 0.0 then from
    else FirstNonzero(m, col, from + 1)
  }

  /** A linear scan that stops at the first nonzero entry finds `FirstNonzero`. */
  lemma {:induction false} FirstNonzeroIs(m: Matrix, col: nat, from: nat, j: nat)
    requires Rectangular(m) && col < Cols(m) && from <= j <= |m|
    requires forall k :: from <= k < j ==> m[k][col] == 0.0
    requires j < |m| ==> m[j][col] != 0.0
    ensures FirstNonzero(m, col, from) == j
  {
  }

  /** The position of the first nonzero entry of `row` at or after `from`,
      or `|row|` when there is none. */
  function LeadFrom(row: seq<real>, from: nat): (c: nat)
    requires from <= |row|
    ensures from <= c <= |row|
    ensures forall k :: from <= k < c ==> row[k] == 0.0
    ensures c < |row| ==> row[c] != 0.0
    decreases |row| - from
  {
    if from == |row| then from
    else if row[from] != 0.0 then from
    else LeadFrom(row, from + 1)
  }

  /** The column of the leading (first nonzero) entry of `row`; `|row|` for a zero row. */
  function Lead(row: seq<real>): nat
  {
    LeadFrom(row, 0)
  }

  predicate IsZeroRow(row: seq<real>) {
    forall k :: 0 <= k < |row| ==> row[k] == 0.0
  }

  /** A row is zero exactly when it has no leading entry. */
  lemma ZeroRowHasNoLead(row: seq<real>)
    ensures IsZeroRow(row) <==> Lead(row) == |row|
  {
    if Lead(row) < |row| {
      assert row[Lead(row)] != 0.0;
    }
  }

  /** The sum of `u[j] * x[j]` over the first `k` positions. */
  function Dot(u: seq<real>, x: seq<real>, k: nat): real
    requires k <= |u| && k <= |x|
  {
    if k == 0 then 0.0 else Dot(u, x, k - 1) + u[k - 1] * x[k - 1]
  }

  /** `x`, one value per variable, satisfies every equation of the augmented matrix `m`. */
  predicate Solves(m: Matrix, x: seq<real>)
    requires Rectangular(m) && Cols(m) == |x| + 1
  {
    forall r :: 0 <= r < |m| ==> Dot(m[r], x, |x|) == m[r][|x|]
  }

  lemma {:induction false} DotScale(row: seq<real>, p: real, x: seq<real>, k: nat)
    requires p != 0.0 && k <= |row| && k <= |x|
    ensures Dot(Scale(row, p), x, k) == Dot(row, x, k) / p
  {
    if k > 0 {
      DotScale(row, p, x, k - 1);
      var s := Scale(row, p);
      assert s[k - 1] * x[k - 1] == (row[k - 1] * x[k - 1]) / p;
    }
  }

  lemma {:induction false} DotSubMultiple(row: seq<real>, f: real, pivot: seq<real>, x: seq<real>, k: nat)
    requires |pivot| == |row| && k <= |row| && k <= |x|
    ensures Dot(SubMultiple(row, f, pivot), x, k) == Dot(row, x, k) - f * Dot(pivot, x, k)
  {
    if k > 0 {
      DotSubMultiple(row, f, pivot, x, k - 1);
      var s := SubMultiple(row, f, pivot);
      assert s[k - 1] * x[k - 1] == row[k - 1] * x[k - 1] - f * (pivot[k - 1] * x[k - 1]);
    }
  }

  lemma {:induction false} DotZeroRow(row: seq<real>, x: seq<real>, k: nat)
    requires k <= |row| && k <= |x|
    requires forall j :: 0 <= j < k ==> row[j] == 0.0
    ensures Dot(row, x, k) == 0.0
  {
    if k > 0 {
      DotZeroRow(row, x, k - 1);
    }
  }

  /** Exchanging two rows keeps the solution set. */
  lemma {:induction false} SwapKeepsSolutions(m: Matrix, i: nat, j: nat, x: seq<real>)
    requires Rectangular(m) && Cols(m) == |x| + 1 && i < |m| && j < |m|
    ensures Rectangular(Swap(m, i, j)) && Cols(Swap(m, i, j)) == Cols(m)
    ensures Solves(Swap(m, i, j), x) <==> Solves(m, x)
  {
    var s := Swap(m, i, j);
    assert s[0] == m[if 0 == i then j else if 0 == j then i else 0];
    if Solves(m, x) {
      forall r | 0 <= r < |s| ensures Dot(s[r], x, |x|) == s[r][|x|] {
        assert s[r] == m[if r == i then j else if r == j then i else r];
      }
    }
    if Solves(s, x) {
      forall r | 0 <= r < |m| ensures Dot(m[r], x, |x|) == m[r][|x|] {
        assert m[r] == s[if r == i then j else if r == j then i else r];
      }
    }
  }

  /** Dividing a row by a nonzero number keeps the solution set. */
  lemma {:induction false} ScaleKeepsSolutions(m: Matrix, i: nat, p: real, x: seq<real>)
    requires Rectangular(m) && Cols(m) == |x| + 1 && i < |m| && p != 0.0
    ensures Rectangular(m[i := Scale(m[i], p)]) && Cols(m[i := Scale(m[i], p)]) == Cols(m)
    ensures Solves(m[i := Scale(m[i], p)], x) <==> Solves(m, x)
  {
    var s := m[i := Scale(m[i], p)];
    assert Cols(s) == Cols(m);
    var n := |x|;
    DotScale(m[i], p, x, n);
    assert Dot(s[i], x, n) == Dot(m[i], x, n) / p && s[i][n] == m[i][n] / p;
    assert Dot(s[i], x, n) == s[i][n] <==> Dot(m[i], x, n) == m[i][n];
    if Solves(m, x) {
      forall r | 0 <= r < |s| ensures Dot(s[r], x, n) == s[r][n] {
        if r != i { assert s[r] == m[r]; }
      }
    }
    if Solves(s, x) {
      forall r | 0 <= r < |m| ensures Dot(m[r], x, n) == m[r][n] {
        if r != i { assert s[r] == m[r]; } else { assert Dot(s[i], x, n) == s[i][n]; }
      }
    }
  }

  /** `after` comes from `before` by subtracting, from some rows other than
      `p`, their column-`c` entry times row `p` (which is itself kept). */
  predicate CombinedWith(before: Matrix, after: Matrix, p: nat, c: nat)
    requires Rectangular(before) && p < |before| && c < Cols(before)
  {
    && |after| == |before|
    && after[p] == before[p]
    && forall r :: 0 <= r < |before| && r != p ==>
         after[r] == before[r] || after[r] == SubMultiple(before[r], before[r][c], before[p])
  }

  /** One combined row is satisfied exactly when the original row is, as long
      as the pivot row is satisfied. */
  lemma {:induction false} CombinedRowKeepsSolution(row: seq<real>, pivot: seq<real>, after: seq<real>, f: real, x: seq<real>)
    requires |row| == |pivot| == |x| + 1
    requires after == row || after == SubMultiple(row, f, pivot)
    requires Dot(pivot, x, |x|) == pivot[|x|]
    ensures |after| == |row|
    ensures Dot(after, x, |x|) == after[|x|] <==> Dot(row, x, |x|) == row[|x|]
  {
    if after != row {
      var n := |x|;
      DotSubMultiple(row, f, pivot, x, n);
      var shift := f * pivot[n];
      assert f * Dot(pivot, x, n) == shift;
      assert after[n] == row[n] - shift;
      assert Dot(after, x, n) == Dot(row, x, n) - shift;
    }
  }

  /** Subtracting multiples of one kept row from the others keeps the solution set. */
  lemma {:induction false} CombineKeepsSolutions(before: Matrix, after: Matrix, p: nat, c: nat, x: seq<real>)
    requires Rectangular(before) && Cols(before) == |x| + 1 && p < |before| && c < Cols(before)
    requires CombinedWith(before, after, p, c)
    ensures Rectangular(after) && Cols(after) == Cols(before)
    ensures Solves(after, x) <==> Solves(before, x)
  {
    var n := |x|;
    assert Shaped(after, Cols(before)) by {
      forall r | 0 <= r < |after| ensures |after[r]| == Cols(before) {
        if r != p {
          assert after[r] == before[r] || after[r] == SubMultiple(before[r], before[r][c], before[p]);
        }
      }
    }
    if Solves(before, x) || Solves(after, x) {
      assert Dot(before[p], x, n) == before[p][n];
      forall r | 0 <= r < |before|
        ensures Dot(after[r], x, n) == after[r][n] <==> Dot(before[r], x, n) == before[r][n]
      {
        if r != p {
          CombinedRowKeepsSolution(before[r], before[p], after[r], before[r][c], x);
        }
      }
    }
  }
}
