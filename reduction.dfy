/** The Gauss-Jordan sweep `reduced_row_echelon_form` (Rowoperation.py:27-70):
    the forward pass, a `row`/`col` cursor loop that makes one unit column per
    pivot, and a cleanup that snaps near-zero entries to 0. */
module Reduction {
  import opened Matrices
  import opened Echelon

  /** Every row other than `row` loses its column-`col` entry times row `row`
      (lines 53-56). */
  function EliminateOthers(m: Matrix, row: nat, col: nat): (r: Matrix)
    requires Rectangular(m) && row < |m| && col < Cols(m)
    ensures Rectangular(r) && |r| == |m| && Cols(r) == Cols(m)
    ensures CombinedWith(m, r, row, col)
    ensures m[row][col] == 1.0 ==> forall i :: 0 <= i < |m| && i != row ==> r[i][col] == 0.0
  {
    seq(|m|, i requires 0 <= i < |m| =>
      if i != row then SubMultiple(m[i], m[i][col], m[row]) else m[i])
  }

  /** One pivot step of the loop (lines 44-56), with `j` the row the search found. */
  function PivotStep(m: Matrix, row: nat, col: nat, j: nat): (r: Matrix)
    requires Rectangular(m) && row <= j < |m| && col < Cols(m) && m[j][col] != 0.0
    ensures Rectangular(r) && |r| == |m| && Cols(r) == Cols(m)
    ensures r[row] == Scale(m[j], m[j][col])
    ensures r[row][col] == 1.0
    ensures forall i :: 0 <= i < |m| && i != row ==> r[i][col] == 0.0
  {
    var swapped := if j != row then Swap(m, row, j) else m;
    var scaled := swapped[row := Scale(swapped[row], swapped[row][col])];
    EliminateOthers(scaled, row, col)
  }

  /** The cursor loop of lines 34-60, from cursors `row` and `col` on. A column
      with no nonzero entry from `row` down advances `col` only. */
  function RrefFrom(m: Matrix, row: nat, col: nat): (r: Matrix)
    requires Rectangular(m) && row <= |m| && col <= Cols(m)
    ensures Rectangular(r) && |r| == |m| && Cols(r) == Cols(m)
    decreases Cols(m) - col
  {
    if row < |m| && col < Cols(m) then
      var j := FirstNonzero(m, col, row);
      if j == |m| then RrefFrom(m, row, col + 1)
      else RrefFrom(PivotStep(m, row, col, j), row + 1, col + 1)
    else m
  }

  const Epsilon: real := 0.0001

  /** The cleanup rule of lines 65-66: a value strictly between -0.0001 and
      0.0001 becomes exactly 0. Rounding the other values to four decimals
      (line 68) is not part of this model; they are kept as they are. */
  function Snap(v: real): (s: real)
    ensures s == 0.0 || s == v
    ensures -Epsilon < s < Epsilon ==> s == 0.0
    ensures (v <= -Epsilon || Epsilon <= v) ==> s == v
  {
    if v < Epsilon && v > -Epsilon then 0.0 else v
  }

  function SnapRow(row: seq<real>): (s: seq<real>)
    ensures |s| == |row|
    ensures forall j :: 0 <= j < |row| ==> s[j] == Snap(row[j])
  {
    seq(|row|, j requires 0 <= j < |row| => Snap(row[j]))
  }

  /** The cleanup loop of lines 63-68 applied to every cell. */
  function Cleaned(m: Matrix): (r: Matrix)
    ensures |r| == |m|
    ensures forall i :: 0 <= i < |m| ==> r[i] == SnapRow(m[i])
  {
    seq(|m|, i requires 0 <= i < |m| => SnapRow(m[i]))
  }

  /** What `reduced_row_echelon_form` returns. */
  function Rref(m: Matrix): (r: Matrix)
    requires Rectangular(m)
    ensures Rectangular(r) && |r| == |m| && Cols(r) == Cols(m)
  {
    Cleaned(RrefFrom(Ref(m), 0, 0))
  }

  /** Reduced row echelon form: every nonzero row leads with a 1 that is
      strictly right of the leading 1 of each row above it (so zero rows come
      last), and each leading column is zero outside its own row. */
  predicate IsRref(m: Matrix)
    requires Rectangular(m)
  {
    && (forall r, s :: 0 <= r < s < |m| && !IsZeroRow(m[s]) ==> Lead(m[r]) < Lead(m[s]))
    && (forall r :: 0 <= r < |m| && !IsZeroRow(m[r]) ==> Lead(m[r]) < Cols(m) && m[r][Lead(m[r])] == 1.0)
    && (forall r, s :: 0 <= r < |m| && 0 <= s < |m| && s != r && !IsZeroRow(m[r]) ==> m[s][Lead(m[r])] == 0.0)
  }

  /** What the cursor loop keeps true: `pivots` lists the pivot column of each
      row above `row`, strictly increasing and left of `col`; each is a unit
      column with its 1 in its own row and only zeros left of it in that row;
      and every row from `row` down is zero left of `col`. */
  predicate LoopInvariant(m: Matrix, row: nat, col: nat, pivots: seq<nat>)
    requires Rectangular(m)
  {
    && row <= |m| && col <= Cols(m) && |pivots| == row
    && (forall k :: 0 <= k < row ==> pivots[k] < col)
    && (forall k, k' :: 0 <= k < k' < row ==> pivots[k] < pivots[k'])
    && (forall k, s :: 0 <= k < row && 0 <= s < |m| ==> m[s][pivots[k]] == if s == k then 1.0 else 0.0)
    && (forall k, c :: 0 <= k < row && 0 <= c < pivots[k] ==> m[k][c] == 0.0)
    && (forall s, c :: row <= s < |m| && 0 <= c < col ==> m[s][c] == 0.0)
  }

  /** A column that is zero from `row` down adds no pivot: the loop moves on
      to the next column and the invariant still holds (lines 36-42). */
  lemma {:induction false} NoPivotKeepsInvariant(m: Matrix, row: nat, col: nat, pivots: seq<nat>)
    requires Rectangular(m) && LoopInvariant(m, row, col, pivots)
    requires row < |m| && col < Cols(m) && FirstNonzero(m, col, row) == |m|
    ensures LoopInvariant(m, row, col + 1, pivots)
  {
  }

  /** Rows from `row` down are a permutation of the same rows before a swap
      of two of them, so they are still zero left of `col`. */
  lemma {:induction false} SwapKeepsZeroBlock(m: Matrix, row: nat, col: nat, j: nat)
    requires Rectangular(m) && row <= j < |m| && col <= Cols(m)
    requires forall s, c :: row <= s < |m| && 0 <= c < col ==> m[s][c] == 0.0
    ensures forall s, c :: row <= s < |m| && 0 <= c < col ==> Swap(m, row, j)[s][c] == 0.0
  {
    var w := Swap(m, row, j);
    forall s, c | row <= s < |m| && 0 <= c < col ensures w[s][c] == 0.0 {
      assert w[s] == m[if s == row then j else if s == j then row else s];
    }
  }

  /** How a pivot step acts left of `col`, where the rows from `row` down are
      zero: rows above `row` keep their entries, and the new pivot row and the
      rows below it are zero there. */
  lemma {:induction false} PivotStepLeftOfCol(m: Matrix, row: nat, col: nat, j: nat)
    requires Rectangular(m) && row <= j < |m| && col < Cols(m) && m[j][col] != 0.0
    requires forall s, c :: row <= s < |m| && 0 <= c < col ==> m[s][c] == 0.0
    ensures var r := PivotStep(m, row, col, j);
      && (forall s, c :: 0 <= s < row && 0 <= c < col ==> r[s][c] == m[s][c])
      && (forall s, c :: row <= s < |m| && 0 <= c < col ==> r[s][c] == 0.0)
  {
    var swapped := if j != row then Swap(m, row, j) else m;
    if j != row {
      SwapKeepsZeroBlock(m, row, col, j);
    }
    var p := Scale(swapped[row], swapped[row][col]);
    var scaled := swapped[row := p];
    var r := EliminateOthers(scaled, row, col);
    assert r == PivotStep(m, row, col, j);
    EliminateKeepsLeftOfCol(scaled, row, col);
    forall s, c | 0 <= s < row && 0 <= c < col ensures r[s][c] == m[s][c] {
      assert swapped[s] == m[s];
    }
  }

  /** Eliminating with a pivot row that is zero left of `col` leaves every
      other row unchanged left of `col`. */
  lemma {:induction false} EliminateKeepsLeftOfCol(m: Matrix, row: nat, col: nat)
    requires Rectangular(m) && row < |m| && col < Cols(m)
    requires forall c :: 0 <= c < col ==> m[row][c] == 0.0
    ensures forall s, c :: 0 <= s < |m| && s != row && 0 <= c < col ==>
      EliminateOthers(m, row, col)[s][c] == m[s][c]
  {
    var r := EliminateOthers(m, row, col);
    forall s, c | 0 <= s < |m| && s != row && 0 <= c < col ensures r[s][c] == m[s][c] {
      assert r[s] == SubMultiple(m[s], m[s][col], m[row]);
    }
  }

  /** A pivot step keeps the loop invariant, with `col` added as the pivot
      column of `row`; the earlier pivot columns stay unit columns (lines 44-60). */
  lemma {:induction false} PivotKeepsInvariant(m: Matrix, row: nat, col: nat, pivots: seq<nat>)
    requires Rectangular(m) && LoopInvariant(m, row, col, pivots)
    requires row < |m| && col < Cols(m) && FirstNonzero(m, col, row) < |m|
    ensures var j := FirstNonzero(m, col, row);
      LoopInvariant(PivotStep(m, row, col, j), row + 1, col + 1, pivots + [col])
  {
    var j := FirstNonzero(m, col, row);
    var r := PivotStep(m, row, col, j);
    PivotStepLeftOfCol(m, row, col, j);
    var pivots' := pivots + [col];
    forall k, s | 0 <= k < row + 1 && 0 <= s < |m|
      ensures r[s][pivots'[k]] == if s == k then 1.0 else 0.0
    {
      if k < row {
        assert pivots'[k] == pivots[k] < col;
      }
    }
    forall k, c | 0 <= k < row + 1 && 0 <= c < pivots'[k] ensures r[k][c] == 0.0 {
      if k < row {
        assert pivots'[k] == pivots[k] < col;
      }
    }
  }

  /** When the loop stops (`row` or `col` past the end), the invariant makes
      the matrix reduced: the rows above `row` lead with their pivots, and the
      rows from `row` down are entirely zero. */
  lemma {:induction false} InvariantAtExitIsRref(m: Matrix, row: nat, col: nat, pivots: seq<nat>)
    requires Rectangular(m) && LoopInvariant(m, row, col, pivots)
    requires row == |m| || col == Cols(m)
    ensures IsRref(m)
    ensures forall s :: row <= s < |m| ==> IsZeroRow(m[s])
  {
    forall k | 0 <= k < row ensures Lead(m[k]) == pivots[k] && !IsZeroRow(m[k]) {
      assert m[k][pivots[k]] == 1.0;
      ZeroRowHasNoLead(m[k]);
    }
    forall s | row <= s < |m| ensures IsZeroRow(m[s]) {
    }
  }

  /** The cursor loop ends in reduced row echelon form (lines 34-60). */
  lemma {:induction false} RrefFromIsRref(m: Matrix, row: nat, col: nat, pivots: seq<nat>)
    requires Rectangular(m) && LoopInvariant(m, row, col, pivots)
    ensures IsRref(RrefFrom(m, row, col))
  {
    var r := RrefFromReaches(m, row, col, pivots);
  }

  /** The induction behind `RrefFromIsRref`, naming the loop's result `r`. */
  lemma {:induction false} RrefFromReaches(m: Matrix, row: nat, col: nat, pivots: seq<nat>) returns (r: Matrix)
    requires Rectangular(m) && LoopInvariant(m, row, col, pivots)
    ensures r == RrefFrom(m, row, col) && Rectangular(r) && IsRref(r)
    decreases Cols(m) - col, 1
  {
    if row < |m| && col < Cols(m) {
      if FirstNonzero(m, col, row) == |m| {
        r := SkipReaches(m, row, col, pivots);
      } else {
        r := PivotReaches(m, row, col, pivots);
      }
    } else {
      InvariantAtExitIsRref(m, row, col, pivots);
      RrefFromDone(m, row, col);
      r := m;
    }
  }

  lemma {:induction false} SkipReaches(m: Matrix, row: nat, col: nat, pivots: seq<nat>) returns (r: Matrix)
    requires Rectangular(m) && LoopInvariant(m, row, col, pivots)
    requires row < |m| && col < Cols(m) && FirstNonzero(m, col, row) == |m|
    ensures r == RrefFrom(m, row, col) && Rectangular(r) && IsRref(r)
    decreases Cols(m) - col, 0
  {
    NoPivotKeepsInvariant(m, row, col, pivots);
    RrefFromSkip(m, row, col);
    r := RrefFromReaches(m, row, col + 1, pivots);
  }

  lemma {:induction false} PivotReaches(m: Matrix, row: nat, col: nat, pivots: seq<nat>) returns (r: Matrix)
    requires Rectangular(m) && LoopInvariant(m, row, col, pivots)
    requires row < |m| && col < Cols(m) && FirstNonzero(m, col, row) < |m|
    ensures r == RrefFrom(m, row, col) && Rectangular(r) && IsRref(r)
    decreases Cols(m) - col, 0
  {
    var next := PivotStep(m, row, col, FirstNonzero(m, col, row));
    PivotKeepsInvariant(m, row, col, pivots);
    RrefFromPivot(m, row, col);
    r := RrefFromReaches(next, row + 1, col + 1, pivots + [col]);
  }

  /** The cursor loop over a column with no pivot from `row` down moves on to
      the next column. */
  lemma {:induction false} RrefFromSkip(m: Matrix, row: nat, col: nat)
    requires Rectangular(m) && row < |m| && col < Cols(m) && FirstNonzero(m, col, row) == |m|
    ensures RrefFrom(m, row, col) == RrefFrom(m, row, col + 1)
  {
  }

  /** The cursor loop with a cursor past the end leaves the matrix as it is. */
  lemma {:induction false} RrefFromDone(m: Matrix, row: nat, col: nat)
    requires Rectangular(m) && row <= |m| && col <= Cols(m) && (row == |m| || col == Cols(m))
    ensures RrefFrom(m, row, col) == m
  {
  }

  /** The cursor loop over a column with a pivot makes the pivot step and moves
      both cursors on. */
  lemma {:induction false} RrefFromPivot(m: Matrix, row: nat, col: nat)
    requires Rectangular(m) && row < |m| && col < Cols(m) && FirstNonzero(m, col, row) < |m|
    ensures RrefFrom(m, row, col) == RrefFrom(PivotStep(m, row, col, FirstNonzero(m, col, row)), row + 1, col + 1)
  {
  }

  /** Snapping keeps a row's leading entry when it is a 1, and keeps a zero row zero. */
  lemma {:induction false} SnapKeepsLead(row: seq<real>)
    requires !IsZeroRow(row) ==> row[Lead(row)] == 1.0
    ensures IsZeroRow(SnapRow(row)) <==> IsZeroRow(row)
    ensures Lead(SnapRow(row)) == Lead(row)
  {
    var s := SnapRow(row);
    ZeroRowHasNoLead(row);
    ZeroRowHasNoLead(s);
    var l := Lead(row);
    if l < |row| {
      assert s[l] == 1.0;
      assert forall c :: 0 <= c < l ==> s[c] == 0.0;
      assert Lead(s) == l;
    } else {
      assert IsZeroRow(s);
    }
  }

  /** The cleanup keeps a reduced matrix reduced. */
  lemma {:induction false} CleanedKeepsRref(m: Matrix)
    requires Rectangular(m) && IsRref(m)
    ensures Rectangular(Cleaned(m)) && IsRref(Cleaned(m))
  {
    var r := Cleaned(m);
    forall i | 0 <= i < |m|
      ensures |r[i]| == Cols(m)
      ensures IsZeroRow(r[i]) <==> IsZeroRow(m[i])
      ensures Lead(r[i]) == Lead(m[i])
    {
      SnapKeepsLead(m[i]);
    }
    assert Cols(r) == Cols(m);
  }

  /** Whatever the input, `reduced_row_echelon_form` returns a matrix of the
      same shape in reduced row echelon form. */
  lemma {:induction false} RrefIsReduced(m: Matrix)
    requires Rectangular(m)
    ensures Rectangular(Rref(m)) && |Rref(m)| == |m| && Cols(Rref(m)) == Cols(m)
    ensures IsRref(Rref(m))
  {
    ExactReductionIsReduced(m);
    CleanedKeepsRref(RrefFrom(Ref(m), 0, 0));
  }

  /** The exact reduction, before the cleanup, is already in reduced row
      echelon form. */
  lemma {:induction false} ExactReductionIsReduced(m: Matrix)
    requires Rectangular(m)
    ensures Rectangular(RrefFrom(Ref(m), 0, 0))
    ensures |RrefFrom(Ref(m), 0, 0)| == |m| && Cols(RrefFrom(Ref(m), 0, 0)) == Cols(m)
    ensures IsRref(RrefFrom(Ref(m), 0, 0))
  {
    var e := Ref(m);
    assert LoopInvariant(e, 0, 0, []);
    RrefFromIsRref(e, 0, 0, []);
  }

  /** A pivot step is a swap, a division by a nonzero pivot and eliminations,
      so it keeps the solution set of the system. */
  lemma {:induction false} PivotStepKeepsSolutions(m: Matrix, row: nat, col: nat, j: nat, x: seq<real>)
    requires Rectangular(m) && row <= j < |m| && col < Cols(m) && m[j][col] != 0.0
    requires Cols(m) == |x| + 1
    ensures Solves(PivotStep(m, row, col, j), x) <==> Solves(m, x)
  {
    var swapped := if j != row then Swap(m, row, j) else m;
    if j != row {
      SwapKeepsSolutions(m, row, j, x);
    }
    assert Rectangular(swapped) && Cols(swapped) == Cols(m) && swapped[row][col] != 0.0;
    ScaleKeepsSolutions(swapped, row, swapped[row][col], x);
    var scaled := swapped[row := Scale(swapped[row], swapped[row][col])];
    CombineKeepsSolutions(scaled, EliminateOthers(scaled, row, col), row, col, x);
  }

  /** The cursor loop keeps the solution set of the system. */
  lemma {:induction false} RrefFromKeepsSolutions(m: Matrix, row: nat, col: nat, x: seq<real>)
    requires Rectangular(m) && row <= |m| && col <= Cols(m) && Cols(m) == |x| + 1
    ensures Solves(RrefFrom(m, row, col), x) <==> Solves(m, x)
  {
    var r := SolutionsKeptFrom(m, row, col, x);
  }

  /** The induction behind `RrefFromKeepsSolutions`, naming the loop's result `r`. */
  lemma {:induction false} SolutionsKeptFrom(m: Matrix, row: nat, col: nat, x: seq<real>) returns (r: Matrix)
    requires Rectangular(m) && row <= |m| && col <= Cols(m) && Cols(m) == |x| + 1
    ensures r == RrefFrom(m, row, col) && Rectangular(r) && Cols(r) == Cols(m)
    ensures Solves(r, x) <==> Solves(m, x)
    decreases Cols(m) - col, 1
  {
    if row < |m| && col < Cols(m) {
      if FirstNonzero(m, col, row) == |m| {
        r := SkipKeepsSolutions(m, row, col, x);
      } else {
        r := PivotColumnKeepsSolutions(m, row, col, x);
      }
    } else {
      RrefFromDone(m, row, col);
      r := m;
    }
  }

  lemma {:induction false} SkipKeepsSolutions(m: Matrix, row: nat, col: nat, x: seq<real>) returns (r: Matrix)
    requires Rectangular(m) && row < |m| && col < Cols(m) && Cols(m) == |x| + 1
    requires FirstNonzero(m, col, row) == |m|
    ensures r == RrefFrom(m, row, col) && Rectangular(r) && Cols(r) == Cols(m)
    ensures Solves(r, x) <==> Solves(m, x)
    decreases Cols(m) - col, 0
  {
    RrefFromSkip(m, row, col);
    r := SolutionsKeptFrom(m, row, col + 1, x);
  }

  lemma {:induction false} PivotColumnKeepsSolutions(m: Matrix, row: nat, col: nat, x: seq<real>) returns (r: Matrix)
    requires Rectangular(m) && row < |m| && col < Cols(m) && Cols(m) == |x| + 1
    requires FirstNonzero(m, col, row) < |m|
    ensures r == RrefFrom(m, row, col) && Rectangular(r) && Cols(r) == Cols(m)
    ensures Solves(r, x) <==> Solves(m, x)
    decreases Cols(m) - col, 0
  {
    var j := FirstNonzero(m, col, row);
    var next := PivotStep(m, row, col, j);
    PivotStepKeepsSolutions(m, row, col, j, x);
    RrefFromPivot(m, row, col);
    r := SolutionsKeptFrom(next, row + 1, col + 1, x);
  }

  /** Before the cleanup, the reduction is exact: the reduced system has
      exactly the solutions of the input system. */
  lemma {:induction false} ExactReductionKeepsSolutions(m: Matrix, x: seq<real>)
    requires Rectangular(m) && Cols(m) == |x| + 1
    ensures Solves(RrefFrom(Ref(m), 0, 0), x) <==> Solves(m, x)
  {
    RefStepsKeepSolutions(m, Min(|m|, Cols(m)), x);
    RrefFromKeepsSolutions(Ref(m), 0, 0, x);
  }

  /** The cleanup changes nothing when no entry lies strictly between 0 and
      the snapping threshold in absolute value. */
  lemma {:induction false} CleanedWithoutNoise(m: Matrix)
    requires forall i, j :: 0 <= i < |m| && 0 <= j < |m[i]| ==>
      m[i][j] == 0.0 || m[i][j] <= -Epsilon || Epsilon <= m[i][j]
    ensures Cleaned(m) == m
  {
    forall i | 0 <= i < |m| ensures SnapRow(m[i]) == m[i] {
    }
  }

  /** In reduced row echelon form a nonzero row `s` leads at column `s` or
      further right: every row above it leads, each strictly left of the next. */
  lemma {:induction false} LeadAtLeastRow(m: Matrix, s: nat)
    requires Rectangular(m) && IsRref(m) && s < |m| && !IsZeroRow(m[s])
    ensures s <= Lead(m[s])
  {
    if s > 0 {
      ZeroRowHasNoLead(m[s - 1]);
      assert Lead(m[s - 1]) < Lead(m[s]) < Cols(m);
      LeadAtLeastRow(m, s - 1);
    }
  }

  /** A reduced matrix is zero strictly below its diagonal and holds only 0 or
      1 on it. */
  lemma {:induction false} RrefTriangular(m: Matrix, i: nat)
    requires Rectangular(m) && IsRref(m) && i < |m| && i < Cols(m)
    ensures m[i][i] == 0.0 || m[i][i] == 1.0
    ensures forall k :: i < k < |m| ==> m[k][i] == 0.0
  {
    if m[i][i] != 0.0 {
      LeadAtLeastRow(m, i);
      assert Lead(m[i]) == i;
    }
    forall k | i < k < |m| ensures m[k][i] == 0.0 {
      if !IsZeroRow(m[k]) {
        LeadAtLeastRow(m, k);
      }
    }
  }

  /** A forward step leaves a reduced matrix as it is: its pivot is already 1
      or 0, and the column below it is already zero. */
  lemma {:induction false} RefStepFixed(m: Matrix, i: nat)
    requires Rectangular(m) && IsRref(m) && i < |m| && i < Cols(m)
    ensures RefStep(m, i) == m
  {
    RrefTriangular(m, i);
    if m[i][i] == 0.0 {
      FirstNonzeroIs(m, i, i + 1, |m|);
      RefStepPivotRow(m, i);
    } else {
      assert Scale(m[i], 1.0) == m[i];
      assert SearchPivot(m, i) == m && Normalize(m, i) == m;
      var r := EliminateBelow(m, i);
      forall k | 0 <= k < |m| ensures r[k] == m[k] {
        if k > i {
          assert r[k] == SubMultiple(m[k], 0.0, m[i]);
        }
      }
    }
  }

  lemma {:induction false} RefStepsFixed(m: Matrix, k: nat)
    requires Rectangular(m) && IsRref(m) && k <= Min(|m|, Cols(m))
    ensures RefSteps(m, k) == m
  {
    if k > 0 {
      RefStepsFixed(m, k - 1);
      RefStepFixed(m, k - 1);
    }
  }

  /** Every nonzero row from `row` down leads at column `col` or further right. */
  predicate LeadsFrom(m: Matrix, row: nat, col: nat) {
    forall s :: row <= s < |m| && !IsZeroRow(m[s]) ==> col <= Lead(m[s])
  }

  /** On a reduced matrix, a column that leads row `row` is found in that row
      and pivoting on it changes nothing; the rows below lead further right. */
  lemma {:induction false} PivotStepFixed(m: Matrix, row: nat, col: nat)
    requires Rectangular(m) && IsRref(m) && row < |m| && col < Cols(m)
    requires !IsZeroRow(m[row]) && Lead(m[row]) == col
    ensures FirstNonzero(m, col, row) == row
    ensures PivotStep(m, row, col, row) == m
    ensures LeadsFrom(m, row + 1, col + 1)
  {
    assert m[row][col] == 1.0;
    FirstNonzeroIs(m, col, row, row);
    assert Scale(m[row], 1.0) == m[row];
    assert m[row := Scale(m[row], m[row][col])] == m;
    var r := EliminateOthers(m, row, col);
    forall i | 0 <= i < |m| ensures r[i] == m[i] {
      if i != row {
        assert m[i][col] == 0.0;
        assert r[i] == SubMultiple(m[i], 0.0, m[row]);
      }
    }
  }

  /** On a reduced matrix, a column that does not lead row `row` is zero from
      `row` down, so the loop skips it. */
  lemma {:induction false} SkipFixed(m: Matrix, row: nat, col: nat)
    requires Rectangular(m) && IsRref(m) && row < |m| && col < Cols(m)
    requires LeadsFrom(m, row, col) && (IsZeroRow(m[row]) || Lead(m[row]) != col)
    ensures FirstNonzero(m, col, row) == |m|
    ensures LeadsFrom(m, row, col + 1)
  {
    ZeroRowHasNoLead(m[row]);
    forall s | row <= s < |m| && !IsZeroRow(m[s]) ensures col < Lead(m[s]) {
      if s > row {
        assert Lead(m[row]) < Lead(m[s]) < Cols(m);
      }
    }
    forall s | row <= s < |m| ensures m[s][col] == 0.0 {
    }
    FirstNonzeroIs(m, col, row, |m|);
  }

  /** The cursor loop leaves a reduced matrix as it is. */
  lemma {:induction false} RrefFromFixed(m: Matrix, row: nat, col: nat)
    requires Rectangular(m) && IsRref(m) && row <= |m| && col <= Cols(m)
    requires LeadsFrom(m, row, col)
    ensures RrefFrom(m, row, col) == m
    decreases Cols(m) - col
  {
    if row < |m| && col < Cols(m) {
      if !IsZeroRow(m[row]) && Lead(m[row]) == col {
        PivotStepFixed(m, row, col);
        RrefFromPivot(m, row, col);
        RrefFromFixed(m, row + 1, col + 1);
      } else {
        SkipFixed(m, row, col);
        RrefFromSkip(m, row, col);
        RrefFromFixed(m, row, col + 1);
      }
    } else {
      RrefFromDone(m, row, col);
    }
  }

  /** A matrix already in reduced row echelon form goes through both passes
      unchanged, so reducing it only applies the cleanup. */
  lemma {:induction false} RrefIdempotent(m: Matrix)
    requires Rectangular(m) && IsRref(m)
    ensures Ref(m) == m && RrefFrom(m, 0, 0) == m
    ensures Rref(m) == Cleaned(m)
  {
    RefStepsFixed(m, Min(|m|, Cols(m)));
    RrefFromFixed(m, 0, 0);
  }

  /** Reducing the result of `reduced_row_echelon_form` again gives the same
      matrix back. */
  lemma {:induction false} RrefTwice(m: Matrix)
    requires Rectangular(m)
    ensures Rref(Rref(m)) == Rref(m)
  {
    var r := Rref(m);
    RrefIsReduced(m);
    RrefIdempotent(r);
    forall i | 0 <= i < |r| ensures SnapRow(r[i]) == r[i] {
    }
  }

  /** `reduced_row_echelon_form` (lines 27-70), in place on the array of rows. */
  method ReducedRowEchelonForm(a: array<seq<real>>)
    requires Rectangular(a[..])
    modifies a
    ensures a[..] == Rref(old(a[..]))
  {
    RowEchelonForm(a);
    SweepColumns(a);
    Cleanup(a);
  }

  /** Lines 30-60: the `row`/`col` cursor loop. */
  method SweepColumns(a: array<seq<real>>)
    requires Rectangular(a[..])
    modifies a
    ensures a[..] == RrefFrom(old(a[..]), 0, 0)
  {
    var lenrow := a.Length;
    var lencol := |a[0]|;
    var row: nat := 0;
    var col: nat := 0;
    while row < lenrow && col < lencol
      invariant Rectangular(a[..]) && Cols(a[..]) == lencol
      invariant row <= lenrow && col <= lencol
      invariant RrefFrom(a[..], row, col) == RrefFrom(old(a[..]), 0, 0)
      decreases lencol - col
    {
      row, col := SweepStep(a, row, col);
    }
    RrefFromDone(a[..], row, col);
  }

  /** One iteration of the cursor loop (lines 36-58): skip a column with no
      pivot from `row` down, or pivot on it and advance both cursors. What the
      rest of the loop makes of the matrix stays the same. */
  method SweepStep(a: array<seq<real>>, row: nat, col: nat) returns (row': nat, col': nat)
    requires Rectangular(a[..]) && row < a.Length && col < Cols(a[..])
    modifies a
    ensures Rectangular(a[..]) && Cols(a[..]) == Cols(old(a[..]))
    ensures col' == col + 1 && (row' == row || row' == row + 1)
    ensures RrefFrom(a[..], row', col') == RrefFrom(old(a[..]), row, col)
    ensures var j := FirstNonzero(old(a[..]), col, row);
      if j == a.Length then a[..] == old(a[..]) && row' == row
      else a[..] == PivotStep(old(a[..]), row, col, j) && row' == row + 1
  {
    ghost var before := a[..];
    var j := FindPivotRow(a, row, col);
    // No nonzero entry from `row` down: move to the next column
    if j == a.Length {
      RrefFromSkip(before, row, col);
      return row, col + 1;
    }
    PivotAt(a, row, col, j);
    RrefFromPivot(before, row, col);
    return row + 1, col + 1;
  }

  /** Lines 36-38: the first row from `row` down with a nonzero entry in
      column `col`, or the row count when there is none. */
  method FindPivotRow(a: array<seq<real>>, row: nat, col: nat) returns (j: nat)
    requires Rectangular(a[..]) && row <= a.Length && col < Cols(a[..])
    ensures row <= j <= a.Length
    ensures forall k :: row <= k < j ==> a[k][col] == 0.0
    ensures j < a.Length ==> a[j][col] != 0.0
    ensures j == FirstNonzero(a[..], col, row)
  {
    j := row;
    while j < a.Length && a[j][col] == 0.0
      invariant row <= j <= a.Length
      invariant forall k :: row <= k < j ==> a[k][col] == 0.0
    {
      j := j + 1;
    }
    FirstNonzeroIs(a[..], col, row, j);
  }

  /** Lines 44-56: swap the found row up, make the pivot 1, and clear the pivot
      column in every other row. */
  method PivotAt(a: array<seq<real>>, row: nat, col: nat, j: nat)
    requires Rectangular(a[..]) && row <= j < a.Length && col < Cols(a[..]) && a[j][col] != 0.0
    modifies a
    ensures a[..] == PivotStep(old(a[..]), row, col, j)
  {
    // Swap the nonzero row up
    if j != row {
      a[row], a[j] := a[j], a[row];
    }
    // Make the pivot 1
    var leader := a[row][col];
    a[row] := Scale(a[row], leader);
    EliminateOthersAt(a, row, col);
  }

  /** Lines 52-56: subtract from every other row its column-`col` entry times row `row`. */
  method EliminateOthersAt(a: array<seq<real>>, row: nat, col: nat)
    requires Rectangular(a[..]) && row < a.Length && col < Cols(a[..])
    modifies a
    ensures a[..] == EliminateOthers(old(a[..]), row, col)
  {
    for i := 0 to a.Length
      invariant forall k :: 0 <= k < a.Length ==>
        a[k] == if k < i && k != row then SubMultiple(old(a[k]), old(a[k][col]), old(a[row])) else old(a[k])
    {
      if i != row {
        var multiplier := a[i][col];
        a[i] := SubMultiple(a[i], multiplier, a[row]);
      }
    }
  }

  /** Lines 63-68: snap every near-zero cell to 0. */
  method Cleanup(a: array<seq<real>>)
    requires Rectangular(a[..])
    modifies a
    ensures a[..] == Cleaned(old(a[..]))
  {
    var lenrow := a.Length;
    var lencol := |a[0]|;
    for i := 0 to lenrow
      invariant forall k :: 0 <= k < lenrow ==> a[k] == if k < i then SnapRow(old(a[k])) else old(a[k])
    {
      for j := 0 to lencol
        invariant |a[i]| == lencol
        invariant forall c :: 0 <= c < lencol ==> a[i][c] == if c < j then Snap(old(a[i][c])) else old(a[i][c])
        invariant forall k :: 0 <= k < lenrow && k != i ==> a[k] == if k < i then SnapRow(old(a[k])) else old(a[k])
      {
        if a[i][j] < 0.0001 && a[i][j] > -0.0001 {
          a[i] := a[i][j := 0.0];
        }
      }
    }
  }
}
