/** The forward elimination pass `row_echelon_form` (Rowoperation.py:3-25):
    for each diagonal position it looks for a pivot, normalises the pivot row
    and clears the column below it. */
module Echelon {
  import opened Matrices

  function Min(a: nat, b: nat): nat {
    if a < b then a else b
  }

  /** Pivot search of step `i` (lines 9-13): a zero diagonal entry is replaced by
      swapping in the first row below it that is nonzero in column `i`. */
  function SearchPivot(m: Matrix, i: nat): (r: Matrix)
    requires Rectangular(m) && i < |m| && i < Cols(m)
    ensures Rectangular(r) && |r| == |m| && Cols(r) == Cols(m)
    ensures forall k :: 0 <= k < i ==> r[k] == m[k]
  {
    if m[i][i] == 0.0 then
      var j := FirstNonzero(m, i, i + 1);
      if j < |m| then Swap(m, i, j) else m
    else m
  }

  /** Normalisation of step `i` (lines 16-18): a nonzero pivot divides its row. */
  function Normalize(m: Matrix, i: nat): (r: Matrix)
    requires Rectangular(m) && i < |m| && i < Cols(m)
    ensures Rectangular(r) && |r| == |m| && Cols(r) == Cols(m)
    ensures forall k :: 0 <= k < |m| && k != i ==> r[k] == m[k]
    ensures m[i][i] != 0.0 ==> r[i][i] == 1.0
  {
    if m[i][i] != 0.0 then m[i := Scale(m[i], m[i][i])] else m
  }

  /** Elimination of step `i` (lines 21-23): every row below `i` loses its
      column-`i` entry times row `i`. */
  function EliminateBelow(m: Matrix, i: nat): (r: Matrix)
    requires Rectangular(m) && i < |m| && i < Cols(m)
    ensures Rectangular(r) && |r| == |m| && Cols(r) == Cols(m)
    ensures forall k :: 0 <= k <= i ==> r[k] == m[k]
    ensures m[i][i] == 1.0 ==> forall k :: i < k < |m| ==> r[k][i] == 0.0
  {
    seq(|m|, k requires 0 <= k < |m| =>
      if k > i then SubMultiple(m[k], m[k][i], m[i]) else m[k])
  }

  /** One iteration of the outer loop of `row_echelon_form`. */
  function RefStep(m: Matrix, i: nat): (r: Matrix)
    requires Rectangular(m) && i < |m| && i < Cols(m)
    ensures Rectangular(r) && |r| == |m| && Cols(r) == Cols(m)
    ensures forall k :: 0 <= k < i ==> r[k] == m[k]
  {
    EliminateBelow(Normalize(SearchPivot(m, i), i), i)
  }

  /** The first `k` iterations of the outer loop. */
  function RefSteps(m: Matrix, k: nat): (r: Matrix)
    requires Rectangular(m) && k <= Min(|m|, Cols(m))
    ensures Rectangular(r) && |r| == |m| && Cols(r) == Cols(m)
  {
    if k == 0 then m else RefStep(RefSteps(m, k - 1), k - 1)
  }

  /** The whole pass: one step per diagonal position. */
  function Ref(m: Matrix): (r: Matrix)
    requires Rectangular(m)
    ensures Rectangular(r) && |r| == |m| && Cols(r) == Cols(m)
  {
    RefSteps(m, Min(|m|, Cols(m)))
  }

  /** Which row ends up as row `i` in step `i`: with a nonzero diagonal entry the
      row itself, normalised; otherwise the first row `j` below with a nonzero
      column-`i` entry, normalised, while the old row `i` moves to `j` untouched
      (its column-`i` entry is 0, so its elimination factor is 0); and when no
      such row exists the step changes nothing at all. */
  lemma {:induction false} RefStepPivotRow(m: Matrix, i: nat)
    requires Rectangular(m) && i < |m| && i < Cols(m)
    ensures m[i][i] != 0.0 ==> RefStep(m, i)[i] == Scale(m[i], m[i][i])
    ensures m[i][i] == 0.0 && FirstNonzero(m, i, i + 1) < |m| ==>
      var j := FirstNonzero(m, i, i + 1);
      RefStep(m, i)[i] == Scale(m[j], m[j][i]) && RefStep(m, i)[j] == m[i]
    ensures m[i][i] == 0.0 && FirstNonzero(m, i, i + 1) == |m| ==> RefStep(m, i) == m
  {
    var j := FirstNonzero(m, i, i + 1);
    if m[i][i] == 0.0 && j < |m| {
      var s := SearchPivot(m, i);
      assert s == Swap(m, i, j);
      var nrm := Normalize(s, i);
      assert nrm[j] == m[i];
      assert RefStep(m, i)[j] == SubMultiple(m[i], 0.0, nrm[i]);
      assert SubMultiple(m[i], 0.0, nrm[i]) == m[i];
    } else if m[i][i] == 0.0 {
      var r := RefStep(m, i);
      assert SearchPivot(m, i) == m && Normalize(m, i) == m;
      forall k | 0 <= k < |m| ensures r[k] == m[k] {
        if k > i {
          assert m[k][i] == 0.0;
          assert r[k] == SubMultiple(m[k], 0.0, m[i]);
        }
      }
    }
  }

  /** When some row from `i` down is nonzero in column `i`, step `i` leaves a 1 on
      the diagonal and zeros below it. */
  lemma {:induction false} RefStepClearsColumn(m: Matrix, i: nat)
    requires Rectangular(m) && i < |m| && i < Cols(m)
    requires FirstNonzero(m, i, i) < |m|
    ensures RefStep(m, i)[i][i] == 1.0
    ensures forall k :: i < k < |m| ==> RefStep(m, i)[k][i] == 0.0
  {
    var s := SearchPivot(m, i);
    if m[i][i] == 0.0 {
      assert FirstNonzero(m, i, i) == FirstNonzero(m, i, i + 1);
    }
    assert s[i][i] != 0.0;
  }

  /** Step `i` keeps the solution set of the system. */
  lemma {:induction false} RefStepKeepsSolutions(m: Matrix, i: nat, x: seq<real>)
    requires Rectangular(m) && i < |m| && i < Cols(m) && Cols(m) == |x| + 1
    ensures Solves(RefStep(m, i), x) <==> Solves(m, x)
  {
    var s := SearchPivot(m, i);
    if m[i][i] == 0.0 && FirstNonzero(m, i, i + 1) < |m| {
      SwapKeepsSolutions(m, i, FirstNonzero(m, i, i + 1), x);
    }
    var nrm := Normalize(s, i);
    if s[i][i] != 0.0 {
      ScaleKeepsSolutions(s, i, s[i][i], x);
    }
    CombineKeepsSolutions(nrm, EliminateBelow(nrm, i), i, i, x);
  }

  /** The whole forward pass keeps the solution set of the system. */
  lemma RefStepsKeepSolutions(m: Matrix, k: nat, x: seq<real>)
    requires Rectangular(m) && k <= Min(|m|, Cols(m)) && Cols(m) == |x| + 1
    ensures Solves(RefSteps(m, k), x) <==> Solves(m, x)
  {
    var j := 0;
    while j < k
      invariant j <= k
      invariant Solves(RefSteps(m, j), x) <==> Solves(m, x)
    {
      LastStepKeepsSolutions(m, j + 1, x);
      j := j + 1;
    }
  }

  /** The `k`-th iteration keeps the solutions of the first `k - 1`. */
  lemma {:induction false} LastStepKeepsSolutions(m: Matrix, k: nat, x: seq<real>)
    requires Rectangular(m) && 0 < k <= Min(|m|, Cols(m)) && Cols(m) == |x| + 1
    ensures Solves(RefSteps(m, k), x) <==> Solves(RefSteps(m, k - 1), x)
  {
    var prev := RefSteps(m, k - 1);
    RefStepKeepsSolutions(prev, k - 1, x);
    assert RefSteps(m, k) == RefStep(prev, k - 1);
  }

  /** `row_echelon_form` (lines 3-25), in place on the array of rows. */
  method RowEchelonForm(a: array<seq<real>>)
    requires Rectangular(a[..])
    modifies a
    ensures a[..] == Ref(old(a[..]))
  {
    var rows := a.Length;
    var cols := |a[0]|;
    for i := 0 to Min(rows, cols)
      invariant Rectangular(a[..]) && Cols(a[..]) == cols
      invariant a[..] == RefSteps(old(a[..]), i)
    {
      RefStepsNext(old(a[..]), i);
      RefStepAt(a, i);
    }
  }

  /** Iteration `i + 1` of the outer loop runs step `i` on the matrix that
      the first `i` iterations left. */
  lemma RefStepsNext(m: Matrix, i: nat)
    requires Rectangular(m) && i < Min(|m|, Cols(m))
    ensures RefSteps(m, i + 1) == RefStep(RefSteps(m, i), i)
  {
  }

  /** One iteration of the outer loop (lines 7-23), in place. */
  method RefStepAt(a: array<seq<real>>, i: nat)
    requires Rectangular(a[..]) && i < a.Length && i < Cols(a[..])
    modifies a
    ensures a[..] == RefStep(old(a[..]), i)
  {
    PivotSearchAt(a, i);
    NormalizeAt(a, i);
    EliminateBelowAt(a, i);
  }

  /** Lines 9-13: when the diagonal entry is 0, swap in the first row below
      with a nonzero entry in column `i`. */
  method PivotSearchAt(a: array<seq<real>>, i: nat)
    requires Rectangular(a[..]) && i < a.Length && i < Cols(a[..])
    modifies a
    ensures a[..] == SearchPivot(old(a[..]), i)
  {
    if a[i][i] == 0.0 {
      var j := i + 1;
      while j < a.Length
        invariant i + 1 <= j <= a.Length
        invariant a[..] == old(a[..])
        invariant FirstNonzero(a[..], i, j) == FirstNonzero(a[..], i, i + 1)
      {
        if a[j][i] != 0.0 {
          a[i], a[j] := a[j], a[i];
          break;
        }
        j := j + 1;
      }
    }
  }

  /** Lines 16-18: divide the pivot row by a nonzero pivot. */
  method NormalizeAt(a: array<seq<real>>, i: nat)
    requires Rectangular(a[..]) && i < a.Length && i < Cols(a[..])
    modifies a
    ensures a[..] == Normalize(old(a[..]), i)
  {
    var pivot := a[i][i];
    if pivot != 0.0 {
      a[i] := Scale(a[i], pivot);
    }
  }

  /** Lines 21-23: subtract `factor` times row `i` from every row below it. */
  method EliminateBelowAt(a: array<seq<real>>, i: nat)
    requires Rectangular(a[..]) && i < a.Length && i < Cols(a[..])
    modifies a
    ensures a[..] == EliminateBelow(old(a[..]), i)
  {
    for j := i + 1 to a.Length
      invariant forall k :: 0 <= k < a.Length ==>
        a[k] == if i < k < j then SubMultiple(old(a[k]), old(a[k][i]), old(a[i])) else old(a[k])
    {
      var factor := a[j][i];
      a[j] := SubMultiple(a[j], factor, a[i]);
    }
  }
}
