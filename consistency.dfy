/** `is_consistent` (Rowoperation.py:72-81): a read-only scan for a row that
    reads 0 = c with c nonzero. */
module Consistency {
  import opened Matrices
  import opened Echelon
  import opened Reduction

  /** Every coefficient of `row` is 0 and its constant (last entry) is not. */
  predicate IsContradiction(row: seq<real>)
    requires |row| >= 1
  {
    (forall j :: 0 <= j < |row| - 1 ==> row[j] == 0.0) && row[|row| - 1] != 0.0
  }

  /** The loop of lines 77-81 from row `i` on: false at the first contradiction row. */
  function NoContradictionFrom(m: Matrix, i: nat): (b: bool)
    requires Rectangular(m) && Cols(m) >= 1 && i <= |m|
    ensures b <==> forall k :: i <= k < |m| ==> !IsContradiction(m[k])
    decreases |m| - i
  {
    if i == |m| then true
    else if IsContradiction(m[i]) then false
    else NoContradictionFrom(m, i + 1)
  }

  /** `is_consistent`: true exactly when no row is a contradiction. */
  function IsConsistent(m: Matrix): (b: bool)
    requires Rectangular(m) && Cols(m) >= 1
    ensures b <==> forall i :: 0 <= i < |m| ==> !IsContradiction(m[i])
  {
    NoContradictionFrom(m, 0)
  }

  /** A system that `is_consistent` rejects has no solution at all. */
  lemma {:induction false} InconsistentHasNoSolution(m: Matrix, x: seq<real>)
    requires Rectangular(m) && Cols(m) == |x| + 1
    requires !IsConsistent(m)
    ensures !Solves(m, x)
  {
    var i :| 0 <= i < |m| && IsContradiction(m[i]);
    DotZeroRow(m[i], x, |x|);
    assert Dot(m[i], x, |x|) != m[i][|x|];
  }

  /** A row is a contradiction exactly when it leads in its constant column. */
  lemma {:induction false} ContradictionIsLastLead(row: seq<real>)
    requires |row| >= 1
    ensures IsContradiction(row) <==> Lead(row) == |row| - 1
  {
    if IsContradiction(row) {
      assert Lead(row) == |row| - 1;
    }
  }

  /** The cleanup of a reduced matrix keeps every leading entry in place, so
      it neither creates nor removes a contradiction row. */
  lemma {:induction false} CleanedKeepsConsistency(m: Matrix)
    requires Rectangular(m) && Cols(m) >= 1 && IsRref(m)
    ensures Rectangular(Cleaned(m)) && Cols(Cleaned(m)) == Cols(m)
    ensures IsConsistent(Cleaned(m)) <==> IsConsistent(m)
  {
    var r := Cleaned(m);
    CleanedKeepsRref(m);
    forall i | 0 <= i < |m| ensures IsContradiction(r[i]) <==> IsContradiction(m[i]) {
      SnapKeepsLead(m[i]);
      ContradictionIsLastLead(m[i]);
      ContradictionIsLastLead(r[i]);
    }
  }

  /** `is_consistent` gives the same verdict on the cleaned result of
      `reduced_row_echelon_form` as on the exact reduction, and when it
      rejects the result the input system has no solution. */
  lemma {:induction false} ResultConsistency(m: Matrix, x: seq<real>)
    requires Rectangular(m) && Cols(m) == |x| + 1
    ensures IsConsistent(Rref(m)) <==> IsConsistent(RrefFrom(Ref(m), 0, 0))
    ensures !IsConsistent(Rref(m)) ==> !Solves(m, x)
  {
    var e := RrefFrom(Ref(m), 0, 0);
    ExactReductionIsReduced(m);
    CleanedKeepsConsistency(e);
    ExactReductionKeepsSolutions(m, x);
    if !IsConsistent(e) {
      InconsistentHasNoSolution(e, x);
    }
  }
}
