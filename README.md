# Gaussian elimination on augmented matrices

This project models the solving pipeline of `Rowoperation.py` in Dafny. The
pipeline solves a system of linear equations given as an augmented matrix, a
list of rows whose last entry is the constant term:

- `row_echelon_form` runs a forward elimination pass along the diagonal.
- `reduced_row_echelon_form` runs that pass, then a Gauss-Jordan sweep with
  `row`/`col` cursors, then snaps entries near zero to exactly 0.
- `is_consistent` looks for a row that reads `0 = c` with `c` nonzero.
- `identify_variables` splits the variables `x1 .. x(cols-1)` into lead and
  free variables.
- `solve_system` builds the dictionary from variables to parameters `t1, t2, ...`
  and numbers.

Matrix entries are exact `real`s. The matrix that the two reductions change in
place is an `array<seq<real>>`, an array of rows. Rows are swapped and
reassigned in place, and the cleanup writes single cells. Each imperative
function is a method proved equal to a specification function of the old
contents. The properties of the source are lemmas about those functions.

The modules, one per file:

- `Matrices` (`matrices.dfy`): the matrix type and the three row operations.
  It also proves that each row operation keeps the solution set.
- `Echelon` (`echelon.dfy`): `row_echelon_form`.
- `Reduction` (`reduction.dfy`): `reduced_row_echelon_form` and the predicate
  `IsRref` for reduced row echelon form.
- `Consistency` (`consistency.dfy`): `is_consistent`.
- `Variables` (`variables.dfy`): `identify_variables`.
- `Solver` (`solver.dfy`): `solve_system` as written; a corrected, parametric
  solution; and the theorem that ties the solution set of any input system to
  the corrected solution.

Dictionary keys `"x<v>"` are the natural number `v`. A value is an `Entry`:
`Param(k)` stands for the string `"t<k>"` and `Number(r)` for a float.

## Model

| member | source | states |
|---|---|---|
| `Matrices.Swap` | Rowoperation.py:12 | Swapping two rows exchanges those rows and keeps every other row. |
| `Matrices.Scale` | Rowoperation.py:18 | Normalising divides every entry of the row by the pivot. |
| `Matrices.SubMultiple` | Rowoperation.py:23 | Elimination subtracts `factor` times the pivot row, entry by entry. |
| `Matrices.FirstNonzero` | Rowoperation.py:10-13 | The first row at or after `from` with a nonzero entry in the column; every row it skips is zero there. |
| `Matrices.SwapKeepsSolutions` | Rowoperation.py:12 | A row swap keeps the shape and the set of solutions. |
| `Matrices.ScaleKeepsSolutions` | Rowoperation.py:18 | Dividing a row by a nonzero pivot keeps the set of solutions. |
| `Matrices.CombineKeepsSolutions` | Rowoperation.py:53-56 | Subtracting multiples of a kept pivot row from other rows keeps the shape and the set of solutions. |
| `Echelon.SearchPivot` | Rowoperation.py:9-13 | The pivot search keeps the shape and never touches the rows above `i`. |
| `Echelon.Normalize` | Rowoperation.py:16-18 | Only row `i` changes, and a nonzero pivot becomes 1. |
| `Echelon.EliminateBelow` | Rowoperation.py:21-23 | Rows `0..i` are kept; with a unit pivot, every row below is zero in column `i`. |
| `Echelon.RefStep` | Rowoperation.py:7-23 | One step keeps the shape and never touches a row above `i`. |
| `Echelon.RefSteps` | Rowoperation.py:7-23 | The first `k` iterations of the outer loop, one `RefStep` per diagonal position in order; the shape is kept. |
| `Echelon.Ref` | Rowoperation.py:3-25 | The forward pass keeps the matrix rectangular, with the same row and column counts. |
| `Echelon.RefStepPivotRow` | Rowoperation.py:9-23 | With a nonzero diagonal entry, row `i` becomes itself normalised. With a zero one, it becomes the first nonzero row `j` below it, normalised, and the old row `i` moves to `j` unchanged. With no such row, the step changes nothing. |
| `Echelon.RefStepClearsColumn` | Rowoperation.py:16-23 | When some row from `i` down is nonzero in column `i`, the step leaves 1 on the diagonal and 0 below it. |
| `Echelon.RefStepKeepsSolutions` | Rowoperation.py:7-23 | One step keeps the set of solutions. |
| `Echelon.LastStepKeepsSolutions` | Rowoperation.py:7-23 | Iteration `k` has the solutions of the first `k - 1` iterations. |
| `Echelon.RefStepsKeepSolutions` | Rowoperation.py:3-25 | The forward pass keeps the set of solutions. |
| `Echelon.RowEchelonForm` | Rowoperation.py:3-25 | The in-place pass leaves the array holding `Ref` of its old contents. |
| `Echelon.RefStepAt` | Rowoperation.py:7-23 | One in-place iteration leaves `RefStep` of the old contents. |
| `Echelon.PivotSearchAt` | Rowoperation.py:9-13 | The in-place search and swap leaves `SearchPivot` of the old contents. |
| `Echelon.NormalizeAt` | Rowoperation.py:16-18 | In-place normalisation leaves `Normalize` of the old contents. |
| `Echelon.EliminateBelowAt` | Rowoperation.py:21-23 | The in-place elimination loop leaves `EliminateBelow` of the old contents. |
| `Reduction.EliminateOthers` | Rowoperation.py:53-56 | Every other row loses a multiple of the pivot row. With a unit pivot, column `col` becomes zero outside the pivot row. |
| `Reduction.PivotStep` | Rowoperation.py:44-56 | The pivot row becomes row `j` normalised, with a 1 in column `col`, and column `col` is zero in every other row. |
| `Reduction.RrefFrom` | Rowoperation.py:34-60 | The cursor loop keeps the shape; it terminates because `col` grows on every pass. |
| `Reduction.Snap` | Rowoperation.py:65-66 | A value strictly between -0.0001 and 0.0001 becomes 0.0; any other value is kept. |
| `Reduction.SnapRow` | Rowoperation.py:64-66 | Every cell of the row is snapped, and the length is kept. |
| `Reduction.Cleaned` | Rowoperation.py:63-66 | Every row is snapped, and the row count is kept. |
| `Reduction.Rref` | Rowoperation.py:27-70 | The whole reduction keeps the shape. |
| `Reduction.NoPivotKeepsInvariant` | Rowoperation.py:36-42 | A column with no nonzero entry from `row` down advances `col` only, and the loop invariant still holds. |
| `Reduction.SwapKeepsZeroBlock` | Rowoperation.py:45-46 | Swapping two rows from `row` down keeps them zero left of `col`. |
| `Reduction.PivotStepLeftOfCol` | Rowoperation.py:44-56 | A pivot step keeps earlier pivot columns as unit columns and keeps rows below zero left of `col`. |
| `Reduction.EliminateKeepsLeftOfCol` | Rowoperation.py:53-56 | With a pivot row zero left of `col`, the elimination leaves every other row unchanged left of `col`. |
| `Reduction.PivotKeepsInvariant` | Rowoperation.py:44-60 | A pivot step followed by advancing both cursors keeps the loop invariant, with `col` added as a pivot column. |
| `Reduction.InvariantAtExitIsRref` | Rowoperation.py:34-60 | At loop exit the matrix is in reduced row echelon form, and every row from the final `row` cursor down is entirely zero. |
| `Reduction.RrefFromIsRref` | Rowoperation.py:34-60 | From any state meeting the invariant, the cursor loop ends in reduced row echelon form: pivots strictly increase with the row, each is 1, and each pivot column is zero elsewhere. |
| `Reduction.RrefFromReaches` | Rowoperation.py:34-60 | Same statement, naming the loop's result; the induction over the loop's passes. |
| `Reduction.SkipReaches` | Rowoperation.py:40-42 | The induction step for a column with no pivot. |
| `Reduction.PivotReaches` | Rowoperation.py:44-60 | The induction step for a column with a pivot. |
| `Reduction.RrefFromSkip` | Rowoperation.py:40-42 | A column with no pivot from `row` down leaves the matrix unchanged and advances `col` only. |
| `Reduction.RrefFromDone` | Rowoperation.py:34 | With a cursor past the end, the loop leaves the matrix as it is. |
| `Reduction.RrefFromPivot` | Rowoperation.py:44-60 | A column with a pivot makes the pivot step on the first nonzero row from `row` down and advances both cursors. |
| `Reduction.SnapKeepsLead` | Rowoperation.py:63-66 | Snapping keeps a zero row zero and keeps the position of a leading 1. |
| `Reduction.CleanedKeepsRref` | Rowoperation.py:63-66 | The cleanup keeps a reduced matrix reduced. |
| `Reduction.RrefIsReduced` | Rowoperation.py:27-70 | For every rectangular input, the result has the same shape and is in reduced row echelon form. |
| `Reduction.ExactReductionIsReduced` | Rowoperation.py:29-60 | The exact reduction, before the cleanup, is in reduced row echelon form. |
| `Reduction.PivotStepKeepsSolutions` | Rowoperation.py:44-56 | A pivot step keeps the set of solutions. |
| `Reduction.RrefFromKeepsSolutions` | Rowoperation.py:34-60 | The cursor loop keeps the set of solutions. |
| `Reduction.SolutionsKeptFrom` | Rowoperation.py:34-60 | Same statement, naming the loop's result; the induction over the loop's passes. |
| `Reduction.SkipKeepsSolutions` | Rowoperation.py:40-42 | The induction step for a column with no pivot. |
| `Reduction.PivotColumnKeepsSolutions` | Rowoperation.py:44-60 | The induction step for a column with a pivot. |
| `Reduction.ExactReductionKeepsSolutions` | Rowoperation.py:29-60 | The forward pass and the sweep together keep the set of solutions. |
| `Reduction.CleanedWithoutNoise` | Rowoperation.py:63-66 | The cleanup changes nothing when no entry is nonzero and within 0.0001 of 0. |
| `Reduction.LeadAtLeastRow` | Rowoperation.py:29-60 | In a reduced matrix, nonzero row `s` has its leading entry at column `s` or further right. |
| `Reduction.RrefTriangular` | Rowoperation.py:29-60 | A reduced matrix is zero below its diagonal, and each diagonal entry is 0 or 1. |
| `Reduction.RefStepFixed` | Rowoperation.py:5-23 | One step of `row_echelon_form` leaves a reduced matrix unchanged. |
| `Reduction.RefStepsFixed` | Rowoperation.py:3-25 | Any number of forward steps leaves a reduced matrix unchanged. |
| `Reduction.PivotStepFixed` | Rowoperation.py:36-56 | On a reduced matrix whose row `row` leads at `col`, the search finds row `row` itself. The pivot step then changes nothing, and the rows below lead right of `col`. |
| `Reduction.SkipFixed` | Rowoperation.py:36-42 | On a reduced matrix, a column that does not lead row `row` is zero from `row` down, so the loop skips it. The rows from `row` down then lead right of `col`. |
| `Reduction.RrefFromFixed` | Rowoperation.py:34-60 | The cursor loop leaves a reduced matrix unchanged. |
| `Reduction.RrefIdempotent` | Rowoperation.py:27-70 | On a matrix already in reduced row echelon form, both passes change nothing, so the result is just the cleanup of the input. |
| `Reduction.RrefTwice` | Rowoperation.py:27-70 | Reducing a result of `reduced_row_echelon_form` again returns it unchanged. |
| `Reduction.ReducedRowEchelonForm` | Rowoperation.py:27-70 | The in-place reduction leaves `Rref` of the old contents. |
| `Reduction.SweepColumns` | Rowoperation.py:30-60 | The in-place cursor loop leaves `RrefFrom` of the old contents, started at `row = col = 0`. |
| `Reduction.SweepStep` | Rowoperation.py:36-60 | One pass keeps the shape. With no nonzero entry in `col` from `row` down, the array is unchanged and only `col` advances. Otherwise the array becomes `PivotStep` on the first such row, and both cursors advance. What the rest of the loop produces is kept. |
| `Reduction.FindPivotRow` | Rowoperation.py:36-38 | The search stops at the first row from `row` down with a nonzero entry in `col`, or at the row count. |
| `Reduction.PivotAt` | Rowoperation.py:44-56 | The in-place swap, normalisation and elimination leave `PivotStep` of the old contents. |
| `Reduction.EliminateOthersAt` | Rowoperation.py:52-56 | The in-place elimination loop leaves `EliminateOthers` of the old contents. |
| `Reduction.Cleanup` | Rowoperation.py:63-68 | The in-place cleanup leaves `Cleaned` of the old contents: each near-zero cell becomes 0.0 and the shape is kept. |
| `Consistency.NoContradictionFrom` | Rowoperation.py:77-81 | The scan from row `i` returns true exactly when no row from `i` on is a contradiction. |
| `Consistency.IsConsistent` | Rowoperation.py:72-81 | False exactly when some row has all coefficients 0 and a nonzero constant; the matrix is only read. |
| `Consistency.IsContradiction` | Rowoperation.py:79 | The row test of `is_consistent`: every coefficient is 0 and the constant, the last entry, is not. |
| `Consistency.InconsistentHasNoSolution` | Rowoperation.py:72-81 | A system that `is_consistent` rejects has no solution. |
| `Consistency.ContradictionIsLastLead` | Rowoperation.py:79-80 | A row is a contradiction exactly when its leading entry is in the constant column. |
| `Consistency.CleanedKeepsConsistency` | Rowoperation.py:63-81 | On a reduced matrix, `is_consistent` gives the same verdict before and after the cleanup. |
| `Consistency.ResultConsistency` | Rowoperation.py:177-189 | `is_consistent` gives the same verdict on the cleaned result as on the exact reduction. When it returns false, the input system has no solution. |
| `Variables.LeadVarOf` | Rowoperation.py:90-95 | A row adds at most one lead variable: 1 plus the index of its first nonzero coefficient, or none when all its coefficients are 0. |
| `Variables.LeadVars` | Rowoperation.py:89-95 | Rows `0..k-1` add at most `k` lead variables, each in `1..n`. |
| `Variables.FreeVars` | Rowoperation.py:87-94 | The free variables are exactly `1..n` minus the lead variables, in strictly ascending order. |
| `Variables.RemoveFirst` | Rowoperation.py:94 | `list.remove` drops exactly one element. |
| `Variables.RemoveFreeVar` | Rowoperation.py:93-94 | Removing a free variable `v` gives the free variables of the lead list extended by `v`. |
| `Variables.AddLeadVar` | Rowoperation.py:91-94 | Appending `v` to the lead list and removing it from the free list, if present, keeps the free list equal to `FreeVars`. |
| `Variables.AllFreeAtStart` | Rowoperation.py:87 | `list(range(1, cols))` is the free list of an empty lead list. |
| `Variables.FirstCoefficient` | Rowoperation.py:90-95 | The inner loop finds the first nonzero coefficient, or `n` when there is none, matching `LeadVarOf`. |
| `Variables.RecordLead` | Rowoperation.py:91-94 | The lead list gains `v`, and the free list stays the free list of the new lead list. |
| `Variables.AddMissingFree` | Rowoperation.py:97-100 | The closing loop appends nothing. |
| `Variables.IdentifyVariables` | Rowoperation.py:83-102 | Lead variables are `LeadVars` of every row. The free variables are `FreeVars` of the lead variables: exactly `1..cols-1` minus the lead variables, ascending. The two lists are therefore disjoint and cover every variable. |
| `Variables.ScanRows` | Rowoperation.py:86-96 | After the row loop, the lead variables are `LeadVars` of every row in row order, and the free list is `FreeVars` of them. |
| `Solver.IndexOf` | Rowoperation.py:131 | The position `enumerate` gives a free variable: the first position holding it. |
| `Solver.SolvedFor` | Rowoperation.py:136-149 | Row `i` solved for `lv`: the constant, and minus every coefficient except the one at `lv`. |
| `Solver.ParamsAtOne` | Rowoperation.py:146-149 | The values `solve_system` uses: 1 for a free variable and 0 for any other variable. |
| `Solver.Collapsed` | Rowoperation.py:136-151 | The number recorded for the lead variable of row `i`: the row solved for that variable, with every parameter counted as 1 (line 147) and every other variable as 0. `CollapsedIsInstanceAtOne` proves it is the corrected affine form evaluated at every parameter equal to 1. |
| `Solver.ParamEntries` | Rowoperation.py:131-132 | The keys are the free variables, and `free[k]` maps to `t<k+1>`. |
| `Solver.BindParameters` | Rowoperation.py:131-132 | The parameter loop builds exactly `ParamEntries`. |
| `Solver.Recorded` | Rowoperation.py:131-151 | The dictionary after the first `i` lead rows: the parameters, then for each of those rows its lead variable bound to `Collapsed`. `RecordedContents` states its keys and values. |
| `Solver.RecordedContents` | Rowoperation.py:131-151 | After `i` lead rows, the keys are the free variables plus the first `i` lead variables; the parameters are unchanged; each lead variable has its row's number. |
| `Solver.RecordedKeys` | Rowoperation.py:131-151 | After `i` lead rows, the keys are the free variables plus the first `i` lead variables. |
| `Solver.RecordedParams` | Rowoperation.py:131-151 | No lead variable's number overwrites a parameter. |
| `Solver.RecordedNumbers` | Rowoperation.py:135-151 | A later lead row never overwrites an earlier one's number. |
| `Solver.SolveRow` | Rowoperation.py:136-149 | The row's constant minus every nonzero non-lead coefficient, with each parameter counted as 1 and each absent variable as 0. |
| `Solver.RecordRow` | Rowoperation.py:135-151 | One lead row records its lead variable's number in the dictionary. |
| `Solver.SolveSystem` | Rowoperation.py:125-153 | Keys are exactly lead ∪ free. `x<free[k]>` maps to `t<k+1>`. `x<lead[i]>` maps to the number row `i` gives when every parameter is 1. A matrix with no column is accepted when there are no lead variables. |
| `Solver.SolveParametric` | Rowoperation.py:125-153 | The corrected dictionary: the same keys and parameters, and lead variable `i` bound to its row solved for it, an affine form. |
| `Solver.ParamValues` | Rowoperation.py:131-132 | Parameter values assigned to variables: `free[k]` takes `t[k]`, and the others take 0. |
| `Solver.Instantiate` | Rowoperation.py:135-151 | The solution the corrected bindings give for parameter values `t`. |
| `Solver.SolvedForExact` | Rowoperation.py:136-149 | A row with a 1 at `lv` holds exactly when `x<lv>` equals the row solved for it. |
| `Solver.DotAgree` | Rowoperation.py:142-149 | Assignments that agree wherever a coefficient is nonzero give the same sum. |
| `Solver.RrefZeroRowsLast` | Rowoperation.py:34-60 | In reduced row echelon form, zero rows come last. |
| `Solver.RrefLeadVars` | Rowoperation.py:89-95 | On a consistent reduced matrix, the nonzero rows come first, and lead variable `i` is 1 plus the leading column of row `i`. |
| `Solver.RrefLeadVarsStep` | Rowoperation.py:89-95 | Row `k - 1` extends that statement from the rows before it. |
| `Solver.RrefPivotsFit` | Rowoperation.py:83-102 | The variables found on a consistent reduced matrix meet what `solve_system` needs: distinct, disjoint, and other lead columns zero in each lead row. |
| `Solver.RrefLeadsDistinct` | Rowoperation.py:89-95 | On a consistent reduced matrix, the lead variables strictly increase. |
| `Solver.RrefLeadColumnsZero` | Rowoperation.py:143-149 | Each lead row is zero in every other lead column, so no number is read back at line 145. |
| `Solver.RrefLeadRows` | Rowoperation.py:83-102 | Each lead row has a 1 at its lead variable, and the rows after the lead rows are zero. |
| `Solver.RrefDecomposed` | Rowoperation.py:83-102 | On a consistent reduced matrix, the lead and free variables cover every variable, with unit lead entries and zero trailing rows. |
| `Solver.AssembleDecomposed` | Rowoperation.py:87-100 | Facts about the lead rows, with the free list of `FreeVars`, give the decomposition. |
| `Solver.FormsUseOnlyParams` | Rowoperation.py:143-149 | The form of each lead variable has zero coefficients at all lead variables, so it is written in the parameters alone. |
| `Solver.DecomposedSolutionSet` | Rowoperation.py:125-153 | For a decomposed matrix, `x` solves it exactly when it meets every corrected binding. |
| `Solver.SatisfiesLeadForms` | Rowoperation.py:135-151 | Meeting the corrected bindings is the same as each lead variable equalling its form. |
| `Solver.LeadFormsSatisfy` | Rowoperation.py:135-151 | Forms that hold imply the bindings are met. |
| `Solver.SatisfiedFormsHold` | Rowoperation.py:135-151 | Bindings that are met imply the forms hold. |
| `Solver.SolvesByLeadRows` | Rowoperation.py:135-151 | A system of unit lead rows and zero rows holds exactly when every lead form holds. |
| `Solver.ParamsOf` | Rowoperation.py:131-132 | The parameter values of `x`: the value of each free variable, in the order of `free`. |
| `Solver.InstanceMeetsForms` | Rowoperation.py:135-151 | The instance for any parameter values meets every lead form. |
| `Solver.InstanceMeetsFormAt` | Rowoperation.py:135-151 | The instance meets the form of lead row `i`. |
| `Solver.FormAgrees` | Rowoperation.py:142-149 | A form without lead-variable terms has the same value at two assignments that agree off the lead variables. |
| `Solver.InstanceKeepsParams` | Rowoperation.py:131-132 | In the instance for `t`, free variable `free[k]` takes `t[k]`. |
| `Solver.FormsDetermineInstance` | Rowoperation.py:125-153 | An assignment that meets every lead form is the instance for the values of its free variables. |
| `Solver.InstanceAgreesAt` | Rowoperation.py:125-153 | That statement at one variable. |
| `Solver.ParamsOfRestores` | Rowoperation.py:131-132 | Reading the free variables and setting them back restores every non-lead variable. |
| `Solver.InstanceAgreesAtLead` | Rowoperation.py:135-151 | That statement at a lead variable. |
| `Solver.InstanceAtLead` | Rowoperation.py:135-151 | The instance at a lead variable is its form evaluated at the parameter values. |
| `Solver.LeadFormAt` | Rowoperation.py:135-151 | `LeadFormsHold` at one row. |
| `Solver.ParametricSolutionSet` | Rowoperation.py:125-153 | On a consistent reduced matrix, `x` solves the system exactly when it meets every binding of the corrected solution. |
| `Solver.EveryChoiceSolves` | Rowoperation.py:125-153 | Every choice of the parameters gives a solution of a consistent reduced system. |
| `Solver.ChoiceFixesFreeVars` | Rowoperation.py:131-132 | In the instance for `t`, each free variable takes its parameter's value. |
| `Solver.InstanceSolves` | Rowoperation.py:125-153 | The instance for any parameter values solves a decomposed system. |
| `Solver.EverySolutionIsAnInstance` | Rowoperation.py:125-153 | Every solution of a consistent reduced system is the instance for the values of its free variables. |
| `Solver.DecomposedSolutionIsInstance` | Rowoperation.py:125-153 | The same, for a decomposed matrix. |
| `Solver.CollapsedIsInstanceAtOne` | Rowoperation.py:146-147 | The number `solve_system` records for a lead variable is its affine form evaluated with every parameter set to 1. |
| `Solver.SolutionSetOfSystem` | Rowoperation.py:27-153 | For any input: if its exact reduction is inconsistent, the input has no solution. Otherwise the input's solutions are exactly the assignments that meet the corrected bindings of the reduced matrix. |
| `Solver.ConsistentIffSolvable` | Rowoperation.py:177-189 | `is_consistent` on the result of `reduced_row_echelon_form` is true if and only if the input system has a solution. |
| `Solver.CollapsedParameterCounterexample` | Rowoperation.py:146-147 | On `x1 + 2*x2 = 3, x3 = 4`, `solve_system` records `x1 = 1` beside `x2 = t1`, and that assignment at `t1 = 0` is not a solution. The corrected binding `x1 = 3 - 2*t1` gives a solution. |
| `Solver.ExampleVariables` | Rowoperation.py:83-102 | The example's lead variables are `[1, 3]` and its free variables `[2]`, and they meet the requirements. |
| `Solver.ExampleCollapsed` | Rowoperation.py:146-147 | The example's recorded number for `x1` is 1, and `(1, 0, 4)` is not a solution. |
| `Solver.ExampleCorrected` | Rowoperation.py:125-153 | The corrected instance at `t1 = 0` is `(3, 0, 4)`, and it is a solution. |

## Left out

- Console script (Rowoperation.py:156-212): left out because it is terminal I/O (`input`, `print`).
- `extract_linear_equations` (Rowoperation.py:104-123): left out because it only formats floats into display strings.
- `round(x, 4)` at Rowoperation.py:68: not modelled. The cleanup keeps every value outside the snapping range as it is.
- `round(solution, 2)` at Rowoperation.py:151: not modelled. The recorded number is the exact value.
- Float round-off: not modelled. All arithmetic is exact `real` arithmetic, so the `== 0` and `!= 0` tests are exact.
- Dictionary keys and values: `"x<v>"` keys are the numbers `v`, and `"t<k>"` strings are `Param(k)`. No string formatting is modelled.
- Solver.SolveSystem: requires `PivotsFit`, which asks for three things:
  - distinct, disjoint lead and free variables;
  - no more lead variables than rows;
  - each lead row zero in every other lead column.

  The last condition excludes the `TypeError` that `"t" in term` raises at line 146 when `term` is a nonzero float. It also excludes two inputs that the source handles without error, subtracting 0 at line 149:
  - a zero float read back for an earlier lead variable;
  - a nonzero coefficient at a later lead variable, which is not yet in the dictionary and is read as `None`.

  The source checks none of these. `RrefPivotsFit` proves that the output of `identify_variables` on a consistent reduced matrix meets all three conditions.
- Solver.SolveSystem: requires at least one column when there is a lead variable. With no column, `matrix[i][-1]` at line 137 raises `IndexError`. With no lead variable, the row loop never runs and the parameter dictionary is returned; the model covers that case.
- Consistency.IsConsistent: requires at least one column. With no column, `matrix[i][-1]` at line 80 raises `IndexError` on the first (empty) row.
- Rectangular, non-empty input: every operation requires it. The console script does not ensure it:
  - the column count read at line 158 is never used;
  - each row at line 163 has as many entries as the user types;
  - zero rows give an empty matrix, on which `len(matrix[0])` at line 5 raises `IndexError`.

  Ragged input is not modelled. The source reads the column count from row 0 at line 5. On ragged input it does one of three things:
  - Line 23 rebuilds every row below the pivot with exactly that many entries, so extra entries are silently dropped.
  - The `zip` at line 56 silently truncates to the shorter of two rows.
  - It raises `IndexError` only when a row is too short for an index it reads. This can happen in the forward pass (lines 9, 11, 22 and 23), in the sweep (lines 37 and 55) or in the cleanup (line 65).
- Row aliasing: rows are values. Two rows sharing one Python list, which the console script never creates, is not modelled.

## Findings

| source | as written | input that shows it | evidently intended | confidence | as-written member | corrected member |
|---|---|---|---|---|---|---|
| Rowoperation.py:146-147 | Each free-variable term of a lead row is subtracted as `coeff * 1`, so the lead variable gets the number its row gives with every parameter equal to 1. | The reduced system `x1 + 2*x2 = 3, x3 = 4` gives `{x2: t1, x1: 1.0, x3: 4.0}`. At `t1 = 0` this reads `(1, 0, 4)`, which is not a solution. | Each lead variable is kept as an affine form in the parameters (`x1 = 3 - 2*t1`). Every choice of the parameters then gives a solution, and every solution arises this way. | not executed | `Solver.CollapsedParameterCounterexample` | `Solver.ParametricSolutionSet` |
