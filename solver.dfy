/** `solve_system` (Rowoperation.py:125-153): each lead variable solved from its
    row of the reduced matrix in terms of the free variables, which become the
    parameters `t1, t2, ...`. */
module Solver {
  import opened Matrices
  import opened Echelon
  import opened Reduction
  import opened Consistency
  import opened Variables

  datatype Option<T> = None | Some(value: T)

  /** A value of the solution dictionary, whose key `v` stands for `x<v>`: the
      parameter `t<index>` for a free variable, or a number for a lead variable. */
  datatype Entry = Param(index: nat) | Number(value: real)

  /** An affine expression `constant + coeffs[0] * x1 + coeffs[1] * x2 + ...`. */
  datatype Affine = Affine(constant: real, coeffs: seq<real>)

  function Eval(e: Affine, x: seq<real>): real
    requires |e.coeffs| == |x|
  {
    e.constant + Dot(e.coeffs, x, |x|)
  }

  function Elems(s: seq<nat>): set<nat> {
    set v | v in s
  }

  /** The position of the first occurrence of `v` in `s`. */
  function IndexOf(s: seq<nat>, v: nat): (k: nat)
    requires v in s
    ensures k < |s| && s[k] == v
    ensures forall k' :: 0 <= k' < k ==> s[k'] != v
  {
    if s[0] == v then 0 else 1 + IndexOf(s[1..], v)
  }

  /** In a sequence without repeats, each element is found at its own position. */
  lemma IndexOfDistinct(s: seq<nat>)
    requires forall i, k :: 0 <= i < k < |s| ==> s[i] != s[k]
    ensures forall i :: 0 <= i < |s| ==> IndexOf(s, s[i]) == i
  {
  }

  /** What `solve_system` needs of its arguments: a lead row for each lead
      variable; lead and free variables distinct and disjoint (they are dictionary
      keys); and each lead row zero in the column of every other lead variable,
      as in a reduced matrix, so that no lead variable's number is ever looked
      up for another row. */
  predicate PivotsFit(m: Matrix, lead: seq<nat>, free: seq<nat>)
    requires Rectangular(m)
  {
    && |lead| <= |m|
    && (forall i, k :: 0 <= i < k < |lead| ==> lead[i] != lead[k])
    && (forall i, k :: 0 <= i < k < |free| ==> free[i] != free[k])
    && (forall i, k :: 0 <= i < |lead| && 0 <= k < |free| ==> lead[i] != free[k])
    && (forall i, k :: 0 <= i < |lead| && 0 <= k < |lead| && i != k && 1 <= lead[k] < Cols(m) ==>
          m[i][lead[k] - 1] == 0.0)
  }

  /** Equation `row` (coefficients, then the constant at position `n`) solved for
      variable `lv`: the constant minus every other variable's term. */
  function SolvedFor(row: seq<real>, lv: nat, n: nat): (e: Affine)
    requires n < |row|
    ensures e.constant == row[n] && |e.coeffs| == n
    ensures forall j :: 0 <= j < n ==> e.coeffs[j] == if j + 1 == lv then 0.0 else -row[j]
  {
    Affine(row[n], seq(n, j requires 0 <= j < n => if j + 1 == lv then 0.0 else -row[j]))
  }

  /** Variable values with every variable of `free` set to 1 and the others to 0:
      how `solve_system` evaluates a parameter it meets (line 147). */
  function ParamsAtOne(free: seq<nat>, n: nat): (x: seq<real>)
    ensures |x| == n
    ensures forall j :: 0 <= j < n ==> x[j] == if j + 1 in free then 1.0 else 0.0
  {
    seq(n, j requires 0 <= j < n => if j + 1 in free then 1.0 else 0.0)
  }

  /** The number `solve_system` records for the lead variable of row `i`
      (line 151): the row solved for that variable with every parameter
      counted as 1 (line 147) and every other variable as 0. */
  function Collapsed(m: Matrix, lead: seq<nat>, free: seq<nat>, i: nat): real
    requires Rectangular(m) && Cols(m) >= 1 && i < |lead| <= |m|
  {
    var n := Cols(m) - 1;
    Eval(SolvedFor(m[i], lead[i], n), ParamsAtOne(free, n))
  }

  /** The parameters of lines 131-132: the `k`-th free variable maps to `t<k+1>`. */
  function ParamEntries(free: seq<nat>): (sol: map<nat, Entry>)
    requires forall i, k :: 0 <= i < k < |free| ==> free[i] != free[k]
    ensures sol.Keys == Elems(free)
    ensures forall k :: 0 <= k < |free| ==> sol[free[k]] == Param(k + 1)
  {
    map v | v in Elems(free) :: Param(IndexOf(free, v) + 1)
  }

  /** The dictionary of `solve_system` after the first `i` lead rows (lines
      131-151): the parameters, then a number for each lead variable so far. */
  function Recorded(m: Matrix, lead: seq<nat>, free: seq<nat>, i: nat): map<nat, Entry>
    requires Rectangular(m) && (|lead| > 0 ==> Cols(m) >= 1) && PivotsFit(m, lead, free) && i <= |lead|
  {
    if i == 0 then ParamEntries(free)
    else Recorded(m, lead, free, i - 1)[lead[i - 1] := Number(Collapsed(m, lead, free, i - 1))]
  }

  /** After `i` lead rows the dictionary holds every parameter unchanged and,
      for each of those rows, its lead variable's number. */
  lemma RecordedContents(m: Matrix, lead: seq<nat>, free: seq<nat>, i: nat)
    requires Rectangular(m) && (|lead| > 0 ==> Cols(m) >= 1) && PivotsFit(m, lead, free) && i <= |lead|
    ensures Recorded(m, lead, free, i).Keys == Elems(free) + Elems(lead[..i])
    ensures forall k :: 0 <= k < |free| ==> Recorded(m, lead, free, i)[free[k]] == Param(k + 1)
    ensures forall k :: 0 <= k < i ==> Recorded(m, lead, free, i)[lead[k]] == Number(Collapsed(m, lead, free, k))
  {
    RecordedKeys(m, lead, free, i);
    RecordedParams(m, lead, free, i);
    RecordedNumbers(m, lead, free, i);
  }

  lemma {:induction false} RecordedKeys(m: Matrix, lead: seq<nat>, free: seq<nat>, i: nat)
    requires Rectangular(m) && (|lead| > 0 ==> Cols(m) >= 1) && PivotsFit(m, lead, free) && i <= |lead|
    ensures Recorded(m, lead, free, i).Keys == Elems(free) + Elems(lead[..i])
  {
    if i > 0 {
      RecordedKeys(m, lead, free, i - 1);
      assert lead[..i] == lead[..i - 1] + [lead[i - 1]];
    }
  }

  /** A lead row's number never overwrites a parameter. */
  lemma {:induction false} RecordedParams(m: Matrix, lead: seq<nat>, free: seq<nat>, i: nat)
    requires Rectangular(m) && (|lead| > 0 ==> Cols(m) >= 1) && PivotsFit(m, lead, free) && i <= |lead|
    ensures forall k :: 0 <= k < |free| ==> free[k] in Recorded(m, lead, free, i)
    ensures forall k :: 0 <= k < |free| ==> Recorded(m, lead, free, i)[free[k]] == Param(k + 1)
  {
    if i > 0 {
      RecordedParams(m, lead, free, i - 1);
    }
  }

  /** A later lead row never overwrites an earlier one's number. */
  lemma {:induction false} RecordedNumbers(m: Matrix, lead: seq<nat>, free: seq<nat>, i: nat)
    requires Rectangular(m) && (|lead| > 0 ==> Cols(m) >= 1) && PivotsFit(m, lead, free) && i <= |lead|
    ensures forall k :: 0 <= k < i ==> lead[k] in Recorded(m, lead, free, i)
    ensures forall k :: 0 <= k < i ==> Recorded(m, lead, free, i)[lead[k]] == Number(Collapsed(m, lead, free, k))
  {
    if i > 0 {
      RecordedNumbers(m, lead, free, i - 1);
    }
  }

  /** `solve_system` (lines 125-153) as written: a free variable maps to its
      parameter, and a lead variable to the number its row gives when every
      parameter counts as 1. */
  method SolveSystem(m: Matrix, lead: seq<nat>, free: seq<nat>) returns (solutions: map<nat, Entry>)
    requires Rectangular(m) && (|lead| > 0 ==> Cols(m) >= 1) && PivotsFit(m, lead, free)
    ensures solutions == Recorded(m, lead, free, |lead|)
    ensures solutions.Keys == Elems(free) + Elems(lead)
    ensures forall k :: 0 <= k < |free| ==> solutions[free[k]] == Param(k + 1)
    ensures forall i :: 0 <= i < |lead| ==> solutions[lead[i]] == Number(Collapsed(m, lead, free, i))
  {
    solutions := BindParameters(free);
    for i := 0 to |lead|
      invariant solutions == Recorded(m, lead, free, i)
    {
      solutions := RecordRow(m, lead, free, solutions, i);
    }
    RecordedContents(m, lead, free, |lead|);
    assert lead[..|lead|] == lead;
  }

  /** Lines 135-151 for row `i`: its lead variable gets the number the row gives. */
  method RecordRow(m: Matrix, lead: seq<nat>, free: seq<nat>, solutions: map<nat, Entry>, i: nat)
    returns (solutions': map<nat, Entry>)
    requires Rectangular(m) && Cols(m) >= 1 && PivotsFit(m, lead, free) && i < |lead|
    requires solutions == Recorded(m, lead, free, i)
    ensures solutions' == Recorded(m, lead, free, i + 1)
  {
    RecordedContents(m, lead, free, i);
    var solution := SolveRow(m, lead, free, solutions, i);
    solutions' := solutions[lead[i] := Number(solution)];
  }

  /** Lines 131-132: the `k`-th free variable becomes the parameter `t<k+1>`. */
  method BindParameters(free: seq<nat>) returns (solutions: map<nat, Entry>)
    requires forall i, k :: 0 <= i < k < |free| ==> free[i] != free[k]
    ensures solutions == ParamEntries(free)
  {
    solutions := map[];
    for i := 0 to |free|
      invariant solutions.Keys == Elems(free[..i])
      invariant forall k :: 0 <= k < i ==> solutions[free[k]] == Param(k + 1)
    {
      assert free[..i + 1] == free[..i] + [free[i]];
      solutions := solutions[free[i] := Param(i + 1)];
    }
    assert free[..|free|] == free;
    ParamEntriesUnique(free, solutions);
  }

  /** A dictionary with the keys and values of `ParamEntries` is that map. */
  lemma ParamEntriesUnique(free: seq<nat>, sol: map<nat, Entry>)
    requires forall i, k :: 0 <= i < k < |free| ==> free[i] != free[k]
    requires sol.Keys == Elems(free)
    requires forall k :: 0 <= k < |free| ==> sol[free[k]] == Param(k + 1)
    ensures sol == ParamEntries(free)
  {
    var p := ParamEntries(free);
    forall v | v in sol.Keys ensures sol[v] == p[v] {
      var k := IndexOf(free, v);
      assert p[free[k]] == Param(k + 1);
    }
  }

  /** Lines 136-149: row `i` solved for `lead[i]`, reading every other variable
      from `solutions`; a parameter counts as 1 and an absent variable as 0. */
  method SolveRow(m: Matrix, lead: seq<nat>, free: seq<nat>, solutions: map<nat, Entry>, i: nat)
    returns (solution: real)
    requires Rectangular(m) && Cols(m) >= 1 && PivotsFit(m, lead, free) && i < |lead|
    requires solutions.Keys == Elems(free) + Elems(lead[..i])
    requires forall k :: 0 <= k < |free| ==> solutions[free[k]] == Param(k + 1)
    ensures solution == Collapsed(m, lead, free, i)
  {
    var n := |m[0]| - 1;
    var lv := lead[i];
    ghost var e := SolvedFor(m[i], lv, n);
    ghost var ones := ParamsAtOne(free, n);
    solution := m[i][n];
    for j := 0 to n
      invariant solution == e.constant + Dot(e.coeffs, ones, j)
    {
      if j + 1 != lv && m[i][j] != 0.0 {
        assert j + 1 !in lead[..i];
        var term := if j + 1 in solutions then Some(solutions[j + 1]) else None;
        match term {
          case Some(Param(_)) =>
            solution := solution - m[i][j] * 1.0;
          case Some(Number(_)) =>
            // A number here would be subtracted when it is 0 and raise a
            // TypeError otherwise; only lead variables hold numbers, and a
            // lead row is zero in every other lead column.
            assert false;
          case None =>
            solution := solution - m[i][j] * 0.0;
        }
      }
    }
  }

  /** What the corrected solution binds a variable to. */
  datatype Binding = Parameter(index: nat) | Resolved(form: Affine)

  /** The corrected `solve_system`: each lead variable is bound to the affine
      form its row gives in the parameters, rather than to a number. */
  function SolveParametric(m: Matrix, lead: seq<nat>, free: seq<nat>): (sol: map<nat, Binding>)
    requires Rectangular(m) && Cols(m) >= 1 && PivotsFit(m, lead, free)
    ensures sol.Keys == Elems(free) + Elems(lead)
    ensures forall k :: 0 <= k < |free| ==> sol[free[k]] == Parameter(k + 1)
    ensures forall i :: 0 <= i < |lead| ==> sol[lead[i]] == Resolved(SolvedFor(m[i], lead[i], Cols(m) - 1))
    ensures forall v :: v in sol ==> (sol[v].Resolved? <==> v in lead)
  {
    var n := Cols(m) - 1;
    IndexOfDistinct(lead);
    IndexOfDistinct(free);
    map v | v in Elems(free) + Elems(lead) ::
      if v in lead then Resolved(SolvedFor(m[IndexOf(lead, v)], v, n))
      else Parameter(IndexOf(free, v) + 1)
  }

  /** `x` meets every resolved binding of `sol`. */
  predicate Satisfies(sol: map<nat, Binding>, x: seq<real>) {
    forall v :: v in sol && sol[v].Resolved? ==>
      1 <= v <= |x| && |sol[v].form.coeffs| == |x| && x[v - 1] == Eval(sol[v].form, x)
  }

  /** Values of all variables for parameter values `t`: free variable `free[k]`
      takes `t[k]`, the others 0. */
  function ParamValues(free: seq<nat>, t: seq<real>, n: nat): (x: seq<real>)
    requires |t| == |free|
    ensures |x| == n
    ensures forall j :: 0 <= j < n && j + 1 in free ==> x[j] == t[IndexOf(free, j + 1)]
    ensures forall j :: 0 <= j < n && j + 1 !in free ==> x[j] == 0.0
  {
    seq(n, j requires 0 <= j < n => if j + 1 in free then t[IndexOf(free, j + 1)] else 0.0)
  }

  /** The solution the corrected bindings give for parameter values `t`. */
  function Instantiate(m: Matrix, lead: seq<nat>, free: seq<nat>, t: seq<real>): (x: seq<real>)
    requires Rectangular(m) && Cols(m) >= 1 && |lead| <= |m| && |t| == |free|
    ensures |x| == Cols(m) - 1
    ensures forall j :: 0 <= j < Cols(m) - 1 && j + 1 in lead ==>
      x[j] == Eval(SolvedFor(m[IndexOf(lead, j + 1)], j + 1, Cols(m) - 1), ParamValues(free, t, Cols(m) - 1))
    ensures forall j :: 0 <= j < Cols(m) - 1 && j + 1 !in lead ==> x[j] == ParamValues(free, t, Cols(m) - 1)[j]
  {
    var n := Cols(m) - 1;
    var p := ParamValues(free, t, n);
    seq(n, j requires 0 <= j < n =>
      if j + 1 in lead then Eval(SolvedFor(m[IndexOf(lead, j + 1)], j + 1, n), p) else p[j])
  }

  /** Row `row`'s equation, with a 1 at `lv`, holds exactly when `x(lv)` equals
      the row solved for it. */
  lemma {:induction false} SolvedForExact(row: seq<real>, lv: nat, n: nat, x: seq<real>)
    requires n < |row| && |x| == n && 1 <= lv <= n && row[lv - 1] == 1.0
    ensures Dot(row, x, n) == row[n] <==> x[lv - 1] == Eval(SolvedFor(row, lv, n), x)
  {
    DotSplit(row, lv, n, x, n);
  }

  lemma {:induction false} DotSplit(row: seq<real>, lv: nat, n: nat, x: seq<real>, k: nat)
    requires n < |row| && |x| == n && 1 <= lv <= n && row[lv - 1] == 1.0 && k <= n
    ensures Dot(row, x, k) + Dot(SolvedFor(row, lv, n).coeffs, x, k) == if lv - 1 < k then x[lv - 1] else 0.0
  {
    if k > 0 {
      DotSplit(row, lv, n, x, k - 1);
    }
  }

  /** Two assignments that agree wherever a coefficient is nonzero give the
      same sum. */
  lemma {:induction false} DotAgree(c: seq<real>, x: seq<real>, y: seq<real>, k: nat)
    requires k <= |c| && k <= |x| && k <= |y|
    requires forall j :: 0 <= j < k ==> c[j] == 0.0 || x[j] == y[j]
    ensures Dot(c, x, k) == Dot(c, y, k)
  {
    if k > 0 {
      DotAgree(c, x, y, k - 1);
    }
  }

  /** The lead row is the first nonzero entry. */
  lemma {:induction false} LeadIs(row: seq<real>, c: nat)
    requires c < |row| && row[c] != 0.0
    requires forall j :: 0 <= j < c ==> row[j] == 0.0
    ensures Lead(row) == c
  {
  }

  /** No nonzero row follows a zero row. */
  predicate ZeroRowsLast(m: Matrix) {
    forall r, s :: 0 <= r < s < |m| && IsZeroRow(m[r]) ==> IsZeroRow(m[s])
  }

  /** In reduced row echelon form the zero rows come last. */
  lemma {:induction false} RrefZeroRowsLast(m: Matrix)
    requires Rectangular(m) && IsRref(m)
    ensures ZeroRowsLast(m)
  {
    forall r, s | 0 <= r < s < |m| && IsZeroRow(m[r]) ensures IsZeroRow(m[s]) {
      ZeroRowHasNoLead(m[r]);
      ZeroRowHasNoLead(m[s]);
    }
  }

  /** `lead` holds one more than the leading column of each of the first
      `|lead|` rows, all nonzero, and the rows after them up to `k` are zero. */
  predicate LeadRowsFirst(m: Matrix, lead: seq<nat>, k: nat)
    requires Rectangular(m) && |lead| <= k <= |m|
  {
    && (forall i :: 0 <= i < |lead| ==> !IsZeroRow(m[i]) && lead[i] == Lead(m[i]) + 1)
    && (forall i :: |lead| <= i < k ==> IsZeroRow(m[i]))
  }

  lemma {:induction false} LeadRowsFirstZeroRow(m: Matrix, lead: seq<nat>, k: nat)
    requires Rectangular(m) && |lead| < k <= |m|
    requires LeadRowsFirst(m, lead, k - 1) && IsZeroRow(m[k - 1])
    ensures LeadRowsFirst(m, lead, k)
  {
  }

  lemma {:induction false} LeadRowsFirstLeadRow(m: Matrix, lead: seq<nat>, k: nat)
    requires Rectangular(m) && |lead| + 1 == k <= |m|
    requires LeadRowsFirst(m, lead, k - 1) && !IsZeroRow(m[k - 1])
    ensures LeadRowsFirst(m, lead + [Lead(m[k - 1]) + 1], k)
  {
  }

  /** On a consistent matrix in reduced row echelon form, `identify_variables`
      takes one lead variable from each nonzero row, and those rows come first:
      lead variable `i` is one more than the leading column of row `i`. */
  lemma RrefLeadVars(m: Matrix, k: nat)
    requires Rectangular(m) && Cols(m) >= 1 && ZeroRowsLast(m) && IsConsistent(m) && k <= |m|
    ensures LeadRowsFirst(m, LeadVars(m, Cols(m) - 1, k), k)
  {
    var j := 0;
    while j < k
      invariant j <= k
      invariant LeadRowsFirst(m, LeadVars(m, Cols(m) - 1, j), j)
    {
      j := j + 1;
      RrefLeadVarsStep(m, j);
    }
  }

  /** Row `k - 1` extends what `RrefLeadVars` states of the rows before it. */
  lemma {:induction false} RrefLeadVarsStep(m: Matrix, k: nat)
    requires Rectangular(m) && Cols(m) >= 1 && ZeroRowsLast(m) && IsConsistent(m) && 0 < k <= |m|
    requires LeadRowsFirst(m, LeadVars(m, Cols(m) - 1, k - 1), k - 1)
    ensures LeadRowsFirst(m, LeadVars(m, Cols(m) - 1, k), k)
  {
    var n := Cols(m) - 1;
    var prev := LeadVars(m, n, k - 1);
    var row := m[k - 1];
    var v := LeadVarOf(row, n);
    assert LeadVars(m, n, k) == prev + (if v == 0 then [] else [v]);
    if v == 0 {
      assert !IsContradiction(row);
      assert IsZeroRow(row);
      LeadRowsFirstZeroRow(m, prev, k);
    } else {
      LeadIs(row, v - 1);
      assert |prev| == k - 1;
      LeadRowsFirstLeadRow(m, prev, k);
    }
  }

  /** The variables `identify_variables` finds in a consistent reduced matrix
      meet what `solve_system` needs. */
  lemma {:induction false} RrefPivotsFit(m: Matrix)
    requires Rectangular(m) && Cols(m) >= 1 && IsRref(m) && IsConsistent(m)
    ensures var lead := LeadVars(m, Cols(m) - 1, |m|);
      PivotsFit(m, lead, FreeVars(Cols(m) - 1, lead))
  {
    var n := Cols(m) - 1;
    var lead := LeadVars(m, n, |m|);
    var free := FreeVars(n, lead);
    RrefLeadsDistinct(m);
    RrefLeadColumnsZero(m);
    forall i, k | 0 <= i < |lead| && 0 <= k < |free| ensures lead[i] != free[k] {
      assert free[k] in free;
    }
  }

  lemma {:induction false} RrefLeadsDistinct(m: Matrix)
    requires Rectangular(m) && Cols(m) >= 1 && IsRref(m) && IsConsistent(m)
    ensures var lead := LeadVars(m, Cols(m) - 1, |m|);
      forall i, k :: 0 <= i < k < |lead| ==> lead[i] < lead[k]
  {
    var lead := LeadVars(m, Cols(m) - 1, |m|);
    RrefZeroRowsLast(m);
    RrefLeadVars(m, |m|);
    forall i, k | 0 <= i < k < |lead| ensures lead[i] < lead[k] {
      assert !IsZeroRow(m[k]);
    }
  }

  lemma {:induction false} RrefLeadColumnsZero(m: Matrix)
    requires Rectangular(m) && Cols(m) >= 1 && IsRref(m) && IsConsistent(m)
    ensures var lead := LeadVars(m, Cols(m) - 1, |m|);
      forall i, k :: 0 <= i < |lead| && 0 <= k < |lead| && i != k && 1 <= lead[k] < Cols(m) ==>
        m[i][lead[k] - 1] == 0.0
  {
    var lead := LeadVars(m, Cols(m) - 1, |m|);
    RrefZeroRowsLast(m);
    RrefLeadVars(m, |m|);
    forall i, k | 0 <= i < |lead| && 0 <= k < |lead| && i != k && 1 <= lead[k] < Cols(m)
      ensures m[i][lead[k] - 1] == 0.0
    {
      assert !IsZeroRow(m[k]);
    }
  }

  /** When `solve_system`'s requirements hold, the form of lead variable `i` has
      a zero coefficient at every lead variable, itself included: it is written
      in the parameters alone. */
  lemma {:induction false} FormsUseOnlyParams(m: Matrix, lead: seq<nat>, free: seq<nat>, i: nat)
    requires Rectangular(m) && Cols(m) >= 1 && PivotsFit(m, lead, free) && i < |lead|
    ensures var n := Cols(m) - 1;
      forall j :: 0 <= j < n && j + 1 in lead ==> SolvedFor(m[i], lead[i], n).coeffs[j] == 0.0
  {
    var n := Cols(m) - 1;
    forall j | 0 <= j < n && j + 1 in lead ensures SolvedFor(m[i], lead[i], n).coeffs[j] == 0.0 {
      var k := IndexOf(lead, j + 1);
      assert k != i ==> m[i][lead[k] - 1] == 0.0;
    }
  }

  /** The solution set of a consistent reduced system: `x` solves it exactly
      when every lead variable equals its form in the corrected solution. */
  lemma {:induction false} ParametricSolutionSet(m: Matrix, x: seq<real>)
    requires Rectangular(m) && Cols(m) == |x| + 1 && IsRref(m) && IsConsistent(m)
    ensures var lead := LeadVars(m, Cols(m) - 1, |m|);
      var free := FreeVars(Cols(m) - 1, lead);
      PivotsFit(m, lead, free) && (Solves(m, x) <==> Satisfies(SolveParametric(m, lead, free), x))
  {
    var lead := LeadVars(m, Cols(m) - 1, |m|);
    RrefDecomposed(m);
    DecomposedSolutionSet(m, lead, FreeVars(Cols(m) - 1, lead), x);
  }

  /** What `solve_system` can rely on in a consistent reduced matrix: its
      requirements, a 1 at each lead row's lead variable, zero rows after the
      lead rows, and every variable either lead or free. */
  predicate Decomposed(m: Matrix, lead: seq<nat>, free: seq<nat>)
    requires Rectangular(m) && Cols(m) >= 1
  {
    && PivotsFit(m, lead, free)
    && (forall i :: 0 <= i < |lead| ==> 1 <= lead[i] < Cols(m) && m[i][lead[i] - 1] == 1.0)
    && (forall i :: |lead| <= i < |m| ==> IsZeroRow(m[i]))
    && (forall k :: 0 <= k < |free| ==> 1 <= free[k] < Cols(m))
    && (forall v :: 1 <= v < Cols(m) ==> v in lead || v in free)
  }

  /** The variables `identify_variables` finds in a consistent reduced matrix
      decompose it. */
  lemma {:induction false} RrefDecomposed(m: Matrix)
    requires Rectangular(m) && Cols(m) >= 1 && IsRref(m) && IsConsistent(m)
    ensures var lead := LeadVars(m, Cols(m) - 1, |m|);
      Decomposed(m, lead, FreeVars(Cols(m) - 1, lead))
  {
    RrefPivotsFit(m);
    RrefLeadRows(m);
    AssembleDecomposed(m, LeadVars(m, Cols(m) - 1, |m|));
  }

  lemma {:induction false} AssembleDecomposed(m: Matrix, lead: seq<nat>)
    requires Rectangular(m) && Cols(m) >= 1
    requires PivotsFit(m, lead, FreeVars(Cols(m) - 1, lead))
    requires forall i :: 0 <= i < |lead| ==> 1 <= lead[i] <= Cols(m) - 1
    requires forall i :: 0 <= i < |lead| ==> m[i][lead[i] - 1] == 1.0
    requires forall i :: |lead| <= i < |m| ==> IsZeroRow(m[i])
    ensures Decomposed(m, lead, FreeVars(Cols(m) - 1, lead))
  {
    var free := FreeVars(Cols(m) - 1, lead);
    forall v | 1 <= v < Cols(m) ensures v in lead || v in free {
    }
  }

  /** For a decomposed matrix, `x` solves it exactly when it meets the
      corrected bindings. */
  lemma {:induction false} DecomposedSolutionSet(m: Matrix, lead: seq<nat>, free: seq<nat>, x: seq<real>)
    requires Rectangular(m) && Cols(m) == |x| + 1 && Decomposed(m, lead, free)
    ensures Solves(m, x) <==> Satisfies(SolveParametric(m, lead, free), x)
  {
    SolvesByLeadRows(m, lead, x);
    SatisfiesLeadForms(m, lead, free, x);
  }

  /** Every lead variable equals the form its row gives. */
  predicate LeadFormsHold(m: Matrix, lead: seq<nat>, x: seq<real>)
    requires Rectangular(m) && Cols(m) == |x| + 1 && |lead| <= |m|
    requires forall i :: 0 <= i < |lead| ==> 1 <= lead[i] <= |x|
  {
    forall i :: 0 <= i < |lead| ==> x[lead[i] - 1] == Eval(SolvedFor(m[i], lead[i], |x|), x)
  }

  /** `x` meets the corrected bindings exactly when each lead variable equals
      its form. */
  lemma {:induction false} SatisfiesLeadForms(m: Matrix, lead: seq<nat>, free: seq<nat>, x: seq<real>)
    requires Rectangular(m) && Cols(m) == |x| + 1 && PivotsFit(m, lead, free)
    requires forall i :: 0 <= i < |lead| ==> 1 <= lead[i] <= |x|
    ensures Satisfies(SolveParametric(m, lead, free), x) <==> LeadFormsHold(m, lead, x)
  {
    if LeadFormsHold(m, lead, x) {
      LeadFormsSatisfy(m, lead, free, x);
    }
    if Satisfies(SolveParametric(m, lead, free), x) {
      SatisfiedFormsHold(m, lead, free, x);
    }
  }

  lemma {:induction false} LeadFormsSatisfy(m: Matrix, lead: seq<nat>, free: seq<nat>, x: seq<real>)
    requires Rectangular(m) && Cols(m) == |x| + 1 && PivotsFit(m, lead, free)
    requires forall i :: 0 <= i < |lead| ==> 1 <= lead[i] <= |x|
    requires LeadFormsHold(m, lead, x)
    ensures Satisfies(SolveParametric(m, lead, free), x)
  {
    var n := |x|;
    var sol := SolveParametric(m, lead, free);
    forall v | v in sol && sol[v].Resolved?
      ensures 1 <= v <= n && |sol[v].form.coeffs| == n && x[v - 1] == Eval(sol[v].form, x)
    {
      assert v in lead;
      var i := IndexOf(lead, v);
      assert sol[v] == Resolved(SolvedFor(m[i], lead[i], n));
      LeadFormAt(m, lead, x, i);
    }
  }

  lemma {:induction false} SatisfiedFormsHold(m: Matrix, lead: seq<nat>, free: seq<nat>, x: seq<real>)
    requires Rectangular(m) && Cols(m) == |x| + 1 && PivotsFit(m, lead, free)
    requires forall i :: 0 <= i < |lead| ==> 1 <= lead[i] <= |x|
    requires Satisfies(SolveParametric(m, lead, free), x)
    ensures LeadFormsHold(m, lead, x)
  {
    var n := |x|;
    var sol := SolveParametric(m, lead, free);
    forall i | 0 <= i < |lead|
      ensures x[lead[i] - 1] == Eval(SolvedFor(m[i], lead[i], n), x)
    {
      var v := lead[i];
      assert v in sol;
      assert sol[v] == Resolved(SolvedFor(m[i], lead[i], n));
    }
  }

  /** A system whose first `|lead|` rows each have a 1 at their lead variable
      and whose other rows are zero holds exactly when each lead row, solved
      for its lead variable, holds. */
  lemma {:induction false} SolvesByLeadRows(m: Matrix, lead: seq<nat>, x: seq<real>)
    requires Rectangular(m) && Cols(m) == |x| + 1 && |lead| <= |m|
    requires forall i :: 0 <= i < |lead| ==> 1 <= lead[i] <= |x| && m[i][lead[i] - 1] == 1.0
    requires forall i :: |lead| <= i < |m| ==> IsZeroRow(m[i])
    ensures Solves(m, x) <==> LeadFormsHold(m, lead, x)
  {
    var n := |x|;
    if Solves(m, x) {
      forall i | 0 <= i < |lead| ensures x[lead[i] - 1] == Eval(SolvedFor(m[i], lead[i], n), x) {
        SolvedForExact(m[i], lead[i], n, x);
      }
    }
    if LeadFormsHold(m, lead, x) {
      forall r | 0 <= r < |m| ensures Dot(m[r], x, n) == m[r][n] {
        if r < |lead| {
          SolvedForExact(m[r], lead[r], n, x);
        } else {
          DotZeroRow(m[r], x, n);
        }
      }
    }
  }

  /** In a consistent reduced matrix each lead row has a 1 at its lead variable
      and the rows after the lead rows are zero. */
  lemma {:induction false} RrefLeadRows(m: Matrix)
    requires Rectangular(m) && Cols(m) >= 1 && IsRref(m) && IsConsistent(m)
    ensures var lead := LeadVars(m, Cols(m) - 1, |m|);
      && (forall i :: 0 <= i < |lead| ==> m[i][lead[i] - 1] == 1.0)
      && (forall i :: |lead| <= i < |m| ==> IsZeroRow(m[i]))
  {
    RrefZeroRowsLast(m);
    RrefLeadVars(m, |m|);
  }

  /** The value of each free variable in `x`, in the order of `free`: the
      parameter values that `x` corresponds to. */
  function ParamsOf(free: seq<nat>, x: seq<real>): (t: seq<real>)
    requires forall k :: 0 <= k < |free| ==> 1 <= free[k] <= |x|
    ensures |t| == |free|
    ensures forall k :: 0 <= k < |free| ==> t[k] == x[free[k] - 1]
  {
    seq(|free|, k requires 0 <= k < |free| => x[free[k] - 1])
  }

  /** The all-ones parameter values. */
  function Ones(k: nat): (t: seq<real>)
    ensures |t| == k && forall i :: 0 <= i < k ==> t[i] == 1.0
  {
    seq(k, i => 1.0)
  }

  /** The instance of the corrected bindings for parameter values `t` meets
      every lead form. */
  lemma {:induction false} InstanceMeetsForms(m: Matrix, lead: seq<nat>, free: seq<nat>, t: seq<real>)
    requires Rectangular(m) && Cols(m) >= 1 && PivotsFit(m, lead, free) && |t| == |free|
    requires forall i :: 0 <= i < |lead| ==> 1 <= lead[i] < Cols(m)
    ensures LeadFormsHold(m, lead, Instantiate(m, lead, free, t))
  {
    var x := Instantiate(m, lead, free, t);
    forall i | 0 <= i < |lead| ensures x[lead[i] - 1] == Eval(SolvedFor(m[i], lead[i], |x|), x) {
      InstanceMeetsFormAt(m, lead, free, t, i);
    }
  }

  lemma {:induction false} InstanceMeetsFormAt(m: Matrix, lead: seq<nat>, free: seq<nat>, t: seq<real>, i: nat)
    requires Rectangular(m) && Cols(m) >= 1 && PivotsFit(m, lead, free) && |t| == |free|
    requires i < |lead| && 1 <= lead[i] < Cols(m)
    ensures var x := Instantiate(m, lead, free, t);
      x[lead[i] - 1] == Eval(SolvedFor(m[i], lead[i], |x|), x)
  {
    var n := Cols(m) - 1;
    var x := Instantiate(m, lead, free, t);
    var p := ParamValues(free, t, n);
    var form := SolvedFor(m[i], lead[i], n);
    InstanceAtLead(m, lead, free, t, i);
    FormsUseOnlyParams(m, lead, free, i);
    FormAgrees(form, lead, x, p);
  }

  /** A form with no lead-variable terms takes the same value at two
      assignments that agree off the lead variables. */
  lemma {:induction false} FormAgrees(form: Affine, lead: seq<nat>, x: seq<real>, y: seq<real>)
    requires |form.coeffs| == |x| == |y|
    requires forall j :: 0 <= j < |x| && j + 1 in lead ==> form.coeffs[j] == 0.0
    requires forall j :: 0 <= j < |x| && j + 1 !in lead ==> x[j] == y[j]
    ensures Eval(form, x) == Eval(form, y)
  {
    DotAgree(form.coeffs, x, y, |x|);
  }

  /** In the instance for parameter values `t`, free variable `free[k]` takes
      `t[k]`. */
  lemma {:induction false} InstanceKeepsParams(m: Matrix, lead: seq<nat>, free: seq<nat>, t: seq<real>)
    requires Rectangular(m) && Cols(m) >= 1 && PivotsFit(m, lead, free) && |t| == |free|
    requires forall k :: 0 <= k < |free| ==> 1 <= free[k] < Cols(m)
    ensures forall k :: 0 <= k < |free| ==> Instantiate(m, lead, free, t)[free[k] - 1] == t[k]
  {
    forall k | 0 <= k < |free| ensures Instantiate(m, lead, free, t)[free[k] - 1] == t[k] {
      assert free[k] !in lead;
      assert IndexOf(free, free[k]) == k;
    }
  }

  /** An assignment that meets every lead form, where every variable is a lead
      or a free variable, is the instance for the values of its free variables. */
  lemma {:induction false} FormsDetermineInstance(m: Matrix, lead: seq<nat>, free: seq<nat>, x: seq<real>)
    requires Rectangular(m) && Cols(m) == |x| + 1 && PivotsFit(m, lead, free)
    requires forall i :: 0 <= i < |lead| ==> 1 <= lead[i] <= |x|
    requires forall k :: 0 <= k < |free| ==> 1 <= free[k] <= |x|
    requires forall v :: 1 <= v <= |x| ==> v in lead || v in free
    requires LeadFormsHold(m, lead, x)
    ensures x == Instantiate(m, lead, free, ParamsOf(free, x))
  {
    var y := Instantiate(m, lead, free, ParamsOf(free, x));
    ParamsOfRestores(lead, free, x);
    forall j | 0 <= j < |x| ensures y[j] == x[j] {
      InstanceAgreesAt(m, lead, free, x, j);
    }
  }

  lemma {:induction false} InstanceAgreesAt(m: Matrix, lead: seq<nat>, free: seq<nat>, x: seq<real>, j: nat)
    requires Rectangular(m) && Cols(m) == |x| + 1 && PivotsFit(m, lead, free)
    requires forall i :: 0 <= i < |lead| ==> 1 <= lead[i] <= |x|
    requires forall k :: 0 <= k < |free| ==> 1 <= free[k] <= |x|
    requires forall j :: 0 <= j < |x| && j + 1 !in lead ==> ParamValues(free, ParamsOf(free, x), |x|)[j] == x[j]
    requires LeadFormsHold(m, lead, x)
    requires j < |x|
    ensures Instantiate(m, lead, free, ParamsOf(free, x))[j] == x[j]
  {
    if j + 1 in lead {
      var i := IndexOf(lead, j + 1);
      InstanceAgreesAtLead(m, lead, free, x, i);
    }
  }

  /** Reading the free variables of `x` and setting them back gives `x` at
      every variable that is not a lead variable. */
  lemma {:induction false} ParamsOfRestores(lead: seq<nat>, free: seq<nat>, x: seq<real>)
    requires forall k :: 0 <= k < |free| ==> 1 <= free[k] <= |x|
    requires forall v :: 1 <= v <= |x| ==> v in lead || v in free
    ensures forall j :: 0 <= j < |x| && j + 1 !in lead ==> ParamValues(free, ParamsOf(free, x), |x|)[j] == x[j]
  {
    var t := ParamsOf(free, x);
    forall j | 0 <= j < |x| && j + 1 !in lead ensures ParamValues(free, t, |x|)[j] == x[j] {
      assert j + 1 in free;
      var k := IndexOf(free, j + 1);
      assert t[k] == x[free[k] - 1];
    }
  }

  lemma {:induction false} InstanceAgreesAtLead(m: Matrix, lead: seq<nat>, free: seq<nat>, x: seq<real>, i: nat)
    requires Rectangular(m) && Cols(m) == |x| + 1 && PivotsFit(m, lead, free)
    requires i < |lead| && forall k :: 0 <= k < |lead| ==> 1 <= lead[k] <= |x|
    requires forall k :: 0 <= k < |free| ==> 1 <= free[k] <= |x|
    requires forall j :: 0 <= j < |x| && j + 1 !in lead ==> ParamValues(free, ParamsOf(free, x), |x|)[j] == x[j]
    requires LeadFormsHold(m, lead, x)
    ensures Instantiate(m, lead, free, ParamsOf(free, x))[lead[i] - 1] == x[lead[i] - 1]
  {
    var n := |x|;
    var t := ParamsOf(free, x);
    var p := ParamValues(free, t, n);
    var form := SolvedFor(m[i], lead[i], n);
    FormsUseOnlyParams(m, lead, free, i);
    assert forall c :: 0 <= c < n ==> form.coeffs[c] == 0.0 || p[c] == x[c] by {
      forall c | 0 <= c < n ensures form.coeffs[c] == 0.0 || p[c] == x[c] {
        if c + 1 !in lead {
          assert p[c] == x[c];
        }
      }
    }
    DotAgree(form.coeffs, p, x, n);
    LeadFormAt(m, lead, x, i);
    InstanceAtLead(m, lead, free, t, i);
  }

  lemma {:induction false} InstanceAtLead(m: Matrix, lead: seq<nat>, free: seq<nat>, t: seq<real>, i: nat)
    requires Rectangular(m) && Cols(m) >= 1 && PivotsFit(m, lead, free) && |t| == |free|
    requires i < |lead| && 1 <= lead[i] < Cols(m)
    ensures Instantiate(m, lead, free, t)[lead[i] - 1] ==
      Eval(SolvedFor(m[i], lead[i], Cols(m) - 1), ParamValues(free, t, Cols(m) - 1))
  {
    assert IndexOf(lead, lead[i]) == i;
  }

  lemma {:induction false} LeadFormAt(m: Matrix, lead: seq<nat>, x: seq<real>, i: nat)
    requires Rectangular(m) && Cols(m) == |x| + 1 && |lead| <= |m|
    requires forall k :: 0 <= k < |lead| ==> 1 <= lead[k] <= |x|
    requires LeadFormsHold(m, lead, x) && i < |lead|
    ensures x[lead[i] - 1] == Eval(SolvedFor(m[i], lead[i], |x|), x)
  {
  }

  /** Every choice of the parameters gives a solution of a consistent reduced
      system. */
  lemma {:induction false} EveryChoiceSolves(m: Matrix, t: seq<real>)
    requires Rectangular(m) && Cols(m) >= 1 && IsRref(m) && IsConsistent(m)
    requires |t| == |FreeVars(Cols(m) - 1, LeadVars(m, Cols(m) - 1, |m|))|
    ensures var lead := LeadVars(m, Cols(m) - 1, |m|);
      Solves(m, Instantiate(m, lead, FreeVars(Cols(m) - 1, lead), t))
  {
    var lead := LeadVars(m, Cols(m) - 1, |m|);
    RrefDecomposed(m);
    InstanceSolves(m, lead, FreeVars(Cols(m) - 1, lead), t);
  }

  /** In the instance for parameter values `t` of a consistent reduced system,
      each free variable takes its parameter's value: the free variables are
      free. */
  lemma {:induction false} ChoiceFixesFreeVars(m: Matrix, t: seq<real>)
    requires Rectangular(m) && Cols(m) >= 1 && IsRref(m) && IsConsistent(m)
    requires |t| == |FreeVars(Cols(m) - 1, LeadVars(m, Cols(m) - 1, |m|))|
    ensures var lead := LeadVars(m, Cols(m) - 1, |m|);
      var free := FreeVars(Cols(m) - 1, lead);
      forall k :: 0 <= k < |free| ==> Instantiate(m, lead, free, t)[free[k] - 1] == t[k]
  {
    var lead := LeadVars(m, Cols(m) - 1, |m|);
    RrefDecomposed(m);
    InstanceKeepsParams(m, lead, FreeVars(Cols(m) - 1, lead), t);
  }

  /** The instance for any parameter values solves a system whose lead rows
      have a 1 at their lead variable and whose other rows are zero. */
  lemma {:induction false} InstanceSolves(m: Matrix, lead: seq<nat>, free: seq<nat>, t: seq<real>)
    requires Rectangular(m) && Cols(m) >= 1 && Decomposed(m, lead, free) && |t| == |free|
    ensures Solves(m, Instantiate(m, lead, free, t))
  {
    InstanceMeetsForms(m, lead, free, t);
    SolvesByLeadRows(m, lead, Instantiate(m, lead, free, t));
  }

  /** Every solution of a consistent reduced system is the instance of the
      corrected bindings for the values it gives the free variables. */
  lemma {:induction false} EverySolutionIsAnInstance(m: Matrix, x: seq<real>)
    requires Rectangular(m) && Cols(m) == |x| + 1 && IsRref(m) && IsConsistent(m)
    requires Solves(m, x)
    ensures var lead := LeadVars(m, Cols(m) - 1, |m|);
      var free := FreeVars(Cols(m) - 1, lead);
      x == Instantiate(m, lead, free, ParamsOf(free, x))
  {
    var lead := LeadVars(m, Cols(m) - 1, |m|);
    RrefDecomposed(m);
    DecomposedSolutionIsInstance(m, lead, FreeVars(Cols(m) - 1, lead), x);
  }

  lemma {:induction false} DecomposedSolutionIsInstance(m: Matrix, lead: seq<nat>, free: seq<nat>, x: seq<real>)
    requires Rectangular(m) && Cols(m) == |x| + 1 && Decomposed(m, lead, free) && Solves(m, x)
    ensures x == Instantiate(m, lead, free, ParamsOf(free, x))
  {
    SolvesByLeadRows(m, lead, x);
    FormsDetermineInstance(m, lead, free, x);
  }

  /** What `solve_system` as written returns for a lead variable is that
      variable's value in the instance with every parameter equal to 1. */
  lemma {:induction false} CollapsedIsInstanceAtOne(m: Matrix, lead: seq<nat>, free: seq<nat>)
    requires Rectangular(m) && Cols(m) >= 1 && PivotsFit(m, lead, free)
    requires forall i :: 0 <= i < |lead| ==> 1 <= lead[i] < Cols(m)
    ensures var n := Cols(m) - 1;
      forall i :: 0 <= i < |lead| ==>
        Eval(SolvedFor(m[i], lead[i], n), ParamsAtOne(free, n)) == Instantiate(m, lead, free, Ones(|free|))[lead[i] - 1]
  {
    var n := Cols(m) - 1;
    var ones := ParamValues(free, Ones(|free|), n);
    assert ones == ParamsAtOne(free, n);
    forall i | 0 <= i < |lead|
      ensures Eval(SolvedFor(m[i], lead[i], n), ParamsAtOne(free, n)) == Instantiate(m, lead, free, Ones(|free|))[lead[i] - 1]
    {
      assert IndexOf(lead, lead[i]) == i;
    }
  }

  /** For any input, when the exact reduction is consistent the input's
      solutions are exactly the assignments that meet the corrected bindings,
      and when it is not the input has no solution. */
  lemma {:induction false} SolutionSetOfSystem(m: Matrix, x: seq<real>)
    requires Rectangular(m) && Cols(m) == |x| + 1
    ensures var e := RrefFrom(Ref(m), 0, 0);
      && Rectangular(e) && Cols(e) == Cols(m)
      && (!IsConsistent(e) ==> !Solves(m, x))
      && (IsConsistent(e) ==>
            var lead := LeadVars(e, Cols(e) - 1, |e|);
            var free := FreeVars(Cols(e) - 1, lead);
            PivotsFit(e, lead, free) && (Solves(m, x) <==> Satisfies(SolveParametric(e, lead, free), x)))
  {
    var e := RrefFrom(Ref(m), 0, 0);
    ExactReductionIsReduced(m);
    ExactReductionKeepsSolutions(m, x);
    if IsConsistent(e) {
      ParametricSolutionSet(e, x);
    } else {
      InconsistentHasNoSolution(e, x);
    }
  }

  /** `is_consistent` on the result of `reduced_row_echelon_form` (lines
      177-189) returns true exactly when the input system has a solution. */
  lemma {:induction false} ConsistentIffSolvable(m: Matrix)
    requires Rectangular(m) && Cols(m) >= 1
    ensures IsConsistent(Rref(m)) <==> exists x :: |x| + 1 == Cols(m) && Solves(m, x)
  {
    var e := RrefFrom(Ref(m), 0, 0);
    ExactReductionIsReduced(m);
    if IsConsistent(Rref(m)) {
      ResultConsistency(m, seq(Cols(m) - 1, j => 0.0));
      var lead := LeadVars(e, Cols(e) - 1, |e|);
      var free := FreeVars(Cols(e) - 1, lead);
      var t := seq(|free|, k => 0.0);
      EveryChoiceSolves(e, t);
      var x := Instantiate(e, lead, free, t);
      ExactReductionKeepsSolutions(m, x);
      assert |x| + 1 == Cols(m) && Solves(m, x);
    } else {
      forall x | |x| + 1 == Cols(m) ensures !Solves(m, x) {
        ResultConsistency(m, x);
      }
    }
  }

  /** The reduced system x1 + 2*x2 = 3, x3 = 4: lead variables x1 and x3, free
      variable x2. */
  const CollapseExample: Matrix := [[1.0, 2.0, 0.0, 3.0], [0.0, 0.0, 1.0, 4.0]]

  /** The parameter collapse of lines 146-147 on `CollapseExample`, whose
      parameter t1 stands for x2: `solve_system` reports x1 as the number 1 next
      to x2 = t1, and at t1 = 0 that assignment is not a solution, while the
      corrected binding x1 = 3 - 2*t1 gives one. */
  lemma {:induction false} CollapsedParameterCounterexample()
    ensures Rectangular(CollapseExample) && Cols(CollapseExample) == 4
    ensures LeadVars(CollapseExample, 3, 2) == [1, 3] && FreeVars(3, [1, 3]) == [2]
    ensures PivotsFit(CollapseExample, [1, 3], [2])
    ensures Eval(SolvedFor(CollapseExample[0], 1, 3), ParamsAtOne([2], 3)) == 1.0
    ensures !Solves(CollapseExample, [1.0, 0.0, 4.0])
    ensures Instantiate(CollapseExample, [1, 3], [2], [0.0]) == [3.0, 0.0, 4.0]
    ensures Solves(CollapseExample, [3.0, 0.0, 4.0])
  {
    ExampleVariables();
    ExampleCollapsed();
    ExampleCorrected();
  }

  lemma {:induction false} ExampleVariables()
    ensures Rectangular(CollapseExample) && Cols(CollapseExample) == 4
    ensures LeadVars(CollapseExample, 3, 2) == [1, 3] && FreeVars(3, [1, 3]) == [2]
    ensures PivotsFit(CollapseExample, [1, 3], [2])
  {
    ExampleLeadVars();
    ExampleFreeVars();
    ExamplePivotsFit();
  }

  lemma {:induction false} ExampleFreeVars()
    ensures FreeVars(3, [1, 3]) == [2]
  {
    assert FreeVars(0, [1, 3]) == [];
    assert FreeVars(1, [1, 3]) == [];
    assert FreeVars(2, [1, 3]) == [2];
  }

  lemma {:induction false} ExamplePivotsFit()
    ensures Rectangular(CollapseExample)
    ensures PivotsFit(CollapseExample, [1, 3], [2])
  {
    var m := CollapseExample;
    assert Rectangular(m);
    assert m[0][2] == 0.0 && m[1][0] == 0.0;
  }

  lemma {:induction false} ExampleLeadVars()
    ensures Rectangular(CollapseExample) && Cols(CollapseExample) == 4
    ensures LeadVars(CollapseExample, 3, 2) == [1, 3]
  {
    var m := CollapseExample;
    assert Rectangular(m);
    assert LeadVarOf(m[0], 3) == 1 by {
      assert LeadFrom(m[0][..3], 0) == 0;
    }
    assert LeadVarOf(m[1], 3) == 3 by {
      assert LeadFrom(m[1][..3], 2) == 2;
    }
    assert LeadVars(m, 3, 1) == [1];
  }

  lemma {:induction false} ExampleCollapsed()
    ensures Rectangular(CollapseExample) && Cols(CollapseExample) == 4
    ensures Eval(SolvedFor(CollapseExample[0], 1, 3), ParamsAtOne([2], 3)) == 1.0
    ensures !Solves(CollapseExample, [1.0, 0.0, 4.0])
  {
    var m := CollapseExample;
    assert Rectangular(m);
    var e := SolvedFor(m[0], 1, 3);
    assert e.coeffs == [0.0, -2.0, 0.0];
    var ones := [0.0, 1.0, 0.0];
    assert ParamsAtOne([2], 3) == ones;
    assert Dot(e.coeffs, ones, 1) == 0.0;
    assert Dot(e.coeffs, ones, 2) == -2.0;
    assert Dot(e.coeffs, ones, 3) == -2.0;
    var x := [1.0, 0.0, 4.0];
    assert Dot(m[0], x, 2) == 1.0;
    assert Dot(m[0], x, 3) == 1.0;
  }

  lemma {:induction false} ExampleCorrected()
    ensures Rectangular(CollapseExample) && Cols(CollapseExample) == 4
    ensures Instantiate(CollapseExample, [1, 3], [2], [0.0]) == [3.0, 0.0, 4.0]
    ensures Solves(CollapseExample, [3.0, 0.0, 4.0])
  {
    ExampleInstance();
    ExampleSolution();
  }

  lemma {:induction false} ExampleInstance()
    ensures Rectangular(CollapseExample) && Cols(CollapseExample) == 4
    ensures Instantiate(CollapseExample, [1, 3], [2], [0.0]) == [3.0, 0.0, 4.0]
  {
    var m := CollapseExample;
    assert Rectangular(m);
    var x := Instantiate(m, [1, 3], [2], [0.0]);
    ExampleInstanceLeads();
    assert x[1] == ParamValues([2], [0.0], 3)[1];
    assert IndexOf([2], 2) == 0;
  }

  lemma {:induction false} ExampleInstanceLeads()
    ensures Rectangular(CollapseExample) && Cols(CollapseExample) == 4
    ensures Instantiate(CollapseExample, [1, 3], [2], [0.0])[0] == 3.0
    ensures Instantiate(CollapseExample, [1, 3], [2], [0.0])[2] == 4.0
  {
    var m := CollapseExample;
    assert Rectangular(m);
    var p := ParamValues([2], [0.0], 3);
    assert p == [0.0, 0.0, 0.0] by {
      assert IndexOf([2], 2) == 0;
    }
    assert IndexOf([1, 3], 1) == 0;
    assert IndexOf([1, 3], 3) == 1;
    var e0 := SolvedFor(m[0], 1, 3);
    var e1 := SolvedFor(m[1], 3, 3);
    assert Dot(e0.coeffs, p, 1) == 0.0;
    assert Dot(e0.coeffs, p, 2) == 0.0;
    assert Dot(e0.coeffs, p, 3) == 0.0;
    assert Dot(e1.coeffs, p, 1) == 0.0;
    assert Dot(e1.coeffs, p, 2) == 0.0;
    assert Dot(e1.coeffs, p, 3) == 0.0;
  }

  lemma {:induction false} ExampleSolution()
    ensures Rectangular(CollapseExample) && Cols(CollapseExample) == 4
    ensures Solves(CollapseExample, [3.0, 0.0, 4.0])
  {
    var m := CollapseExample;
    assert Rectangular(m);
    var y := [3.0, 0.0, 4.0];
    assert Dot(m[0], y, 2) == 3.0;
    assert Dot(m[0], y, 3) == 3.0;
    assert Dot(m[1], y, 2) == 0.0;
    assert Dot(m[1], y, 3) == 4.0;
  }
}
