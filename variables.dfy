/** `identify_variables` (Rowoperation.py:83-102): the 1-based indices of the
    variables split into lead variables, one per row that has a nonzero
    coefficient, and free variables, all the others in ascending order. */
module Variables {
  import opened Matrices

  /** The number of variables: every column but the constant one. */
  function NumVars(m: Matrix): nat
    requires |m| > 0
  {
    if Cols(m) == 0 then 0 else Cols(m) - 1
  }

  /** The lead variable a row contributes: one more than the index of its first
      nonzero coefficient among the first `n` entries, or 0 for none. */
  function LeadVarOf(row: seq<real>, n: nat): (v: nat)
    requires n <= |row|
    ensures v == 0 ==> forall j :: 0 <= j < n ==> row[j] == 0.0
    ensures v != 0 ==> 1 <= v <= n && row[v - 1] != 0.0
    ensures v != 0 ==> forall j :: 0 <= j < v - 1 ==> row[j] == 0.0
  {
    var c := LeadFrom(row[..n], 0);
    if c < n then c + 1 else 0
  }

  /** The lead variables of rows `0..k-1`, in row order. */
  function LeadVars(m: Matrix, n: nat, k: nat): (lead: seq<nat>)
    requires Rectangular(m) && n <= Cols(m) && k <= |m|
    ensures |lead| <= k
    ensures forall t :: 0 <= t < |lead| ==> 1 <= lead[t] <= n
  {
    if k == 0 then []
    else
      var v := LeadVarOf(m[k - 1], n);
      LeadVars(m, n, k - 1) + (if v == 0 then [] else [v])
  }

  /** Row `k` adds its lead variable, if it has one, to those of the rows above. */
  lemma LeadVarsNext(m: Matrix, n: nat, k: nat)
    requires Rectangular(m) && n <= Cols(m) && k < |m|
    ensures var v := LeadVarOf(m[k], n);
      LeadVars(m, n, k + 1) == LeadVars(m, n, k) + (if v == 0 then [] else [v])
  {
  }

  /** The variables `1..n` that are not in `lead`, in ascending order. */
  function FreeVars(n: nat, lead: seq<nat>): (free: seq<nat>)
    ensures forall v {:trigger v in free} :: v in free <==> 1 <= v <= n && v !in lead
    ensures forall a, b :: 0 <= a < b < |free| ==> free[a] < free[b]
    ensures forall k :: 0 <= k < |free| ==> 1 <= free[k] <= n && free[k] !in lead
  {
    if n == 0 then []
    else
      var below := FreeVars(n - 1, lead);
      assert forall a :: 0 <= a < |below| ==> below[a] in below;
      below + (if n in lead then [] else [n])
  }

  /** `list.remove`: the sequence without the first occurrence of `v`. */
  function RemoveFirst(s: seq<nat>, v: nat): (r: seq<nat>)
    requires v in s
    ensures |r| == |s| - 1
  {
    if s[0] == v then s[1..] else [s[0]] + RemoveFirst(s[1..], v)
  }

  lemma {:induction false} RemoveFirstAppend(a: seq<nat>, b: seq<nat>, v: nat)
    requires v in a
    ensures RemoveFirst(a + b, v) == RemoveFirst(a, v) + b
  {
    if a[0] != v {
      assert (a + b)[1..] == a[1..] + b;
      RemoveFirstAppend(a[1..], b, v);
    } else {
      assert (a + b)[1..] == a[1..] + b;
    }
  }

  /** `FreeVars` depends only on which of `1..n` the lead list holds. */
  lemma {:induction false} FreeVarsAgree(n: nat, lead1: seq<nat>, lead2: seq<nat>)
    requires forall w :: 1 <= w <= n ==> (w in lead1 <==> w in lead2)
    ensures FreeVars(n, lead1) == FreeVars(n, lead2)
  {
    if n > 0 {
      FreeVarsAgree(n - 1, lead1, lead2);
    }
  }

  /** Removing a free variable `v` (line 94) leaves the free variables of the
      lead list extended by `v`. */
  lemma {:induction false} RemoveFreeVar(n: nat, lead: seq<nat>, v: nat)
    requires v in FreeVars(n, lead)
    ensures RemoveFirst(FreeVars(n, lead), v) == FreeVars(n, lead + [v])
  {
    if v == n {
      RemoveLastFreeVar(n, lead);
    } else {
      var below := FreeVars(n - 1, lead);
      var tail := if n in lead then [] else [n];
      assert FreeVars(n, lead) == below + tail;
      assert v in below;
      RemoveFirstAppend(below, tail, v);
      RemoveFreeVar(n - 1, lead, v);
      assert (n in lead + [v]) == (n in lead) by {
        assert n != v;
      }
      assert FreeVars(n, lead + [v]) == FreeVars(n - 1, lead + [v]) + tail;
    }
  }

  lemma {:induction false} RemoveLastFreeVar(n: nat, lead: seq<nat>)
    requires n in FreeVars(n, lead)
    ensures RemoveFirst(FreeVars(n, lead), n) == FreeVars(n, lead + [n])
  {
    var below := FreeVars(n - 1, lead);
    assert n !in lead;
    assert FreeVars(n, lead) == below + [n];
    assert n !in below;
    RemoveFirstAppend_Last(below, n);
    FreeVarsAgree(n - 1, lead, lead + [n]);
    assert FreeVars(n, lead + [n]) == FreeVars(n - 1, lead + [n]);
  }

  lemma {:induction false} RemoveFirstAppend_Last(a: seq<nat>, v: nat)
    requires v !in a
    ensures RemoveFirst(a + [v], v) == a
  {
    if a != [] {
      assert (a + [v])[1..] == a[1..] + [v];
      RemoveFirstAppend_Last(a[1..], v);
    }
  }

  /** The update of lines 91-95 for a row whose lead variable is `v`: the lead
      list gains `v` and the free list drops it if present. */
  lemma {:induction false} AddLeadVar(n: nat, lead: seq<nat>, v: nat)
    ensures var free := FreeVars(n, lead);
      (if v in free then RemoveFirst(free, v) else free) == FreeVars(n, lead + [v])
  {
    if v in FreeVars(n, lead) {
      RemoveFreeVar(n, lead, v);
    } else {
      FreeVarsAgree(n, lead, lead + [v]);
    }
  }

  /** `list(range(1, cols))`, the starting free list (line 87), lists every
      variable: it is the free list of an empty lead list. */
  lemma {:induction false} AllFreeAtStart(n: nat)
    ensures FreeVars(n, []) == seq(n, k requires 0 <= k < n => k + 1)
  {
    if n > 0 {
      AllFreeAtStart(n - 1);
    }
  }

  /** The inner loop of lines 90-96: the first coefficient of `row` that is
      nonzero, or `n` when there is none. */
  method FirstCoefficient(row: seq<real>, n: nat) returns (j: nat)
    requires n <= |row|
    ensures j <= n
    ensures forall k :: 0 <= k < j ==> row[k] == 0.0
    ensures j < n ==> row[j] != 0.0
    ensures j < n <==> LeadVarOf(row, n) != 0
    ensures j < n ==> LeadVarOf(row, n) == j + 1
  {
    j := 0;
    while j < n
      invariant j <= n
      invariant forall k :: 0 <= k < j ==> row[k] == 0.0
    {
      if row[j] != 0.0 {
        assert LeadFrom(row[..n], 0) == j;
        return;
      }
      j := j + 1;
    }
  }

  /** `identify_variables` (lines 83-102). */
  method IdentifyVariables(m: Matrix) returns (lead: seq<nat>, free: seq<nat>)
    requires Rectangular(m)
    ensures lead == LeadVars(m, NumVars(m), |m|)
    ensures free == FreeVars(NumVars(m), lead)
    ensures forall v :: v in free <==> 1 <= v <= NumVars(m) && v !in lead
    ensures forall a, b :: 0 <= a < b < |free| ==> free[a] < free[b]
  {
    var n := NumVars(m);
    lead, free := ScanRows(m, n);
    free := AddMissingFree(n, lead, free);
  }

  /** Lines 86-96: start with every variable free, then move the lead
      variable of each row, in row order, from the free list to the lead list. */
  method ScanRows(m: Matrix, n: nat) returns (lead: seq<nat>, free: seq<nat>)
    requires Rectangular(m) && n <= Cols(m)
    ensures lead == LeadVars(m, n, |m|)
    ensures free == FreeVars(n, lead)
  {
    var rows := |m|;
    lead := [];
    free := seq(n, k requires 0 <= k < n => k + 1);
    AllFreeAtStart(n);
    for i := 0 to rows
      invariant lead == LeadVars(m, n, i)
      invariant free == FreeVars(n, lead)
    {
      var j := FirstCoefficient(m[i], n);
      LeadVarsNext(m, n, i);
      if j < n {
        lead, free := RecordLead(n, lead, free, j + 1);
      }
    }
  }

  /** Lines 91-94: `v` joins the lead variables and leaves the free ones. */
  method RecordLead(n: nat, lead: seq<nat>, free: seq<nat>, v: nat) returns (lead': seq<nat>, free': seq<nat>)
    requires free == FreeVars(n, lead)
    ensures lead' == lead + [v]
    ensures free' == FreeVars(n, lead')
  {
    AddLeadVar(n, lead, v);
    free' := free;
    if v in free {
      free' := RemoveFirst(free, v);
    }
    lead' := lead + [v];
  }

  /** The closing loop of lines 98-100: append every variable that is neither
      lead nor free. Every variable is already one of the two, so nothing is
      appended. */
  method AddMissingFree(n: nat, lead: seq<nat>, free: seq<nat>) returns (r: seq<nat>)
    requires free == FreeVars(n, lead)
    ensures r == free
  {
    r := free;
    for c: nat := 1 to n + 1
      invariant r == free
    {
      if c !in lead && c !in r {
        assert false;
        r := r + [c];
      }
    }
  }
}
