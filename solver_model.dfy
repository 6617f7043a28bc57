/**
 * The boundary to the integer-programming backend: a model is a grid of 0/1
 * variables, linear constraints with unit coefficients over them and a
 * weighted objective. The backend itself is not part of this model; it is an
 * oracle `Model -> Status` whose soundness is stated by SolverSound.
 */
module SolverModel {
  import opened Selection

  /** The 0/1 decision variable of entry `item` in group `bin`. */
  datatype Var = Var(item: nat, bin: nat)

  datatype Sense = AtMost | Exactly

  /** The sum of `vars` is at most, or exactly, `bound`. */
  datatype Constraint = Constraint(vars: seq<Var>, sense: Sense, bound: int)

  /** `coeff` times the value of `v`. */
  datatype Term = Term(v: Var, coeff: int)

  /** Variables for every cell of a numItems x numBins grid, constraints, objective and direction. */
  datatype Model = Model(numItems: nat, numBins: nat, constraints: seq<Constraint>, objective: seq<Term>, maximize: bool)

  /** The status codes the backend reports besides OPTIMAL. */
  datatype Code = FeasibleOnly | Infeasible | Unbounded | Abnormal | ModelInvalid | NotSolved

  /** Only an OPTIMAL status carries the values of the variables. */
  datatype Status = Optimal(selection: Grid) | NonOptimal(code: Code)

  function Value(x: Grid, v: Var): nat
  {
    if Sel(x, v.item, v.bin) then 1 else 0
  }

  function SumVars(x: Grid, vs: seq<Var>): nat
  {
    if |vs| == 0 then 0 else SumVars(x, vs[..|vs| - 1]) + Value(x, vs[|vs| - 1])
  }

  predicate Satisfied(x: Grid, c: Constraint)
  {
    match c.sense
    case AtMost => SumVars(x, c.vars) <= c.bound
    case Exactly => SumVars(x, c.vars) == c.bound
  }

  predicate AllSatisfied(x: Grid, cs: seq<Constraint>)
  {
    forall t :: 0 <= t < |cs| ==> Satisfied(x, cs[t])
  }

  function ObjValue(x: Grid, terms: seq<Term>): int
  {
    if |terms| == 0 then 0
    else ObjValue(x, terms[..|terms| - 1]) + (if Sel(x, terms[|terms| - 1].v.item, terms[|terms| - 1].v.bin) then terms[|terms| - 1].coeff else 0)
  }

  /** A 0/1 assignment of every variable of the model that meets all its constraints. */
  predicate Admissible(model: Model, x: Grid)
  {
    Shaped(x, model.numItems, model.numBins) && AllSatisfied(x, model.constraints)
  }

  /** Every variable the constraints mention is a cell of the n x m grid. */
  predicate VarsWithin(cs: seq<Constraint>, n: nat, m: nat)
  {
    forall t, v :: 0 <= t < |cs| && v in cs[t].vars ==> v.item < n && v.bin < m
  }

  /** Every variable the objective mentions is a cell of the n x m grid. */
  predicate TermsWithin(terms: seq<Term>, n: nat, m: nat)
  {
    forall t :: 0 <= t < |terms| ==> terms[t].v.item < n && terms[t].v.bin < m
  }

  /** The model speaks only of its own variables. */
  predicate WellScoped(model: Model)
  {
    VarsWithin(model.constraints, model.numItems, model.numBins) && TermsWithin(model.objective, model.numItems, model.numBins)
  }

  lemma VarsWithinAppend(a: seq<Constraint>, b: seq<Constraint>, n: nat, m: nat)
    requires VarsWithin(a, n, m) && VarsWithin(b, n, m)
    ensures VarsWithin(a + b, n, m)
  {
    forall t, v | 0 <= t < |a + b| && v in (a + b)[t].vars
      ensures v.item < n && v.bin < m
    {
      if t < |a| {
        assert (a + b)[t] == a[t];
      } else {
        assert (a + b)[t] == b[t - |a|];
      }
    }
  }

  lemma TermsWithinAppend(a: seq<Term>, b: seq<Term>, n: nat, m: nat)
    requires TermsWithin(a, n, m) && TermsWithin(b, n, m)
    ensures TermsWithin(a + b, n, m)
  {
    forall t | 0 <= t < |a + b|
      ensures (a + b)[t].v.item < n && (a + b)[t].v.bin < m
    {
      if t < |a| {
        assert (a + b)[t] == a[t];
      } else {
        assert (a + b)[t] == b[t - |a|];
      }
    }
  }

  /** y is admissible and no admissible assignment has a better objective value. */
  ghost predicate IsOptimum(model: Model, y: Grid)
  {
    && Admissible(model, y)
    && forall x :: Admissible(model, x) ==>
         if model.maximize then ObjValue(x, model.objective) <= ObjValue(y, model.objective)
         else ObjValue(x, model.objective) >= ObjValue(y, model.objective)
  }

  /** What the caller relies on: an OPTIMAL status comes with an optimum of the model. */
  ghost predicate SolverSound(solve: Model -> Status)
  {
    forall model :: solve(model).Optimal? ==> IsOptimum(model, solve(model).selection)
  }

  lemma {:induction false} SumVarsAppend(x: Grid, a: seq<Var>, b: seq<Var>)
    ensures SumVars(x, a + b) == SumVars(x, a) + SumVars(x, b)
  {
    if |b| == 0 {
      assert a + b == a;
    } else {
      var n := |b| - 1;
      assert (a + b)[..|a + b| - 1] == a + b[..n];
      assert (a + b)[|a + b| - 1] == b[n];
      SumVarsAppend(x, a, b[..n]);
    }
  }

  lemma {:induction false} ObjValueAppend(x: Grid, a: seq<Term>, b: seq<Term>)
    ensures ObjValue(x, a + b) == ObjValue(x, a) + ObjValue(x, b)
  {
    if |b| == 0 {
      assert a + b == a;
    } else {
      var n := |b| - 1;
      assert (a + b)[..|a + b| - 1] == a + b[..n];
      assert (a + b)[|a + b| - 1] == b[n];
      ObjValueAppend(x, a, b[..n]);
    }
  }

  lemma AllSatisfiedAppend(x: Grid, a: seq<Constraint>, b: seq<Constraint>)
    ensures AllSatisfied(x, a + b) <==> AllSatisfied(x, a) && AllSatisfied(x, b)
  {
    if AllSatisfied(x, a + b) {
      forall t | 0 <= t < |a| ensures Satisfied(x, a[t]) {
        assert (a + b)[t] == a[t];
      }
      forall t | 0 <= t < |b| ensures Satisfied(x, b[t]) {
        assert (a + b)[|a| + t] == b[t];
      }
    }
  }

  lemma AllSatisfiedSnoc(x: Grid, a: seq<Constraint>, c: Constraint)
    ensures AllSatisfied(x, a + [c]) <==> AllSatisfied(x, a) && Satisfied(x, c)
  {
    AllSatisfiedAppend(x, a, [c]);
    assert [c][0] == c;
  }
}
