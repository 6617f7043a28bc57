/**
 * The concrete model the engine hands to the backend for a member list and a
 * list of group capacities, and the proof that its constraints and objective
 * mean the four rules and the total weight of Selection.
 */
module Formulation {
  import opened Roster
  import opened Selection
  import opened SolverModel

  /** The variables of entry i over the first m groups, in group order. */
  function RowVars(i: nat, m: nat): seq<Var>
  {
    if m == 0 then [] else RowVars(i, m - 1) + [Var(i, m - 1)]
  }

  /** The variables of participant p's entries among the first k, over m groups, entry by entry. */
  function PlayerVars(members: seq<Entry>, p: nat, m: nat, k: nat): seq<Var>
    requires k <= |members|
  {
    if k == 0 then []
    else PlayerVars(members, p, m, k - 1) + (if members[k - 1].player == p then RowVars(k - 1, m) else [])
  }

  /** The variables of group j for the first k entries. */
  function ColumnVars(j: nat, k: nat): seq<Var>
  {
    if k == 0 then [] else ColumnVars(j, k - 1) + [Var(k - 1, j)]
  }

  /** The variables of group j for the entries among the first k whose role is `role`. */
  function RoleVars(members: seq<Entry>, role: string, j: nat, k: nat): seq<Var>
    requires k <= |members|
  {
    if k == 0 then []
    else RoleVars(members, role, j, k - 1) + (if members[k - 1].role == role then [Var(k - 1, j)] else [])
  }

  /** One "at most once" constraint per entry (so once per entry of the same participant). */
  function PlayerConstraints(members: seq<Entry>, m: nat, k: nat): seq<Constraint>
    requires k <= |members|
  {
    if k == 0 then []
    else PlayerConstraints(members, m, k - 1)
         + [Constraint(PlayerVars(members, members[k - 1].player, m, |members|), AtMost, 1)]
  }

  /** One capacity constraint per group among the first m. */
  function CapacityConstraints(caps: seq<int>, n: nat, m: nat): seq<Constraint>
    requires m <= |caps|
  {
    if m == 0 then [] else CapacityConstraints(caps, n, m - 1) + [Constraint(ColumnVars(m - 1, n), AtMost, caps[m - 1])]
  }

  /** One "exactly one of this role" constraint per group among the first m. */
  function RoleConstraints(members: seq<Entry>, role: string, m: nat): seq<Constraint>
  {
    if m == 0 then [] else RoleConstraints(members, role, m - 1) + [Constraint(RoleVars(members, role, m - 1, |members|), Exactly, 1)]
  }

  /** All constraints, in the order they are added to the backend. */
  function ModelConstraints(members: seq<Entry>, caps: seq<int>): seq<Constraint>
  {
    PlayerConstraints(members, |caps|, |members|)
    + CapacityConstraints(caps, |members|, |caps|)
    + RoleConstraints(members, HEAL, |caps|)
    + RoleConstraints(members, TANK, |caps|)
  }

  /** The objective terms of entry i over the first m groups, all with coefficient w. */
  function RowTerms(w: int, i: nat, m: nat): seq<Term>
  {
    if m == 0 then [] else RowTerms(w, i, m - 1) + [Term(Var(i, m - 1), w)]
  }

  /** The objective terms of the first k entries over m groups: each cell weighted by its entry's weight. */
  function ObjectiveTerms(members: seq<Entry>, m: nat, k: nat): seq<Term>
    requires k <= |members|
  {
    if k == 0 then [] else ObjectiveTerms(members, m, k - 1) + RowTerms(members[k - 1].weight, k - 1, m)
  }

  /** `count` capacities, all equal to v. */
  function Full(count: nat, v: int): seq<int>
  {
    seq(count, _ => v)
  }

  /** The model solved for `count` groups of capacity `groupSize`. */
  function ModelFor(members: seq<Entry>, count: nat, groupSize: int): Model
  {
    var caps := Full(count, groupSize);
    Model(|members|, count, ModelConstraints(members, caps), ObjectiveTerms(members, count, |members|), true)
  }

  // ----- The variable lists stay inside the grid -----

  lemma {:induction false} RowVarsInRange(i: nat, m: nat)
    ensures forall v :: v in RowVars(i, m) ==> v.item == i && v.bin < m
  {
    if m > 0 {
      RowVarsInRange(i, m - 1);
    }
  }

  lemma {:induction false} PlayerVarsInRange(members: seq<Entry>, p: nat, m: nat, k: nat)
    requires k <= |members|
    ensures forall v :: v in PlayerVars(members, p, m, k) ==> v.item < k && v.bin < m
  {
    if k > 0 {
      PlayerVarsInRange(members, p, m, k - 1);
      RowVarsInRange(k - 1, m);
    }
  }

  lemma {:induction false} ColumnVarsInRange(j: nat, k: nat)
    ensures forall v :: v in ColumnVars(j, k) ==> v.item < k && v.bin == j
  {
    if k > 0 {
      ColumnVarsInRange(j, k - 1);
    }
  }

  lemma {:induction false} RoleVarsInRange(members: seq<Entry>, role: string, j: nat, k: nat)
    requires k <= |members|
    ensures forall v :: v in RoleVars(members, role, j, k) ==> v.item < k && v.bin == j
  {
    if k > 0 {
      RoleVarsInRange(members, role, j, k - 1);
    }
  }

  lemma {:induction false} PlayerConstraintsInRange(members: seq<Entry>, m: nat, k: nat)
    requires k <= |members|
    ensures VarsWithin(PlayerConstraints(members, m, k), |members|, m)
  {
    if k > 0 {
      PlayerConstraintsInRange(members, m, k - 1);
      PlayerVarsInRange(members, members[k - 1].player, m, |members|);
      VarsWithinAppend(PlayerConstraints(members, m, k - 1),
                       [Constraint(PlayerVars(members, members[k - 1].player, m, |members|), AtMost, 1)], |members|, m);
    }
  }

  lemma {:induction false} CapacityConstraintsInRange(caps: seq<int>, n: nat, m: nat)
    requires m <= |caps|
    ensures VarsWithin(CapacityConstraints(caps, n, m), n, |caps|)
  {
    if m > 0 {
      CapacityConstraintsInRange(caps, n, m - 1);
      ColumnVarsInRange(m - 1, n);
      VarsWithinAppend(CapacityConstraints(caps, n, m - 1), [Constraint(ColumnVars(m - 1, n), AtMost, caps[m - 1])], n, |caps|);
    }
  }

  lemma {:induction false} RoleConstraintsInRange(members: seq<Entry>, role: string, m: nat, count: nat)
    requires m <= count
    ensures VarsWithin(RoleConstraints(members, role, m), |members|, count)
  {
    if m > 0 {
      RoleConstraintsInRange(members, role, m - 1, count);
      RoleVarsInRange(members, role, m - 1, |members|);
      VarsWithinAppend(RoleConstraints(members, role, m - 1),
                       [Constraint(RoleVars(members, role, m - 1, |members|), Exactly, 1)], |members|, count);
    }
  }

  lemma {:induction false} ObjectiveTermsInRange(members: seq<Entry>, m: nat, k: nat)
    requires k <= |members|
    ensures TermsWithin(ObjectiveTerms(members, m, k), |members|, m)
  {
    if k > 0 {
      ObjectiveTermsInRange(members, m, k - 1);
      RowTermsInRange(members[k - 1].weight, k - 1, m, |members|);
      TermsWithinAppend(ObjectiveTerms(members, m, k - 1), RowTerms(members[k - 1].weight, k - 1, m), |members|, m);
    }
  }

  lemma {:induction false} RowTermsInRange(w: int, i: nat, m: nat, n: nat)
    requires i < n
    ensures TermsWithin(RowTerms(w, i, m), n, m)
  {
    if m > 0 {
      RowTermsInRange(w, i, m - 1, n);
      TermsWithinAppend(RowTerms(w, i, m - 1), [Term(Var(i, m - 1), w)], n, m);
    }
  }

  /** The model for `count` groups mentions only the cells of its entries x groups grid. */
  lemma ModelForWellScoped(members: seq<Entry>, count: nat, groupSize: int)
    ensures WellScoped(ModelFor(members, count, groupSize))
  {
    var caps := Full(count, groupSize);
    PlayerConstraintsInRange(members, count, |members|);
    CapacityConstraintsInRange(caps, |members|, count);
    RoleConstraintsInRange(members, HEAL, count, count);
    RoleConstraintsInRange(members, TANK, count, count);
    var a := PlayerConstraints(members, count, |members|);
    var b := CapacityConstraints(caps, |members|, count);
    var c := RoleConstraints(members, HEAL, count);
    var d := RoleConstraints(members, TANK, count);
    VarsWithinAppend(a, b, |members|, count);
    VarsWithinAppend(a + b, c, |members|, count);
    VarsWithinAppend(a + b + c, d, |members|, count);
    ObjectiveTermsInRange(members, count, |members|);
  }

  // ----- What the sums over these variable lists count -----

  lemma {:induction false} RowVarsSum(x: Grid, i: nat, m: nat)
    ensures SumVars(x, RowVars(i, m)) == RowPicks(x, i, m)
  {
    if m > 0 {
      RowVarsSum(x, i, m - 1);
      SumVarsAppend(x, RowVars(i, m - 1), [Var(i, m - 1)]);
      assert [Var(i, m - 1)][..0] == [];
    }
  }

  /** Summing the variables of get_x_for_single_player counts the participant's selected cells. */
  lemma {:induction false} PlayerVarsSum(members: seq<Entry>, x: Grid, p: nat, m: nat, k: nat)
    requires k <= |members|
    ensures SumVars(x, PlayerVars(members, p, m, k)) == PlayerPicks(members, x, p, m, k)
  {
    if k > 0 {
      var pre := PlayerVars(members, p, m, k - 1);
      var row := if members[k - 1].player == p then RowVars(k - 1, m) else [];
      assert PlayerVars(members, p, m, k) == pre + row;
      PlayerVarsSum(members, x, p, m, k - 1);
      SumVarsAppend(x, pre, row);
      RowVarsSum(x, k - 1, m);
      assert SumVars(x, row) == (if members[k - 1].player == p then RowPicks(x, k - 1, m) else 0);
    }
  }

  /** Summing a group's variables counts the entries selected in it. */
  lemma {:induction false} ColumnVarsSum(x: Grid, j: nat, k: nat)
    ensures SumVars(x, ColumnVars(j, k)) == GroupFill(x, j, k)
  {
    if k > 0 {
      ColumnVarsSum(x, j, k - 1);
      SumVarsAppend(x, ColumnVars(j, k - 1), [Var(k - 1, j)]);
      assert [Var(k - 1, j)][..0] == [];
    }
  }

  /** Summing the variables of get_x_for_single_role counts the group's selected entries of that role. */
  lemma {:induction false} RoleVarsSum(members: seq<Entry>, x: Grid, role: string, j: nat, k: nat)
    requires k <= |members|
    ensures SumVars(x, RoleVars(members, role, j, k)) == RoleFill(members, x, role, j, k)
  {
    if k > 0 {
      RoleVarsSum(members, x, role, j, k - 1);
      var tail := if members[k - 1].role == role then [Var(k - 1, j)] else [];
      SumVarsAppend(x, RoleVars(members, role, j, k - 1), tail);
      if members[k - 1].role == role {
        assert [Var(k - 1, j)][..0] == [];
      }
    }
  }

  lemma {:induction false} PlayerConstraintsMeaning(members: seq<Entry>, x: Grid, m: nat, k: nat)
    requires k <= |members|
    ensures AllSatisfied(x, PlayerConstraints(members, m, k)) <==>
              forall i :: 0 <= i < k ==> PlayerPicks(members, x, members[i].player, m, |members|) <= 1
  {
    if k > 0 {
      PlayerConstraintsMeaning(members, x, m, k - 1);
      var c := Constraint(PlayerVars(members, members[k - 1].player, m, |members|), AtMost, 1);
      AllSatisfiedSnoc(x, PlayerConstraints(members, m, k - 1), c);
      PlayerVarsSum(members, x, members[k - 1].player, m, |members|);
      if forall i :: 0 <= i < k - 1 ==> PlayerPicks(members, x, members[i].player, m, |members|) <= 1 {
        if PlayerPicks(members, x, members[k - 1].player, m, |members|) <= 1 {
          forall i | 0 <= i < k ensures PlayerPicks(members, x, members[i].player, m, |members|) <= 1 {
            if i < k - 1 { }
          }
        }
      }
    }
  }

  lemma {:induction false} CapacityConstraintsMeaning(caps: seq<int>, x: Grid, n: nat, m: nat)
    requires m <= |caps|
    ensures AllSatisfied(x, CapacityConstraints(caps, n, m)) <==>
              forall j :: 0 <= j < m ==> GroupFill(x, j, n) <= caps[j]
  {
    if m > 0 {
      CapacityConstraintsMeaning(caps, x, n, m - 1);
      var c := Constraint(ColumnVars(m - 1, n), AtMost, caps[m - 1]);
      AllSatisfiedSnoc(x, CapacityConstraints(caps, n, m - 1), c);
      ColumnVarsSum(x, m - 1, n);
      if forall j :: 0 <= j < m - 1 ==> GroupFill(x, j, n) <= caps[j] {
        if GroupFill(x, m - 1, n) <= caps[m - 1] {
          forall j | 0 <= j < m ensures GroupFill(x, j, n) <= caps[j] {
            if j < m - 1 { }
          }
        }
      }
    }
  }

  lemma {:induction false} RoleConstraintsMeaning(members: seq<Entry>, x: Grid, role: string, m: nat)
    ensures AllSatisfied(x, RoleConstraints(members, role, m)) <==>
              forall j :: 0 <= j < m ==> RoleFill(members, x, role, j, |members|) == 1
  {
    if m > 0 {
      RoleConstraintsMeaning(members, x, role, m - 1);
      var c := Constraint(RoleVars(members, role, m - 1, |members|), Exactly, 1);
      AllSatisfiedSnoc(x, RoleConstraints(members, role, m - 1), c);
      RoleVarsSum(members, x, role, m - 1, |members|);
      if forall j :: 0 <= j < m - 1 ==> RoleFill(members, x, role, j, |members|) == 1 {
        if RoleFill(members, x, role, m - 1, |members|) == 1 {
          forall j | 0 <= j < m ensures RoleFill(members, x, role, j, |members|) == 1 {
            if j < m - 1 { }
          }
        }
      }
    }
  }

  /** A grid-shaped assignment meets the model's constraints exactly when it is a feasible selection. */
  lemma ConstraintsMeaning(members: seq<Entry>, caps: seq<int>, x: Grid)
    requires Shaped(x, |members|, |caps|)
    ensures AllSatisfied(x, ModelConstraints(members, caps)) <==> Feasible(members, caps, x)
  {
    var a := PlayerConstraints(members, |caps|, |members|);
    var b := CapacityConstraints(caps, |members|, |caps|);
    var c := RoleConstraints(members, HEAL, |caps|);
    var d := RoleConstraints(members, TANK, |caps|);
    assert ModelConstraints(members, caps) == a + b + c + d;
    AllSatisfiedAppend(x, a + b + c, d);
    AllSatisfiedAppend(x, a + b, c);
    AllSatisfiedAppend(x, a, b);
    assert AllSatisfied(x, ModelConstraints(members, caps))
       <==> AllSatisfied(x, a) && AllSatisfied(x, b) && AllSatisfied(x, c) && AllSatisfied(x, d);
    PlayerConstraintsMeaning(members, x, |caps|, |members|);
    CapacityConstraintsMeaning(caps, x, |members|, |caps|);
    RoleConstraintsMeaning(members, x, HEAL, |caps|);
    RoleConstraintsMeaning(members, x, TANK, |caps|);
    assert AllSatisfied(x, a) <==> (forall i :: 0 <= i < |members| ==> PlayerPicks(members, x, members[i].player, |caps|, |members|) <= 1);
    assert AllSatisfied(x, b) <==> (forall j :: 0 <= j < |caps| ==> GroupFill(x, j, |members|) <= caps[j]);
    assert AllSatisfied(x, c) <==> (forall j :: 0 <= j < |caps| ==> RoleFill(members, x, HEAL, j, |members|) == 1);
    assert AllSatisfied(x, d) <==> (forall j :: 0 <= j < |caps| ==> RoleFill(members, x, TANK, j, |members|) == 1);
  }

  lemma {:induction false} RowTermsValue(x: Grid, w: int, i: nat, m: nat)
    ensures ObjValue(x, RowTerms(w, i, m)) == RowWeight(w, x, i, m)
  {
    if m > 0 {
      RowTermsValue(x, w, i, m - 1);
      ObjValueAppend(x, RowTerms(w, i, m - 1), [Term(Var(i, m - 1), w)]);
      assert [Term(Var(i, m - 1), w)][..0] == [];
    }
  }

  /** The objective handed to the backend is the total weight of the selected cells. */
  lemma {:induction false} ObjectiveTermsValue(members: seq<Entry>, x: Grid, m: nat, k: nat)
    requires k <= |members|
    ensures ObjValue(x, ObjectiveTerms(members, m, k)) == Objective(members, x, m, k)
  {
    if k > 0 {
      ObjectiveTermsValue(members, x, m, k - 1);
      ObjValueAppend(x, ObjectiveTerms(members, m, k - 1), RowTerms(members[k - 1].weight, k - 1, m));
      RowTermsValue(x, members[k - 1].weight, k - 1, m);
    }
  }

  /**
   * When a sound backend reports OPTIMAL for `count` groups, its selection is
   * feasible and no feasible selection has a larger total weight.
   */
  lemma OptimumIsBestFeasible(solve: Model -> Status, members: seq<Entry>, count: nat, groupSize: int)
    requires SolverSound(solve) && solve(ModelFor(members, count, groupSize)).Optimal?
    ensures Feasible(members, Full(count, groupSize), solve(ModelFor(members, count, groupSize)).selection)
    ensures forall x :: Feasible(members, Full(count, groupSize), x) ==>
              Objective(members, x, count, |members|)
              <= Objective(members, solve(ModelFor(members, count, groupSize)).selection, count, |members|)
  {
    var model := ModelFor(members, count, groupSize);
    var caps := Full(count, groupSize);
    var y := solve(model).selection;
    assert IsOptimum(model, y);
    ConstraintsMeaning(members, caps, y);
    ObjectiveTermsValue(members, y, count, |members|);
    forall x | Feasible(members, caps, x)
      ensures Objective(members, x, count, |members|) <= Objective(members, y, count, |members|)
    {
      ConstraintsMeaning(members, caps, x);
      ObjectiveTermsValue(members, x, count, |members|);
      assert Admissible(model, x);
    }
  }

  /** A grid with one empty row per entry. */
  function EmptyRows(n: nat): Grid
  {
    seq(n, _ => [])
  }

  /**
   * With zero groups the model still has a solution: the grid of empty rows
   * meets every constraint and is an optimum, so a backend may well report
   * OPTIMAL for it.
   */
  lemma ZeroGroupsSolvable(members: seq<Entry>, groupSize: int)
    ensures IsOptimum(ModelFor(members, 0, groupSize), EmptyRows(|members|))
  {
    var model := ModelFor(members, 0, groupSize);
    var y := EmptyRows(|members|);
    var caps := Full(0, groupSize);
    forall i | 0 <= i < |members|
      ensures PlayerPicks(members, y, members[i].player, 0, |members|) <= 1
    {
      PlayerPicksZero(members, y, members[i].player, 0, |members|);
    }
    ConstraintsMeaning(members, caps, y);
    forall x | Admissible(model, x)
      ensures ObjValue(x, model.objective) <= ObjValue(y, model.objective)
    {
      ObjectiveTermsValue(members, x, 0, |members|);
      ObjectiveTermsValue(members, y, 0, |members|);
      ObjectiveNoGroups(members, x, |members|);
      ObjectiveNoGroups(members, y, |members|);
    }
  }

  lemma {:induction false} ObjectiveNoGroups(members: seq<Entry>, x: Grid, k: nat)
    requires k <= |members|
    ensures Objective(members, x, 0, k) == 0
  {
    if k > 0 {
      ObjectiveNoGroups(members, x, k - 1);
    }
  }
}
