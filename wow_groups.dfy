/**
 * The group-building engine: the data model handed to the integer-programming
 * backend, the construction of its variables, constraints and objective, the
 * rendering of a solution, and the retry loop that lowers the number of groups
 * until the backend reports an optimum.
 */
module WowGroups {
  import opened Roster
  import opened Selection
  import opened SolverModel
  import opened Formulation

  /** The two shapes of the engine's answer: a list of group records, or the empty mapping. */
  datatype Solution = GroupList(groups: seq<Group>) | EmptyMapping

  function Max(a: int, b: int): int { if a >= b then a else b }

  /** 0, 1, ..., n - 1. */
  function Range(n: nat): seq<nat>
  {
    seq(n, i => i)
  }

  /**
   * The engine's working state: the member list, its columns, the item
   * indices and the capacities and indices of the groups currently asked for.
   */
  class DataModel {
    var ids: seq<string>
    var names: seq<string>
    var roles: seq<string>
    var values: seq<int>
    var players: seq<nat>
    var items: seq<nat>
    var numItems: nat
    var binCapacities: seq<int>
    var members: seq<Entry>
    var bins: seq<nat>

    /** The columns are those of the member list, and items and bins index the entries and the groups. */
    predicate Valid()
      reads this
    {
      && |ids| == |members| && |names| == |members| && |roles| == |members|
      && |values| == |members| && |players| == |members|
      && (forall k :: 0 <= k < |members| ==>
            && ids[k] == members[k].id && names[k] == members[k].name && roles[k] == members[k].role
            && values[k] == members[k].weight && players[k] == members[k].player)
      && items == Range(|members|) && numItems == |members|
      && bins == Range(|binCapacities|)
    }

    constructor (ms: seq<Entry>, count: nat, groupSize: int)
      ensures Valid()
      ensures members == ms && binCapacities == Full(count, groupSize)
    {
      ids := seq(|ms|, k requires 0 <= k < |ms| => ms[k].id);
      names := seq(|ms|, k requires 0 <= k < |ms| => ms[k].name);
      roles := seq(|ms|, k requires 0 <= k < |ms| => ms[k].role);
      values := seq(|ms|, k requires 0 <= k < |ms| => ms[k].weight);
      players := seq(|ms|, k requires 0 <= k < |ms| => ms[k].player);
      items := Range(|ms|);
      numItems := |ms|;
      binCapacities := Full(count, groupSize);
      members := ms;
      bins := Range(count);
    }

    /**
     * Asks for one group fewer, but never fewer than one: every capacity
     * becomes groupSize and the group indices follow. The entries are kept.
     */
    method ReduceBinCapacity(groupSize: int)
      modifies this
      ensures binCapacities == Full(if |old(binCapacities)| - 1 < 1 then 1 else |old(binCapacities)| - 1, groupSize)
      ensures bins == Range(|binCapacities|)
      ensures ids == old(ids) && names == old(names) && roles == old(roles) && values == old(values)
      ensures players == old(players) && items == old(items) && numItems == old(numItems)
      ensures members == old(members)
      ensures old(Valid()) ==> Valid()
    {
      var count := |binCapacities| - 1;
      if count < 1 {
        count := 1;
      }
      binCapacities := Full(count, groupSize);
      bins := Range(|binCapacities|);
    }

    /** The number of groups currently asked for. */
    function BinCount(): (n: nat)
      reads this
      ensures Valid() ==> n == |bins|
    {
      |binCapacities|
    }
  }

  /**
   * Expands and shuffles the participants, estimates the number of groups and
   * sets up the data model with that many groups of capacity groupSize.
   */
  method CreateDataModel(players: seq<Player>, groupSize: int, choices: seq<nat>) returns (data: DataModel)
    requires groupSize >= 3
    ensures fresh(data) && data.Valid()
    ensures multiset(data.members) == multiset(Expansion(players))
    ensures data.binCapacities == Full(Estimate(|players|, Expansion(players), groupSize), groupSize)
  {
    var members := BuildMembers(players, choices);
    var heal := HowManyMembersForRole(members, HEAL);
    var tank := HowManyMembersForRole(members, TANK);
    var dps := HowManyMembersForRole(members, DPS);
    var count := Min(Min(Min(|players| / groupSize, heal), tank), dps / (groupSize - 2));
    EstimateIgnoresOrder(|players|, members, Expansion(players), groupSize);
    data := new DataModel(members, count, groupSize);
  }

  /** One variable per (entry, group) cell, entry by entry. */
  method GetXPerItem(data: DataModel) returns (vars: seq<Var>)
    requires data.Valid()
    ensures |vars| == data.numItems * |data.bins|
    ensures forall v :: v in vars <==> v.item < data.numItems && v.bin < |data.bins|
  {
    var m := |data.bins|;
    vars := [];
    for i := 0 to |data.items|
      invariant |vars| == i * m
      invariant forall v :: v in vars <==> v.item < i && v.bin < m
    {
      for j := 0 to m
        invariant |vars| == i * m + j
        invariant forall v :: v in vars <==> (v.item < i && v.bin < m) || (v.item == i && v.bin < j)
      {
        vars := vars + [Var(data.items[i], data.bins[j])];
      }
    }
  }

  /** The variables of every entry of participant `player`, over all groups. */
  method GetXForSinglePlayer(player: nat, data: DataModel) returns (p: seq<Var>)
    requires data.Valid()
    ensures p == PlayerVars(data.members, player, |data.bins|, |data.members|)
    ensures forall x :: SumVars(x, p) == PlayerPicks(data.members, x, player, |data.bins|, |data.members|)
  {
    var m := |data.bins|;
    p := [];
    for i := 0 to |data.items|
      invariant p == PlayerVars(data.members, player, m, i)
    {
      if data.players[i] == player {
        var row := [];
        for j := 0 to m
          invariant row == RowVars(i, j)
        {
          row := row + [Var(data.items[i], data.bins[j])];
        }
        p := p + row;
      } else {
        assert PlayerVars(data.members, player, m, i + 1) == p + [];
      }
    }
    forall x ensures SumVars(x, p) == PlayerPicks(data.members, x, player, m, |data.members|) {
      PlayerVarsSum(data.members, x, player, m, |data.members|);
    }
  }

  /** The variables of group currentBin for the entries whose role is `role`. */
  method GetXForSingleRole(role: string, currentBin: nat, data: DataModel) returns (r: seq<Var>)
    requires data.Valid()
    ensures r == RoleVars(data.members, role, currentBin, |data.members|)
    ensures forall x :: SumVars(x, r) == RoleFill(data.members, x, role, currentBin, |data.members|)
  {
    r := [];
    for i := 0 to |data.items|
      invariant r == RoleVars(data.members, role, currentBin, i)
    {
      if data.roles[i] == role {
        r := r + [Var(data.items[i], currentBin)];
      } else {
        assert RoleVars(data.members, role, currentBin, i + 1) == r + [];
      }
    }
    forall x ensures SumVars(x, r) == RoleFill(data.members, x, role, currentBin, |data.members|) {
      RoleVarsSum(data.members, x, role, currentBin, |data.members|);
    }
  }

  /**
   * The constraints, in the order they are added: each entry's participant at
   * most once, each group within its capacity, then exactly one heal and
   * exactly one tank per group. On grid-shaped assignments they hold exactly
   * for the feasible selections.
   */
  method SetConstraints(data: DataModel) returns (cs: seq<Constraint>)
    requires data.Valid()
    ensures cs == ModelConstraints(data.members, data.binCapacities)
    ensures forall x :: Shaped(x, |data.members|, |data.binCapacities|) ==>
              (AllSatisfied(x, cs) <==> Feasible(data.members, data.binCapacities, x))
  {
    var n := |data.members|;
    var m := |data.bins|;
    cs := [];
    for i := 0 to |data.items|
      invariant cs == PlayerConstraints(data.members, m, i)
    {
      var p := GetXForSinglePlayer(data.players[i], data);
      cs := cs + [Constraint(p, AtMost, 1)];
    }
    var a := cs;
    cs := [];
    for j := 0 to m
      invariant cs == CapacityConstraints(data.binCapacities, n, j)
    {
      cs := cs + [Constraint(ColumnVars(data.bins[j], data.numItems), AtMost, data.binCapacities[j])];
    }
    var b := cs;
    cs := [];
    for j := 0 to m
      invariant cs == RoleConstraints(data.members, HEAL, j)
    {
      var r := GetXForSingleRole(HEAL, data.bins[j], data);
      cs := cs + [Constraint(r, Exactly, 1)];
    }
    var c := cs;
    cs := [];
    for j := 0 to m
      invariant cs == RoleConstraints(data.members, TANK, j)
    {
      var r := GetXForSingleRole(TANK, data.bins[j], data);
      cs := cs + [Constraint(r, Exactly, 1)];
    }
    cs := a + b + c + cs;
    forall x | Shaped(x, n, m)
      ensures AllSatisfied(x, cs) <==> Feasible(data.members, data.binCapacities, x)
    {
      ConstraintsMeaning(data.members, data.binCapacities, x);
    }
  }

  /** Every cell weighted by its entry's weight; the objective value is the total weight of the selection. */
  method SetObjectives(data: DataModel) returns (terms: seq<Term>)
    requires data.Valid()
    ensures terms == ObjectiveTerms(data.members, |data.bins|, |data.members|)
    ensures forall x :: ObjValue(x, terms) == Objective(data.members, x, |data.bins|, |data.members|)
  {
    var m := |data.bins|;
    terms := [];
    for i := 0 to |data.items|
      invariant terms == ObjectiveTerms(data.members, m, i)
    {
      var row := [];
      for j := 0 to m
        invariant row == RowTerms(data.values[i], i, j)
      {
        row := row + [Term(Var(data.items[i], data.bins[j]), data.values[i])];
      }
      terms := terms + row;
    }
    forall x ensures ObjValue(x, terms) == Objective(data.members, x, m, |data.members|) {
      ObjectiveTermsValue(data.members, x, m, |data.members|);
    }
  }

  /** Reads the group records off a selection: one per group, its selected entries in entry order. */
  method GetDictFromSolution(data: DataModel, x: Grid) returns (result: seq<Group>)
    requires data.Valid()
    ensures RendersSolution(result, data.members, |data.bins|, x)
  {
    var m := |data.bins|;
    result := [];
    for j := 0 to m
      invariant RendersSolution(result, data.members, j, x)
    {
      var groupCommitment := 0;
      var ms := [];
      for i := 0 to |data.items|
        invariant ms == SelectedMembers(data.members, x, j, i)
        invariant groupCommitment == TotalCommitment(ms)
      {
        if Sel(x, data.items[i], data.bins[j]) {
          var member := Member(data.names[i], data.roles[i], data.values[i]);
          groupCommitment := groupCommitment + member.commitment;
          assert (ms + [member])[..|ms|] == ms;
          ms := ms + [member];
        } else {
          assert SelectedMembers(data.members, x, j, i + 1) == ms + [];
        }
      }
      result := result + [Group(data.bins[j] + 1, ms, groupCommitment)];
    }
  }

  /**
   * The variables, constraints and maximised objective of one attempt with
   * `count` groups. The constraints and the objective mention only variables
   * that were created for the attempt.
   */
  method Formulate(data: DataModel, ghost count: nat, groupSize: int) returns (model: Model, vars: seq<Var>)
    requires data.Valid() && data.binCapacities == Full(count, groupSize)
    ensures model == ModelFor(data.members, count, groupSize)
    ensures forall v :: v in vars <==> v.item < model.numItems && v.bin < model.numBins
    ensures forall t, v :: 0 <= t < |model.constraints| && v in model.constraints[t].vars ==> v in vars
    ensures forall t :: 0 <= t < |model.objective| ==> model.objective[t].v in vars
  {
    vars := GetXPerItem(data);
    var cs := SetConstraints(data);
    var terms := SetObjectives(data);
    model := Model(data.numItems, |data.bins|, cs, terms, true);
    ModelForWellScoped(data.members, count, groupSize);
  }

  /**
   * Builds the data model and asks the backend for the estimated number of
   * groups, then for one fewer each time it does not report an optimum. The
   * answer is the rendering of the first optimum found, or the empty mapping
   * once one group (or the zero groups of a zero estimate) has been refused.
   */
  method GetGroups(players: seq<Player>, groupSize: int, choices: seq<nat>, solve: Model -> Status)
    returns (r: Solution, ghost members: seq<Entry>, ghost count: nat, ghost calls: nat)
    requires groupSize >= 3
    ensures calls == Estimate(|players|, Expansion(players), groupSize) - count + 1
    ensures calls <= Max(Estimate(|players|, Expansion(players), groupSize), 1)
    ensures multiset(members) == multiset(Expansion(players))
    ensures count <= Estimate(|players|, Expansion(players), groupSize)
    ensures Estimate(|players|, Expansion(players), groupSize) > 0 ==> count >= 1
    ensures forall k :: count < k <= Estimate(|players|, Expansion(players), groupSize) ==>
              !solve(ModelFor(members, k, groupSize)).Optimal?
    ensures r.GroupList? ==>
              && solve(ModelFor(members, count, groupSize)).Optimal?
              && RendersSolution(r.groups, members, count, solve(ModelFor(members, count, groupSize)).selection)
    ensures r.EmptyMapping? ==> count <= 1 && !solve(ModelFor(members, count, groupSize)).Optimal?
    ensures r.GroupList? ==> |r.groups| <= Estimate(|players|, Expansion(players), groupSize)
    ensures r.GroupList? ==> forall j :: 0 <= j < |r.groups| ==>
              r.groups[j].id == j + 1 && r.groups[j].commitment == TotalCommitment(r.groups[j].members)
  {
    var data := CreateDataModel(players, groupSize, choices);
    members := data.members;
    ghost var n0 := Estimate(|players|, Expansion(players), groupSize);
    count := n0;
    calls := 0;
    while true
      invariant fresh(data) && data.Valid()
      invariant data.members == members
      invariant data.binCapacities == Full(count, groupSize)
      invariant count <= n0 && (n0 > 0 ==> count >= 1)
      invariant calls == n0 - count
      invariant forall k :: count < k <= n0 ==> !solve(ModelFor(members, k, groupSize)).Optimal?
      decreases |data.binCapacities|
    {
      var model, vars := Formulate(data, count, groupSize);
      var status := solve(model);
      calls := calls + 1;
      ghost var answers := solve(ModelFor(members, count, groupSize));
      assert status == answers;
      if status.Optimal? {
        var groups := GetDictFromSolution(data, status.selection);
        return GroupList(groups), members, count, calls;
      } else if data.BinCount() <= 1 {
        return EmptyMapping, members, count, calls;
      } else {
        data.ReduceBinCapacity(groupSize);
        ghost var refused := count;
        count := count - 1;
        forall k | count < k <= n0
          ensures !solve(ModelFor(members, k, groupSize)).Optimal?
        {
          if k == refused {
            assert !answers.Optimal?;
          }
        }
      }
    }
  }

  /**
   * With a sound backend, a list answer is the rendering of an optimum: every
   * group has at most groupSize members, exactly one heal and one tank member,
   * and no feasible selection of `count` groups has a larger total weight than
   * the records' weights add up to.
   */
  lemma GroupListIsOptimal(solve: Model -> Status, members: seq<Entry>, count: nat, groupSize: int, groups: seq<Group>)
    requires SolverSound(solve) && solve(ModelFor(members, count, groupSize)).Optimal?
    requires RendersSolution(groups, members, count, solve(ModelFor(members, count, groupSize)).selection)
    ensures |groups| == count
    ensures forall j :: 0 <= j < |groups| ==> |groups[j].members| <= groupSize
    ensures forall j :: 0 <= j < |groups| ==> CountMembersWithRole(groups[j].members, HEAL) == 1
    ensures forall j :: 0 <= j < |groups| ==> CountMembersWithRole(groups[j].members, TANK) == 1
    ensures forall x :: Feasible(members, Full(count, groupSize), x) ==>
              Objective(members, x, count, |members|) <= SumCommitments(groups)
  {
    var caps := Full(count, groupSize);
    var y := solve(ModelFor(members, count, groupSize)).selection;
    OptimumIsBestFeasible(solve, members, count, groupSize);
    FeasibleRendering(members, caps, y, groups);
  }
}
