/**
 * The meaning of a 0/1 selection of entries into groups: the four rules of
 * the assignment model, the weight it maximises, and the group records that
 * are read off a selection.
 */
module Selection {
  import opened Roster

  /** x[i][j]: entry i is placed in group j. A cell outside the grid reads as not selected. */
  type Grid = seq<seq<bool>>

  predicate Sel(x: Grid, i: int, j: int) {
    0 <= i < |x| && 0 <= j < |x[i]| && x[i][j]
  }

  /** One row per entry, one column per group. */
  predicate Shaped(x: Grid, n: nat, m: nat) {
    |x| == n && forall i :: 0 <= i < n ==> |x[i]| == m
  }

  /** The number of groups among the first m in which entry i is selected. */
  function RowPicks(x: Grid, i: int, m: nat): nat
  {
    if m == 0 then 0 else RowPicks(x, i, m - 1) + (if Sel(x, i, m - 1) then 1 else 0)
  }

  /** The number of selected (entry, group) cells of participant p among the first k entries. */
  function PlayerPicks(members: seq<Entry>, x: Grid, p: nat, m: nat, k: nat): nat
    requires k <= |members|
  {
    if k == 0 then 0
    else PlayerPicks(members, x, p, m, k - 1) + (if members[k - 1].player == p then RowPicks(x, k - 1, m) else 0)
  }

  /** The number of the first k entries selected in group j. */
  function GroupFill(x: Grid, j: int, k: nat): nat
  {
    if k == 0 then 0 else GroupFill(x, j, k - 1) + (if Sel(x, k - 1, j) then 1 else 0)
  }

  /** The number of the first k entries with role `role` selected in group j. */
  function RoleFill(members: seq<Entry>, x: Grid, role: string, j: int, k: nat): nat
    requires k <= |members|
  {
    if k == 0 then 0
    else RoleFill(members, x, role, j, k - 1) + (if members[k - 1].role == role && Sel(x, k - 1, j) then 1 else 0)
  }

  /** Weight w counted once per group among the first m in which entry i is selected. */
  function RowWeight(w: int, x: Grid, i: int, m: nat): int
  {
    if m == 0 then 0 else RowWeight(w, x, i, m - 1) + (if Sel(x, i, m - 1) then w else 0)
  }

  /** The total weight of the selected cells of the first k entries over m groups. */
  function Objective(members: seq<Entry>, x: Grid, m: nat, k: nat): int
    requires k <= |members|
  {
    if k == 0 then 0 else Objective(members, x, m, k - 1) + RowWeight(members[k - 1].weight, x, k - 1, m)
  }

  /**
   * A selection obeys the model: each participant is picked at most once over
   * all groups, no group holds more than its capacity, and every group holds
   * exactly one heal entry and exactly one tank entry.
   */
  predicate Feasible(members: seq<Entry>, caps: seq<int>, x: Grid)
  {
    && Shaped(x, |members|, |caps|)
    && (forall i :: 0 <= i < |members| ==> PlayerPicks(members, x, members[i].player, |caps|, |members|) <= 1)
    && (forall j :: 0 <= j < |caps| ==> GroupFill(x, j, |members|) <= caps[j])
    && (forall j :: 0 <= j < |caps| ==> RoleFill(members, x, HEAL, j, |members|) == 1)
    && (forall j :: 0 <= j < |caps| ==> RoleFill(members, x, TANK, j, |members|) == 1)
  }

  /** No two distinct selected cells among the first k entries and m groups belong to participant p. */
  predicate AtMostOneCell(members: seq<Entry>, x: Grid, p: nat, m: nat, k: nat)
    requires k <= |members|
  {
    forall i1, j1, i2, j2 ::
      0 <= i1 < k && 0 <= i2 < k && 0 <= j1 < m && 0 <= j2 < m &&
      members[i1].player == p && members[i2].player == p && Sel(x, i1, j1) && Sel(x, i2, j2)
      ==> i1 == i2 && j1 == j2
  }

  lemma {:induction false} RowPicksZero(x: Grid, i: int, m: nat)
    ensures RowPicks(x, i, m) == 0 <==> forall j :: 0 <= j < m ==> !Sel(x, i, j)
  {
    if m > 0 {
      RowPicksZero(x, i, m - 1);
    }
  }

  lemma {:induction false} RowPicksAtMostOne(x: Grid, i: int, m: nat)
    ensures RowPicks(x, i, m) <= 1 <==>
              forall j1, j2 :: 0 <= j1 < m && 0 <= j2 < m && Sel(x, i, j1) && Sel(x, i, j2) ==> j1 == j2
  {
    if m > 0 {
      RowPicksAtMostOne(x, i, m - 1);
      RowPicksZero(x, i, m - 1);
    }
  }

  lemma {:induction false} PlayerPicksZero(members: seq<Entry>, x: Grid, p: nat, m: nat, k: nat)
    requires k <= |members|
    ensures PlayerPicks(members, x, p, m, k) == 0 <==>
              forall i, j :: 0 <= i < k && 0 <= j < m && members[i].player == p ==> !Sel(x, i, j)
  {
    if k > 0 {
      PlayerPicksZero(members, x, p, m, k - 1);
      RowPicksZero(x, k - 1, m);
    }
  }

  /**
   * The linear "at most one" rule on a participant's cells says exactly that
   * no two distinct selected cells belong to that participant.
   */
  lemma {:induction false} PlayerPicksAtMostOne(members: seq<Entry>, x: Grid, p: nat, m: nat, k: nat)
    requires k <= |members|
    ensures PlayerPicks(members, x, p, m, k) <= 1 <==> AtMostOneCell(members, x, p, m, k)
  {
    if k > 0 {
      var r := k - 1;
      PlayerPicksAtMostOne(members, x, p, m, r);
      PlayerPicksZero(members, x, p, m, r);
      RowPicksAtMostOne(x, r, m);
      RowPicksZero(x, r, m);
      if PlayerPicks(members, x, p, m, k) <= 1 {
        forall i1, j1, i2, j2 |
          0 <= i1 < k && 0 <= i2 < k && 0 <= j1 < m && 0 <= j2 < m &&
          members[i1].player == p && members[i2].player == p && Sel(x, i1, j1) && Sel(x, i2, j2)
          ensures i1 == i2 && j1 == j2
        {
          if i1 < r && i2 < r {
            assert AtMostOneCell(members, x, p, m, r);
          }
        }
      }
      if AtMostOneCell(members, x, p, m, k) {
        assert AtMostOneCell(members, x, p, m, r);
      }
    }
  }

  /** In a feasible selection no participant has two distinct selected cells. */
  lemma FeasibleNoDoublePick(members: seq<Entry>, caps: seq<int>, x: Grid,
                             i1: nat, j1: nat, i2: nat, j2: nat)
    requires Feasible(members, caps, x)
    requires Sel(x, i1, j1) && Sel(x, i2, j2) && members[i1].player == members[i2].player
    ensures i1 == i2 && j1 == j2
  {
    var p := members[i1].player;
    assert PlayerPicks(members, x, p, |caps|, |members|) <= 1;
    PlayerPicksAtMostOne(members, x, p, |caps|, |members|);
  }

  // ----- Group records read off a selection -----

  datatype Member = Member(name: string, role: string, commitment: int)

  datatype Group = Group(id: int, members: seq<Member>, commitment: int)

  /** The records of the first k entries selected in group j, in entry order. */
  function SelectedMembers(members: seq<Entry>, x: Grid, j: int, k: nat): seq<Member>
    requires k <= |members|
  {
    if k == 0 then []
    else
      SelectedMembers(members, x, j, k - 1)
      + (if Sel(x, k - 1, j) then [Member(members[k - 1].name, members[k - 1].role, members[k - 1].weight)] else [])
  }

  function TotalCommitment(ms: seq<Member>): int
  {
    if |ms| == 0 then 0 else TotalCommitment(ms[..|ms| - 1]) + ms[|ms| - 1].commitment
  }

  function CountMembersWithRole(ms: seq<Member>, role: string): nat
  {
    if |ms| == 0 then 0
    else CountMembersWithRole(ms[..|ms| - 1], role) + (if ms[|ms| - 1].role == role then 1 else 0)
  }

  function SumCommitments(groups: seq<Group>): int
  {
    if |groups| == 0 then 0 else SumCommitments(groups[..|groups| - 1]) + groups[|groups| - 1].commitment
  }

  /**
   * `groups` is the rendering of selection x over m groups: one record per
   * group in group order with id j + 1, the selected entries of that group in
   * entry order, and the sum of their weights.
   */
  predicate RendersSolution(groups: seq<Group>, members: seq<Entry>, m: nat, x: Grid)
  {
    && |groups| == m
    && forall j :: 0 <= j < m ==>
         && groups[j].id == j + 1
         && groups[j].members == SelectedMembers(members, x, j, |members|)
         && groups[j].commitment == TotalCommitment(groups[j].members)
  }

  /** A group record lists as many members as the group has selected cells, role by role. */
  lemma {:induction false} SelectedMembersCounts(members: seq<Entry>, x: Grid, j: int, k: nat, role: string)
    requires k <= |members|
    ensures |SelectedMembers(members, x, j, k)| == GroupFill(x, j, k)
    ensures CountMembersWithRole(SelectedMembers(members, x, j, k), role) == RoleFill(members, x, role, j, k)
  {
    if k > 0 {
      SelectedMembersCounts(members, x, j, k - 1, role);
      var front := SelectedMembers(members, x, j, k - 1);
      if Sel(x, k - 1, j) {
        var s := front + [Member(members[k - 1].name, members[k - 1].role, members[k - 1].weight)];
        assert s[..|s| - 1] == front;
      } else {
        assert SelectedMembers(members, x, j, k) == front;
      }
    }
  }

  /** The weight of the first k entries selected in group j. */
  function ColumnWeight(members: seq<Entry>, x: Grid, j: int, k: nat): int
    requires k <= |members|
  {
    if k == 0 then 0 else ColumnWeight(members, x, j, k - 1) + (if Sel(x, k - 1, j) then members[k - 1].weight else 0)
  }

  /** The summed weights of the first m groups, for the first k entries. */
  function GroupsWeight(members: seq<Entry>, x: Grid, m: nat, k: nat): int
    requires k <= |members|
  {
    if m == 0 then 0 else GroupsWeight(members, x, m - 1, k) + ColumnWeight(members, x, m - 1, k)
  }

  /** A group record's weight is the weight of its selected cells. */
  lemma {:induction false} SelectedMembersWeight(members: seq<Entry>, x: Grid, j: int, k: nat)
    requires k <= |members|
    ensures TotalCommitment(SelectedMembers(members, x, j, k)) == ColumnWeight(members, x, j, k)
  {
    if k > 0 {
      SelectedMembersWeight(members, x, j, k - 1);
      var front := SelectedMembers(members, x, j, k - 1);
      if Sel(x, k - 1, j) {
        var s := front + [Member(members[k - 1].name, members[k - 1].role, members[k - 1].weight)];
        assert s[..|s| - 1] == front;
      } else {
        assert SelectedMembers(members, x, j, k) == front;
      }
    }
  }

  lemma {:induction false} GroupsWeightStep(members: seq<Entry>, x: Grid, m: nat, k: nat)
    requires 0 < k <= |members|
    ensures GroupsWeight(members, x, m, k) == GroupsWeight(members, x, m, k - 1) + RowWeight(members[k - 1].weight, x, k - 1, m)
  {
    if m > 0 {
      GroupsWeightStep(members, x, m - 1, k);
    }
  }

  lemma {:induction false} GroupsWeightEmpty(members: seq<Entry>, x: Grid, m: nat)
    ensures GroupsWeight(members, x, m, 0) == 0
  {
    if m > 0 {
      GroupsWeightEmpty(members, x, m - 1);
    }
  }

  /** Summing the weights group by group gives the objective, which sums them entry by entry. */
  lemma {:induction false} GroupsWeightIsObjective(members: seq<Entry>, x: Grid, m: nat, k: nat)
    requires k <= |members|
    ensures GroupsWeight(members, x, m, k) == Objective(members, x, m, k)
  {
    if k == 0 {
      GroupsWeightEmpty(members, x, m);
    } else {
      GroupsWeightIsObjective(members, x, m, k - 1);
      GroupsWeightStep(members, x, m, k);
    }
  }

  lemma {:induction false} SumCommitmentsOfRendering(groups: seq<Group>, members: seq<Entry>, m: nat, x: Grid)
    requires RendersSolution(groups, members, m, x)
    ensures SumCommitments(groups) == GroupsWeight(members, x, m, |members|)
  {
    if m > 0 {
      var front := groups[..m - 1];
      assert RendersSolution(front, members, m - 1, x);
      SumCommitmentsOfRendering(front, members, m - 1, x);
      SelectedMembersWeight(members, x, m - 1, |members|);
    }
  }

  /**
   * The group records of a feasible selection: each holds at most its
   * capacity of members, exactly one heal and exactly one tank member, and
   * the weights of all records add up to the objective value of the selection.
   */
  lemma FeasibleRendering(members: seq<Entry>, caps: seq<int>, x: Grid, groups: seq<Group>)
    requires Feasible(members, caps, x) && RendersSolution(groups, members, |caps|, x)
    ensures forall j :: 0 <= j < |groups| ==> |groups[j].members| <= caps[j]
    ensures forall j :: 0 <= j < |groups| ==> CountMembersWithRole(groups[j].members, HEAL) == 1
    ensures forall j :: 0 <= j < |groups| ==> CountMembersWithRole(groups[j].members, TANK) == 1
    ensures SumCommitments(groups) == Objective(members, x, |caps|, |members|)
  {
    forall j | 0 <= j < |groups|
      ensures |groups[j].members| <= caps[j]
      ensures CountMembersWithRole(groups[j].members, HEAL) == 1
      ensures CountMembersWithRole(groups[j].members, TANK) == 1
    {
      SelectedMembersCounts(members, x, j, |members|, HEAL);
      SelectedMembersCounts(members, x, j, |members|, TANK);
    }
    SumCommitmentsOfRendering(groups, members, |caps|, x);
    GroupsWeightIsObjective(members, x, |caps|, |members|);
  }
}
