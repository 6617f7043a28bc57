/**
 * Participants, their role wishes, and the flat list of (player, role)
 * entries that the group assignment engine works on.
 */
module Roster {

  const DPS: string := "dps"
  const HEAL: string := "heal"
  const TANK: string := "tank"

  /** The order in which the roles of one participant are examined. */
  const RoleOrder: seq<string> := [HEAL, TANK, DPS]

  /** A participant: a name and a role -> weight wish map. */
  datatype Player = Player(name: string, wishes: map<string, int>)

  /**
   * One line of the member list: the id `name_role`, the name, the role,
   * the weight of the wish and the 0-based index of the participant.
   */
  datatype Entry = Entry(id: string, name: string, role: string, weight: int, player: nat)

  /** The participant takes part in `role`: the role is wished with a positive weight. */
  predicate Wants(p: Player, role: string) {
    role in p.wishes && p.wishes[role] > 0
  }

  /**
   * The line of participant `index` for `role`: its id is the name, an
   * underscore and the role, so it splits back into the two; it carries the
   * wish's weight and the participant's index.
   */
  function BuildLine(p: Player, role: string, index: nat): (e: Entry)
    requires role in p.wishes
    ensures e.name == p.name && e.role == role && e.weight == p.wishes[role] && e.player == index
    ensures |e.id| == |p.name| + 1 + |role|
    ensures e.id[..|p.name|] == p.name && e.id[|p.name|] == '_' && e.id[|p.name| + 1..] == role
  {
    Entry(p.name + "_" + role, p.name, role, p.wishes[role], index)
  }

  /** The entry that participant `index` contributes in role `role`. */
  predicate IsEntryOf(players: seq<Player>, e: Entry) {
    && e.player < |players|
    && e.role in RoleOrder
    && Wants(players[e.player], e.role)
    && e == BuildLine(players[e.player], e.role, e.player)
  }

  /** The entries of one participant for the first `r` roles of RoleOrder. */
  function RoleEntries(p: Player, index: nat, r: nat): seq<Entry>
    requires r <= |RoleOrder|
  {
    if r == 0 then []
    else
      RoleEntries(p, index, r - 1)
      + (if Wants(p, RoleOrder[r - 1]) then [BuildLine(p, RoleOrder[r - 1], index)] else [])
  }

  /** The member list before it is shuffled. */
  function Expansion(players: seq<Player>): seq<Entry>
  {
    if |players| == 0 then []
    else Expansion(players[..|players| - 1]) + RoleEntries(players[|players| - 1], |players| - 1, |RoleOrder|)
  }

  /** No element occurs twice. */
  predicate Distinct<T(==)>(s: seq<T>) {
    forall a, b :: 0 <= a < b < |s| ==> s[a] != s[b]
  }

  lemma {:induction false} RoleEntriesMembers(p: Player, index: nat, r: nat, e: Entry)
    requires r <= |RoleOrder|
    ensures e in RoleEntries(p, index, r) <==>
              e.player == index && e.role in RoleOrder[..r] && Wants(p, e.role) && e == BuildLine(p, e.role, index)
  {
    if r > 0 {
      RoleEntriesMembers(p, index, r - 1, e);
      assert RoleOrder[..r] == RoleOrder[..r - 1] + [RoleOrder[r - 1]];
    }
  }

  lemma {:induction false} RoleEntriesDistinct(p: Player, index: nat, r: nat)
    requires r <= |RoleOrder|
    ensures Distinct(RoleEntries(p, index, r))
  {
    if r > 0 {
      RoleEntriesDistinct(p, index, r - 1);
      var front := RoleEntries(p, index, r - 1);
      forall k | 0 <= k < |front|
        ensures front[k].role != RoleOrder[r - 1]
      {
        RoleEntriesMembers(p, index, r - 1, front[k]);
        assert front[k].role in RoleOrder[..r - 1];
      }
    }
  }

  /** Membership in the unshuffled member list. */
  lemma {:induction false} ExpansionMembers(players: seq<Player>, e: Entry)
    ensures e in Expansion(players) <==> IsEntryOf(players, e)
  {
    if |players| > 0 {
      var n := |players| - 1;
      var front := players[..n];
      ExpansionMembers(front, e);
      RoleEntriesMembers(players[n], n, |RoleOrder|, e);
      assert RoleOrder[..|RoleOrder|] == RoleOrder;
      if e.player < n {
        assert front[e.player] == players[e.player];
      }
    }
  }

  /** Every entry of the unshuffled member list points at an existing participant. */
  lemma {:induction false} ExpansionPlayersBelow(players: seq<Player>, k: nat)
    requires k < |Expansion(players)|
    ensures Expansion(players)[k].player < |players|
  {
    ExpansionMembers(players, Expansion(players)[k]);
  }

  lemma {:induction false} ExpansionDistinct(players: seq<Player>)
    ensures Distinct(Expansion(players))
  {
    if |players| > 0 {
      var n := |players| - 1;
      var front := Expansion(players[..n]);
      var back := RoleEntries(players[n], n, |RoleOrder|);
      ExpansionDistinct(players[..n]);
      RoleEntriesDistinct(players[n], n, |RoleOrder|);
      forall a, b | 0 <= a < |front| && 0 <= b < |back|
        ensures front[a] != back[b]
      {
        ExpansionPlayersBelow(players[..n], a);
        RoleEntriesMembers(players[n], n, |RoleOrder|, back[b]);
      }
      var s := front + back;
      forall a, b | 0 <= a < b < |s|
        ensures s[a] != s[b]
      {
        if b < |front| {
          assert s[a] == front[a] && s[b] == front[b];
        } else if a < |front| {
          assert s[a] == front[a] && s[b] == back[b - |front|];
        } else {
          assert s[a] == back[a - |front|] && s[b] == back[b - |front|];
        }
      }
    }
  }

  lemma {:induction false} DistinctMultiplicity(s: seq<Entry>, e: Entry)
    requires Distinct(s)
    ensures multiset(s)[e] <= 1
  {
    if |s| > 0 {
      var n := |s| - 1;
      assert s == s[..n] + [s[n]];
      assert Distinct(s[..n]);
      DistinctMultiplicity(s[..n], e);
      if s[n] == e {
        assert e !in s[..n];
      }
    }
  }

  lemma RepeatedMultiplicity(s: seq<Entry>, a: nat, b: nat)
    requires a < b < |s| && s[a] == s[b]
    ensures multiset(s)[s[a]] >= 2
  {
    assert s == s[..b] + [s[b]] + s[b + 1..];
    assert s[a] in s[..b];
  }

  /** Every entry of a shuffled member list is the entry of an existing participant and wished role. */
  lemma ShuffledEntriesValid(players: seq<Player>, members: seq<Entry>)
    requires multiset(members) == multiset(Expansion(players))
    ensures forall k :: 0 <= k < |members| ==> IsEntryOf(players, members[k])
  {
    forall k | 0 <= k < |members|
      ensures IsEntryOf(players, members[k])
    {
      assert members[k] in multiset(members);
      ExpansionMembers(players, members[k]);
    }
  }

  /** Every wished role of every participant has its entry in a shuffled member list. */
  lemma ShuffledEntriesComplete(players: seq<Player>, members: seq<Entry>)
    requires multiset(members) == multiset(Expansion(players))
    ensures forall p, role :: 0 <= p < |players| && role in RoleOrder && Wants(players[p], role) ==>
              BuildLine(players[p], role, p) in members
  {
    forall p, role | 0 <= p < |players| && role in RoleOrder && Wants(players[p], role)
      ensures BuildLine(players[p], role, p) in members
    {
      var e := BuildLine(players[p], role, p);
      assert IsEntryOf(players, e);
      ExpansionMembers(players, e);
      assert e in multiset(Expansion(players));
      assert e in multiset(members);
    }
  }

  lemma SameKeySameEntry(players: seq<Player>, e: Entry, f: Entry)
    requires IsEntryOf(players, e) && IsEntryOf(players, f)
    requires e.player == f.player && e.role == f.role
    ensures e == f
  {
  }

  /** No (participant, role) pair occurs twice in a shuffled member list. */
  lemma ShuffledEntriesUnique(players: seq<Player>, members: seq<Entry>)
    requires multiset(members) == multiset(Expansion(players))
    ensures forall a, b :: 0 <= a < b < |members| ==>
              members[a].player != members[b].player || members[a].role != members[b].role
  {
    ShuffledEntriesValid(players, members);
    ExpansionDistinct(players);
    forall a, b | 0 <= a < b < |members|
      ensures members[a].player != members[b].player || members[a].role != members[b].role
    {
      if members[a].player == members[b].player && members[a].role == members[b].role {
        SameKeySameEntry(players, members[a], members[b]);
        RepeatedMultiplicity(members, a, b);
        DistinctMultiplicity(Expansion(players), members[a]);
      }
    }
  }

  /**
   * Up to the order the shuffle produces, the member list holds exactly one
   * entry per (participant, role) that the participant wishes with a positive
   * weight, and nothing else.
   */
  lemma ShuffledExpansion(players: seq<Player>, members: seq<Entry>)
    requires multiset(members) == multiset(Expansion(players))
    ensures forall k :: 0 <= k < |members| ==> IsEntryOf(players, members[k])
    ensures forall p, role :: 0 <= p < |players| && role in RoleOrder && Wants(players[p], role) ==>
              BuildLine(players[p], role, p) in members
    ensures forall a, b :: 0 <= a < b < |members| ==>
              members[a].player != members[b].player || members[a].role != members[b].role
  {
    ShuffledEntriesValid(players, members);
    ShuffledEntriesComplete(players, members);
    ShuffledEntriesUnique(players, members);
  }

  /**
   * The in-place Fisher-Yates shuffle of the standard library: for i from the
   * last index down to 1, swap element i with an element j <= i. The random
   * choices of j are supplied by the caller.
   */
  method Shuffle(s: seq<Entry>, choices: seq<nat>) returns (t: seq<Entry>)
    ensures multiset(t) == multiset(s)
  {
    t := s;
    var i := |t| - 1;
    var step := 0;
    while i > 0
      invariant i < |t| && multiset(t) == multiset(s)
    {
      var j := if step < |choices| then choices[step] % (i + 1) else i;
      t := t[i := t[j]][j := t[i]];
      i, step := i - 1, step + 1;
    }
  }

  /**
   * Replaces the participants by the list of their (participant, role) entries,
   * examined in the order heal, tank, dps, then shuffled.
   */
  method BuildMembers(players: seq<Player>, choices: seq<nat>) returns (members: seq<Entry>)
    ensures multiset(members) == multiset(Expansion(players))
  {
    var line: seq<Entry> := [];
    for current := 0 to |players|
      invariant line == Expansion(players[..current])
    {
      var player := players[current];
      for r := 0 to |RoleOrder|
        invariant line == Expansion(players[..current]) + RoleEntries(player, current, r)
      {
        var role := RoleOrder[r];
        if role in player.wishes && player.wishes[role] > 0 {
          line := line + [BuildLine(player, role, current)];
        }
      }
      assert players[..current + 1][..current] == players[..current];
    }
    assert players[..|players|] == players;
    members := Shuffle(line, choices);
  }

  /** The number of entries whose role is `role`. */
  function CountRole(members: seq<Entry>, role: string): nat
  {
    if |members| == 0 then 0
    else CountRole(members[..|members| - 1], role) + (if members[|members| - 1].role == role then 1 else 0)
  }

  method HowManyMembersForRole(members: seq<Entry>, role: string) returns (nbr: nat)
    ensures nbr == CountRole(members, role)
  {
    nbr := 0;
    for k := 0 to |members|
      invariant nbr == CountRole(members[..k], role)
    {
      assert members[..k + 1][..k] == members[..k];
      if members[k].role == role {
        nbr := nbr + 1;
      }
    }
    assert members[..|members|] == members;
  }

  lemma {:induction false} CountRoleAppend(a: seq<Entry>, b: seq<Entry>, role: string)
    ensures CountRole(a + b, role) == CountRole(a, role) + CountRole(b, role)
  {
    if |b| == 0 {
      assert a + b == a;
    } else {
      var n := |b| - 1;
      assert (a + b)[..|a + b| - 1] == a + b[..n];
      assert (a + b)[|a + b| - 1] == b[n];
      CountRoleAppend(a, b[..n], role);
    }
  }

  /** Taking out the entry at index k lowers the count by one exactly when its role matches. */
  lemma CountRoleRemove(b: seq<Entry>, k: nat, role: string)
    requires k < |b|
    ensures CountRole(b, role) == CountRole(b[..k] + b[k + 1..], role) + (if b[k].role == role then 1 else 0)
  {
    assert b == b[..k] + ([b[k]] + b[k + 1..]);
    CountRoleAppend(b[..k], [b[k]] + b[k + 1..], role);
    CountRoleAppend([b[k]], b[k + 1..], role);
    CountRoleAppend(b[..k], b[k + 1..], role);
    assert [b[k]][..0] == [];
  }

  /** Role counts do not depend on the order of the entries. */
  lemma {:induction false} CountRolePermutation(a: seq<Entry>, b: seq<Entry>, role: string)
    requires multiset(a) == multiset(b)
    ensures CountRole(a, role) == CountRole(b, role)
  {
    if |a| == 0 {
      assert |b| == |multiset(b)| == 0;
    } else {
      var n := |a| - 1;
      var e := a[n];
      assert a == a[..n] + [e];
      assert e in multiset(b);
      var k :| 0 <= k < |b| && b[k] == e;
      var rest := b[..k] + b[k + 1..];
      assert b == b[..k] + [e] + b[k + 1..];
      assert multiset(b) == multiset(b[..k]) + multiset{e} + multiset(b[k + 1..]);
      assert multiset(rest) == multiset(b[..k]) + multiset(b[k + 1..]);
      assert multiset(a) == multiset(a[..n]) + multiset{e};
      assert multiset(rest) == multiset(b) - multiset{e};
      assert multiset(a[..n]) == multiset(a) - multiset{e};
      CountRolePermutation(a[..n], rest, role);
      CountRoleRemove(b, k, role);
    }
  }

  /** Every entry has one of the three roles, so the three counts add up to the list length. */
  lemma {:induction false} RoleCountsPartition(members: seq<Entry>)
    requires forall k :: 0 <= k < |members| ==> members[k].role in RoleOrder
    ensures CountRole(members, HEAL) + CountRole(members, TANK) + CountRole(members, DPS) == |members|
  {
    if |members| > 0 {
      RoleCountsPartition(members[..|members| - 1]);
    }
  }

  function Min(a: int, b: int): int { if a <= b then a else b }

  /**
   * The initial upper estimate of the number of groups: at most one group per
   * `groupSize` participants, per heal entry, per tank entry and per
   * `groupSize - 2` dps entries.
   */
  function Estimate(playerCount: nat, members: seq<Entry>, groupSize: int): (n: nat)
    requires groupSize >= 3
    ensures n <= playerCount / groupSize
    ensures n <= CountRole(members, HEAL) && n <= CountRole(members, TANK)
    ensures n <= CountRole(members, DPS) / (groupSize - 2)
    ensures n == playerCount / groupSize || n == CountRole(members, HEAL)
         || n == CountRole(members, TANK) || n == CountRole(members, DPS) / (groupSize - 2)
  {
    Min(Min(Min(playerCount / groupSize, CountRole(members, HEAL)), CountRole(members, TANK)),
        CountRole(members, DPS) / (groupSize - 2))
  }

  /** The estimate is the same for every shuffle of the member list. */
  lemma EstimateIgnoresOrder(playerCount: nat, a: seq<Entry>, b: seq<Entry>, groupSize: int)
    requires groupSize >= 3 && multiset(a) == multiset(b)
    ensures Estimate(playerCount, a, groupSize) == Estimate(playerCount, b, groupSize)
  {
    CountRolePermutation(a, b, HEAL);
    CountRolePermutation(a, b, TANK);
    CountRolePermutation(a, b, DPS);
  }
}
