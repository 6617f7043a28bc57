/**
 * The poll kept by the chat bot: who reacted with which emoji, when a
 * reaction counts, how the reactions become the participants handed to the
 * engine, and what happens when the poll is stopped.
 */
module Bot {
  import opened Roster
  import opened Selection
  import opened SolverModel
  import opened Formulation
  import opened WowGroups
  import opened BotText

  datatype Option<T> = None | Some(value: T)

  type UserId = int

  /** One user's reactions: emoji name to the member name recorded with it. */
  type Reactions = map<string, string>

  const GroupSize: int := 5
  const MaxDurationInSec: real := 3600.0

  /** The six role reactions, in the order they are examined. */
  const ReactionKeys: seq<string> := ["dps_low", "dps_high", "heal_low", "heal_high", "tank_low", "tank_high"]

  const RoleSet: set<string> := {DPS, HEAL, TANK}

  /** What the chat service reports about one reaction. */
  datatype Payload = Payload(userId: UserId, memberName: string, messageId: int, emojiName: string)

  predicate StartsWithStop(s: string) {
    |s| >= 4 && s[..4] == "stop"
  }

  // ----- From reactions to a participant -----

  function Low(role: string): string { role + "_low" }

  function High(role: string): string { role + "_high" }

  /** The user reacted with the low or the high emoji of the role. */
  predicate Chose(r: Reactions, role: string) {
    Low(role) in r || High(role) in r
  }

  /** The high emoji is worth 5, the low one 2. */
  function WeightOf(r: Reactions, role: string): int {
    if High(role) in r then 5 else 2
  }

  /** m with the wish for `role` set from the reactions, when there is one. */
  function WithRoleWish(r: Reactions, role: string, m: map<string, int>): map<string, int> {
    if Chose(r, role) then m[role := WeightOf(r, role)] else m
  }

  function WishesOf(r: Reactions): map<string, int> {
    WithRoleWish(r, TANK, WithRoleWish(r, HEAL, WithRoleWish(r, DPS, map[])))
  }

  /** The name recorded with the last key of ks present in r, or "" if none is. */
  function LastPresent(r: Reactions, ks: seq<string>): string
  {
    if |ks| == 0 then ""
    else if ks[|ks| - 1] in r then r[ks[|ks| - 1]]
    else LastPresent(r, ks[..|ks| - 1])
  }

  function NameOf(r: Reactions): string {
    LastPresent(r, ReactionKeys)
  }

  /** The participant a user's reactions stand for. */
  function PlayerOf(r: Reactions): Player {
    Player(NameOf(r), WishesOf(r))
  }

  /**
   * The name is the one recorded with the last present key: the key at index
   * i when no later key is present, and "" when none is.
   */
  lemma {:induction false} LastPresentIsLast(r: Reactions, ks: seq<string>, i: nat)
    requires i < |ks| && ks[i] in r
    requires forall j :: i < j < |ks| ==> ks[j] !in r
    ensures LastPresent(r, ks) == r[ks[i]]
  {
    if i < |ks| - 1 {
      LastPresentIsLast(r, ks[..|ks| - 1], i);
    }
  }

  lemma {:induction false} LastPresentNone(r: Reactions, ks: seq<string>)
    requires forall j :: 0 <= j < |ks| ==> ks[j] !in r
    ensures LastPresent(r, ks) == ""
  {
    if |ks| > 0 {
      LastPresentNone(r, ks[..|ks| - 1]);
    }
  }

  /** A role is wished exactly when its low or high emoji is present; high wins with weight 5, else 2. */
  lemma WishesFromReactions(r: Reactions, role: string)
    ensures role in PlayerOf(r).wishes <==> role in RoleSet && (Low(role) in r || High(role) in r)
    ensures role in PlayerOf(r).wishes ==> PlayerOf(r).wishes[role] == (if High(role) in r then 5 else 2)
    ensures role in PlayerOf(r).wishes ==> PlayerOf(r).wishes[role] > 0
  {
    assert DPS != HEAL && DPS != TANK && HEAL != TANK;
  }

  /** Every participant built from reactions is one the engine can expand: its wishes name roles with positive weights. */
  lemma WishesAreRoles(r: Reactions)
    ensures forall role :: role in PlayerOf(r).wishes ==> role in RoleOrder && PlayerOf(r).wishes[role] > 0
  {
    forall role | role in PlayerOf(r).wishes ensures role in RoleOrder && PlayerOf(r).wishes[role] > 0 {
      WishesFromReactions(r, role);
    }
  }

  lemma KeyNames()
    ensures Low(DPS) == "dps_low" && High(DPS) == "dps_high"
    ensures Low(HEAL) == "heal_low" && High(HEAL) == "heal_high"
    ensures Low(TANK) == "tank_low" && High(TANK) == "tank_high"
  {
  }

  lemma LastPresentStep(r: Reactions, ks: seq<string>, i: nat)
    requires i < |ks|
    ensures LastPresent(r, ks[..i + 1]) == if ks[i] in r then r[ks[i]] else LastPresent(r, ks[..i])
  {
    assert ks[..i + 1][..i] == ks[..i];
  }

  /** The six tests of the source, one after the other: a later present key overrides the name and the weight. */
  method PlayerFromReactions(r: Reactions) returns (player: Player)
    ensures player == PlayerOf(r)
  {
    ghost var ks := ReactionKeys;
    KeyNames();
    var wishes: map<string, int> := map[];
    var username := "";
    assert username == LastPresent(r, ks[..0]);
    if "dps_low" in r {
      username := r["dps_low"];
      wishes := wishes[DPS := 2];
    }
    LastPresentStep(r, ks, 0);
    if "dps_high" in r {
      username := r["dps_high"];
      wishes := wishes[DPS := 5];
    }
    LastPresentStep(r, ks, 1);
    assert wishes == WithRoleWish(r, DPS, map[]);
    if "heal_low" in r {
      username := r["heal_low"];
      wishes := wishes[HEAL := 2];
    }
    LastPresentStep(r, ks, 2);
    if "heal_high" in r {
      username := r["heal_high"];
      wishes := wishes[HEAL := 5];
    }
    LastPresentStep(r, ks, 3);
    assert wishes == WithRoleWish(r, HEAL, WithRoleWish(r, DPS, map[]));
    if "tank_low" in r {
      username := r["tank_low"];
      wishes := wishes[TANK := 2];
    }
    LastPresentStep(r, ks, 4);
    if "tank_high" in r {
      username := r["tank_high"];
      wishes := wishes[TANK := 5];
    }
    LastPresentStep(r, ks, 5);
    assert ks[..6] == ks;
    player := Player(username, wishes);
  }

  /** The reactions recorded for a user, none for a user the map does not hold. */
  function EntryOf(ps: map<UserId, Reactions>, user: UserId): Reactions {
    if user in ps then ps[user] else map[]
  }

  /** The participants of the users in `order`, leaving out those named like the bot. */
  function FilterPlayers(ps: map<UserId, Reactions>, order: seq<UserId>, botName: string): seq<Player>
    requires forall k :: 0 <= k < |order| ==> order[k] in ps
  {
    if |order| == 0 then []
    else
      var p := PlayerOf(ps[order[|order| - 1]]);
      FilterPlayers(ps, order[..|order| - 1], botName) + (if p.name != botName then [p] else [])
  }

  /**
   * Exactly the participants not named like the bot are kept: every kept one
   * comes from a user of `order` and is not named like the bot, and every
   * user whose participant is not named like the bot is kept.
   */
  lemma {:induction false} FilterPlayersExact(ps: map<UserId, Reactions>, order: seq<UserId>, botName: string)
    requires forall k :: 0 <= k < |order| ==> order[k] in ps
    ensures |FilterPlayers(ps, order, botName)| <= |order|
    ensures forall p :: p in FilterPlayers(ps, order, botName) ==>
              p.name != botName && exists k :: 0 <= k < |order| && p == PlayerOf(ps[order[k]])
    ensures forall k :: 0 <= k < |order| && PlayerOf(ps[order[k]]).name != botName ==>
              PlayerOf(ps[order[k]]) in FilterPlayers(ps, order, botName)
  {
    if |order| > 0 {
      var front := order[..|order| - 1];
      FilterPlayersExact(ps, front, botName);
      forall p | p in FilterPlayers(ps, front, botName)
        ensures exists k :: 0 <= k < |order| && p == PlayerOf(ps[order[k]])
      {
        var k :| 0 <= k < |front| && p == PlayerOf(ps[front[k]]);
        assert order[k] == front[k];
      }
      forall k | 0 <= k < |order| - 1 && PlayerOf(ps[order[k]]).name != botName
        ensures PlayerOf(ps[order[k]]) in FilterPlayers(ps, order, botName)
      {
        assert front[k] == order[k];
      }
    }
  }

  // ----- The user order of the poll's player map -----

  /** s without u. */
  function Without(s: seq<UserId>, u: UserId): seq<UserId>
  {
    if |s| == 0 then []
    else Without(s[..|s| - 1], u) + (if s[|s| - 1] == u then [] else [s[|s| - 1]])
  }

  lemma {:induction false} WithoutMembers(s: seq<UserId>, u: UserId)
    ensures forall x :: x in Without(s, u) <==> x in s && x != u
  {
    if |s| > 0 {
      WithoutMembers(s[..|s| - 1], u);
      assert s == s[..|s| - 1] + [s[|s| - 1]];
    }
  }

  lemma {:induction false} WithoutDistinct(s: seq<UserId>, u: UserId)
    requires Distinct(s)
    ensures Distinct(Without(s, u))
  {
    if |s| > 0 {
      var front := s[..|s| - 1];
      var last := s[|s| - 1];
      WithoutDistinct(front, u);
      WithoutMembers(front, u);
      if last != u {
        assert last !in front;
        var w := Without(front, u);
        forall a, b | 0 <= a < b < |w + [last]| ensures (w + [last])[a] != (w + [last])[b] {
          if b == |w| {
            assert (w + [last])[a] == w[a];
          }
        }
      }
    }
  }

  /** No user is kept with no reaction. */
  predicate NoEmpty(ps: map<UserId, Reactions>) {
    forall u :: u in ps ==> |ps[u]| > 0
  }

  /** ps and qs hold the same users other than `user`, with the same reactions. */
  ghost predicate SameOthers(ps: map<UserId, Reactions>, qs: map<UserId, Reactions>, user: UserId) {
    forall u :: u != user ==> (u in ps <==> u in qs) && (u in ps ==> ps[u] == qs[u])
  }

  lemma SameOthersTrans(a: map<UserId, Reactions>, b: map<UserId, Reactions>, c: map<UserId, Reactions>, user: UserId)
    requires SameOthers(a, b, user) && SameOthers(b, c, user)
    ensures SameOthers(a, c, user)
  {
  }

  /** Changing one user's entry keeps every entry non-empty when that user's entry, if kept, is non-empty. */
  lemma NoEmptyKept(a: map<UserId, Reactions>, b: map<UserId, Reactions>, user: UserId)
    requires NoEmpty(a) && SameOthers(a, b, user) && (user in b ==> |b[user]| > 0)
    ensures NoEmpty(b)
  {
  }

  /** The users of a map kept beside their order. */
  predicate OrderOf(ps: map<UserId, Reactions>, order: seq<UserId>) {
    Distinct(order) && ps.Keys == set u | u in order
  }

  /** A new user goes at the end of the order. */
  lemma OrderAfterInsert(ps: map<UserId, Reactions>, order: seq<UserId>, user: UserId, e: Reactions)
    requires OrderOf(ps, order) && user !in ps
    ensures OrderOf(ps[user := e], order + [user])
  {
    var o := order + [user];
    forall a, b | 0 <= a < b < |o| ensures o[a] != o[b] {
      if b == |order| {
        assert o[a] == order[a];
        assert order[a] in ps;
      }
    }
  }

  /** A deleted user leaves the order. */
  lemma OrderAfterDelete(ps: map<UserId, Reactions>, order: seq<UserId>, user: UserId)
    requires OrderOf(ps, order)
    ensures OrderOf(ps - {user}, Without(order, user))
  {
    WithoutMembers(order, user);
    WithoutDistinct(order, user);
  }

  /**
   * Adding a user with no reaction and then pruning the user again leaves the
   * map and the order as they were, except that a user whose entry was empty
   * is gone.
   */
  lemma AddThenPrune(ps: map<UserId, Reactions>, order: seq<UserId>, user: UserId)
    ensures var added := ps[user := EntryOf(ps, user)];
            var addedOrder := if user in ps then order else order + [user];
            var kept := user in ps && |ps[user]| > 0;
            && (|added[user]| > 0 <==> kept)
            && (kept ==> added == ps && addedOrder == order)
            && (!kept ==> added - {user} == ps - {user} && Without(addedOrder, user) == Without(order, user))
  {
    if user in ps {
      assert ps[user := EntryOf(ps, user)] == ps;
    } else {
      var o := order + [user];
      assert o[..|o| - 1] == order;
    }
  }

  /**
   * The poll: the reactions of each user (the map, and the order in which its
   * users were first added), the accepted emoji names, the poll message, its
   * start time and the last answer of the engine.
   */
  class Poll {
    var players: map<UserId, Reactions>
    var order: seq<UserId>
    var emoji: set<string>
    var message: Option<int>
    var start: real
    var solution: Option<Solution>

    /** order lists each user of the map once. */
    predicate Consistent()
      reads this
    {
      OrderOf(players, order)
    }

    predicate NoEmptyEntries()
      reads this
    {
      NoEmpty(players)
    }

    predicate Valid()
      reads this
    {
      Consistent() && NoEmptyEntries()
    }

    /** The state before any poll: nothing recorded, no message, started at the epoch. */
    constructor ()
      ensures players == map[] && order == [] && emoji == {} && message == None && start == 0.0 && solution == None
      ensures Valid()
    {
      players := map[];
      order := [];
      emoji := {};
      message := None;
      start := 0.0;
      solution := None;
    }

    /** A poll is ongoing while its message exists and less than an hour has passed since it started. */
    function IsPollOngoing(now: real): (ongoing: bool)
      reads this
      ensures ongoing <==> message.Some? && now - start < MaxDurationInSec
    {
      message.Some? && now - start < MaxDurationInSec
    }

    /**
     * A poll stops being ongoing with time: if it is ongoing at some time it
     * was at every earlier time, and it no longer is an hour after its start.
     */
    lemma OngoingUntilExpiry(earlier: real, later: real)
      requires earlier <= later
      ensures IsPollOngoing(later) ==> IsPollOngoing(earlier)
      ensures !IsPollOngoing(start + MaxDurationInSec)
    {
    }

    /**
     * A reaction counts unless it is the bot's own (when asked to check), no
     * poll is ongoing, it is on another message, or its emoji is not one the
     * poll accepts.
     */
    function IsReactionValid(payload: Payload, testForBot: bool, botName: string, now: real): (valid: bool)
      reads this
      ensures valid <==>
                && !(testForBot && payload.memberName == botName)
                && message.Some? && now - start < MaxDurationInSec
                && message.value == payload.messageId
                && payload.emojiName in emoji
    {
      if testForBot && payload.memberName == botName then false
      else if !IsPollOngoing(now) then false
      else if message.value != payload.messageId then false
      else if payload.emojiName !in emoji then false
      else true
    }

    /** The participants of all users, in map order, without the one named like the bot. */
    method FormatPlayersForGroupLib(botName: string) returns (result: seq<Player>)
      requires Consistent()
      ensures result == FilterPlayers(players, order, botName)
    {
      result := [];
      for k := 0 to |order|
        invariant result == FilterPlayers(players, order[..k], botName)
      {
        var player := PlayerFromReactions(players[order[k]]);
        if player.name != botName {
          result := result + [player];
        }
        assert order[..k + 1][..k] == order[..k];
      }
      assert order[..|order|] == order;
    }

    /**
     * The stop emoji: the participants are handed to the engine, its answer is
     * kept, the reply is written and the poll message is forgotten.
     */
    method StopPoll(botName: string, choices: seq<nat>, solve: Model -> Status)
      returns (reply: string, ghost formatted: seq<Player>, ghost members: seq<Entry>, ghost count: nat)
      requires Consistent()
      modifies this
      ensures players == old(players) && order == old(order) && emoji == old(emoji) && start == old(start)
      ensures formatted == FilterPlayers(players, order, botName)
      ensures message == None && solution.Some? && reply == PollResultText(solution.value)
      ensures multiset(members) == multiset(Expansion(formatted))
      ensures count <= Estimate(|formatted|, Expansion(formatted), GroupSize)
      ensures forall k :: count < k <= Estimate(|formatted|, Expansion(formatted), GroupSize) ==>
                !solve(ModelFor(members, k, GroupSize)).Optimal?
      ensures solution.value.GroupList? ==>
                && solve(ModelFor(members, count, GroupSize)).Optimal?
                && RendersSolution(solution.value.groups, members, count, solve(ModelFor(members, count, GroupSize)).selection)
      ensures solution.value.EmptyMapping? ==> count <= 1 && !solve(ModelFor(members, count, GroupSize)).Optimal?
    {
      var entrants := FormatPlayersForGroupLib(botName);
      formatted := entrants;
      ghost var calls: nat;
      var r;
      r, members, count, calls := GetGroups(entrants, GroupSize, choices, solve);
      solution := Some(r);
      reply := DisplayPollResult(r);
      message := None;
    }

    /** The user is added with no reaction, at the end of the order, unless the map holds them. */
    method AddUserIfMissing(user: UserId)
      requires Consistent()
      modifies this
      ensures Consistent()
      ensures players == old(players)[user := EntryOf(old(players), user)]
      ensures SameOthers(old(players), players, user)
      ensures order == if user in old(players) then old(order) else old(order) + [user]
      ensures emoji == old(emoji) && start == old(start) && message == old(message) && solution == old(solution)
    {
      if user !in players {
        OrderAfterInsert(players, order, user, map[]);
        players := players[user := map[]];
        order := order + [user];
      } else {
        assert players == players[user := EntryOf(players, user)];
      }
    }

    /** The user is removed, from the map and the order, if no reaction of theirs is left. */
    method PruneUser(user: UserId)
      requires Consistent() && user in players
      modifies this
      ensures Consistent()
      ensures |old(players)[user]| == 0 ==> players == old(players) - {user} && order == Without(old(order), user)
      ensures |old(players)[user]| > 0 ==> players == old(players) && order == old(order)
      ensures SameOthers(old(players), players, user) && (user in players ==> |players[user]| > 0)
      ensures emoji == old(emoji) && start == old(start) && message == old(message) && solution == old(solution)
    {
      if |players[user]| == 0 {
        OrderAfterDelete(players, order, user);
        players := players - {user};
        order := Without(order, user);
      }
    }

    /**
     * A counted role emoji: the user is added if missing, the member name is
     * recorded under the emoji, and the user is pruned if left with no
     * reaction (which cannot happen here, as the entry just gained a key).
     */
    method RecordReaction(user: UserId, emojiName: string, memberName: string)
      requires Consistent()
      modifies this
      ensures Consistent()
      ensures old(NoEmptyEntries()) ==> NoEmptyEntries()
      ensures emoji == old(emoji) && start == old(start) && message == old(message) && solution == old(solution)
      ensures SameOthers(old(players), players, user)
      ensures user in players && players[user] == EntryOf(old(players), user)[emojiName := memberName]
      ensures order == (if user in old(players) then old(order) else old(order) + [user])
    {
      ghost var p0 := players;
      AddUserIfMissing(user);
      ghost var p1 := players;
      players := players[user := players[user][emojiName := memberName]];
      ghost var p2 := players;
      assert SameOthers(p1, p2, user);
      PruneUser(user);
      SameOthersTrans(p0, p1, p2, user);
      SameOthersTrans(p0, p2, players, user);
      if NoEmpty(p0) {
        NoEmptyKept(p0, players, user);
      }
    }

    /**
     * A counted stop emoji: the user is added if missing, the poll is
     * stopped, and the user is pruned again if left with no reaction. So the
     * reactions and the order end as they were, less an empty entry of the
     * user; the participants handed to the engine are those of the map with
     * the user added.
     */
    method StopByReaction(user: UserId, botName: string, choices: seq<nat>, solve: Model -> Status)
      returns (reply: string, ghost formatted: seq<Player>, ghost members: seq<Entry>, ghost count: nat)
      requires Consistent()
      modifies this
      ensures Consistent()
      ensures old(NoEmptyEntries()) ==> NoEmptyEntries()
      ensures emoji == old(emoji) && start == old(start)
      ensures formatted == FilterPlayers(old(players)[user := EntryOf(old(players), user)],
                                         if user in old(players) then old(order) else old(order) + [user], botName)
      ensures players == (if user in old(players) && |old(players)[user]| > 0 then old(players) else old(players) - {user})
      ensures order == (if user in old(players) && |old(players)[user]| > 0 then old(order) else Without(old(order), user))
      ensures message == None && solution.Some? && reply == PollResultText(solution.value)
      ensures multiset(members) == multiset(Expansion(formatted))
      ensures solution.value.GroupList? ==>
                && solve(ModelFor(members, count, GroupSize)).Optimal?
                && RendersSolution(solution.value.groups, members, count, solve(ModelFor(members, count, GroupSize)).selection)
      ensures solution.value.EmptyMapping? ==> count <= 1 && !solve(ModelFor(members, count, GroupSize)).Optimal?
    {
      ghost var p0 := players;
      AddThenPrune(players, order, user);
      AddUserIfMissing(user);
      reply, formatted, members, count := StopPoll(botName, choices, solve);
      PruneUser(user);
      if NoEmpty(p0) {
        assert SameOthers(p0, players, user);
        NoEmptyKept(p0, players, user);
      }
    }

    /**
     * A reaction added. A counted role emoji is recorded for the user; a
     * counted stop emoji stops the poll. Every counted reaction is one of the
     * two, since a counted emoji is an accepted one and the bot's own
     * reactions are not counted. No user is left with no reaction.
     */
    method OnRawReactionAdd(payload: Payload, botName: string, now: real, choices: seq<nat>, solve: Model -> Status)
      returns (reply: Option<string>, ghost formatted: seq<Player>, ghost members: seq<Entry>, ghost count: nat)
      requires Consistent()
      modifies this
      ensures Consistent()
      ensures old(NoEmptyEntries()) ==> NoEmptyEntries()
      ensures emoji == old(emoji) && start == old(start)
      ensures SameOthers(old(players), players, payload.userId)
      ensures !old(IsReactionValid(payload, true, botName, now)) ==>
                && players == old(players) && order == old(order)
                && message == old(message) && solution == old(solution) && reply == None
      ensures old(IsReactionValid(payload, true, botName, now)) && !StartsWithStop(payload.emojiName) ==>
                && payload.userId in players
                && players[payload.userId] == EntryOf(old(players), payload.userId)[payload.emojiName := payload.memberName]
                && order == (if payload.userId in old(players) then old(order) else old(order) + [payload.userId])
                && message == old(message) && solution == old(solution) && reply == None
      ensures old(IsReactionValid(payload, true, botName, now)) && StartsWithStop(payload.emojiName) ==>
                && formatted == FilterPlayers(
                     old(players)[payload.userId := EntryOf(old(players), payload.userId)],
                     if payload.userId in old(players) then old(order) else old(order) + [payload.userId],
                     botName)
                && players == (if payload.userId in old(players) && |old(players)[payload.userId]| > 0
                               then old(players) else old(players) - {payload.userId})
                && order == (if payload.userId in old(players) && |old(players)[payload.userId]| > 0
                             then old(order) else Without(old(order), payload.userId))
                && message == None && solution.Some? && reply == Some(PollResultText(solution.value))
                && multiset(members) == multiset(Expansion(formatted))
                && (solution.value.GroupList? ==>
                      && solve(ModelFor(members, count, GroupSize)).Optimal?
                      && RendersSolution(solution.value.groups, members, count, solve(ModelFor(members, count, GroupSize)).selection))
                && (solution.value.EmptyMapping? ==> count <= 1 && !solve(ModelFor(members, count, GroupSize)).Optimal?)
    {
      var user := payload.userId;
      reply := None;
      formatted, members, count := [], [], 0;
      if !IsReactionValid(payload, true, botName, now) {
        return;
      }
      assert payload.emojiName in emoji && payload.memberName != botName;
      if payload.emojiName in emoji && !StartsWithStop(payload.emojiName) {
        RecordReaction(user, payload.emojiName, payload.memberName);
      } else if StartsWithStop(payload.emojiName) && payload.memberName != botName {
        var text;
        text, formatted, members, count := StopByReaction(user, botName, choices, solve);
        reply := Some(text);
      }
    }

    /**
     * A reaction removed. For a counted reaction of a user the poll knows,
     * the emoji's key is deleted if present, and the user is removed if no
     * reaction is left. A counted reaction of a user the poll does not know
     * fails on the missing key and changes nothing.
     */
    method OnRawReactionRemove(payload: Payload, botName: string, now: real) returns (outcome: RemoveOutcome)
      requires Consistent()
      modifies this
      ensures Consistent()
      ensures old(NoEmptyEntries()) ==> NoEmptyEntries()
      ensures emoji == old(emoji) && start == old(start) && message == old(message) && solution == old(solution)
      ensures outcome == Ignored <==> !old(IsReactionValid(payload, false, botName, now))
      ensures outcome == MissingUser <==> old(IsReactionValid(payload, false, botName, now)) && payload.userId !in old(players)
      ensures outcome != Updated ==> players == old(players) && order == old(order)
      ensures SameOthers(old(players), players, payload.userId)
      ensures outcome == Updated ==>
                var left := old(players)[payload.userId] - {payload.emojiName};
                && (|left| == 0 ==> payload.userId !in players && order == Without(old(order), payload.userId))
                && (|left| > 0 ==> payload.userId in players && players[payload.userId] == left && order == old(order))
    {
      var user := payload.userId;
      if !IsReactionValid(payload, false, botName, now) {
        return Ignored;
      }
      if user !in players {
        return MissingUser;
      }
      ghost var p0 := players;
      var left := players[user] - {payload.emojiName};
      if payload.emojiName in emoji && payload.emojiName in players[user] {
        players := players[user := players[user] - {payload.emojiName}];
      } else {
        assert left == players[user];
        assert players == players[user := left];
      }
      ghost var p1 := players;
      assert SameOthers(p0, p1, user);
      PruneUser(user);
      SameOthersTrans(p0, p1, players, user);
      if NoEmpty(p0) {
        NoEmptyKept(p0, players, user);
      }
      outcome := Updated;
    }
  }

  /** How a removal ended: not counted, failed on an unknown user, or applied. */
  datatype RemoveOutcome = Ignored | MissingUser | Updated
}
