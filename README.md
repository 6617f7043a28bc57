# Dungeon group poll and group assignment, in Dafny

This project models the two core pieces of a chat bot that forms dungeon
groups of five:

* the **group assignment engine** (`bot/wow_groups.py`). The participants and
  their role wishes (dps, heal, tank, each with a weight) are expanded into
  a shuffled list of (participant, role) entries. The engine then estimates
  a number of groups, builds a 0/1 integer program over entries x groups and
  hands it to a solver backend. While the backend does not report an optimum,
  it asks again with one group fewer. The optimum is read back as numbered
  group records;
* the **poll bookkeeping** of the bot (`bot/bot.py`). This covers which
  reactions count, the per-user reaction map that the add and remove
  handlers keep, the conversion of the reactions into participants with
  wishes, the choice between the apology and the proposal when the poll is
  stopped, and the text listing of the groups.

Modules, in dependency order:

| file | module | contents |
|---|---|---|
| `roster.dfy` | `Roster` | participants, entries, the expansion and its shuffle, role counts, the initial estimate |
| `selection.dfy` | `Selection` | 0/1 selection grids, the four rules (`Feasible`), the total weight (`Objective`), group records read off a grid |
| `solver_model.dfy` | `SolverModel` | a linear model with unit-coefficient constraints, its admissible and optimal assignments, and the backend as an oracle `Model -> Status` (`SolverSound`) |
| `formulation.dfy` | `Formulation` | the exact constraint and objective lists the engine builds, and the proof that they mean `Feasible` and `Objective` |
| `wow_groups.dfy` | `WowGroups` | the engine's `DataModel` class and its operations, and the retry loop `GetGroups` |
| `bot_text.dfy` | `BotText` | the group listing and the poll's answer text |
| `bot.dfy` | `Bot` | the `Poll` class: validity of reactions, the two handlers, the participants handed to the engine |

The main results:

* `Formulation.ConstraintsMeaning`: on grid-shaped assignments, the
  constraints the engine builds hold **exactly** for the feasible selections.
  A feasible selection picks each participant at most once, keeps each group
  within its capacity, and puts exactly one heal and one tank in each group.
* `Formulation.ObjectiveTermsValue`: the objective is the total weight of
  the selected cells.
* `WowGroups.GetGroups`: the retry loop makes at most max(estimate, 1)
  calls. Every group count above the one answered was refused. A list answer
  is the rendering of the backend's selection at that count, and the empty
  mapping comes only from a refusal at one group or at zero groups.
* `WowGroups.GroupListIsOptimal`: with a sound backend, a list answer has
  groups of at most five members, each with exactly one heal and one tank,
  and its weight is not beaten by any feasible selection for that count.
* `Roster.ShuffledExpansion` with `Roster.BuildMembers`: up to the shuffle's
  order, the member list holds exactly one entry per wished role of each
  participant.
* `Bot.Poll.OnRawReactionAdd` and `Bot.Poll.OnRawReactionRemove` keep the
  user order consistent with the map and never leave a user with no
  reaction. They change no other user.
* `BotText.FormatGroup` produces exactly the listing `SolutionText`.
  `BotText.ApologyExactlyWhenEmpty` proves that the apology is sent exactly
  when the answer has length 0, and both empty answers have length 0.

## Modelling decisions

* The solver backend is the parameter `solve: Model -> Status`. Only an
  `Optimal` status carries a selection; every other status is one of the
  backend's other codes. What the engine may rely on (an `Optimal` status
  carries an optimum of the model) is the ghost predicate
  `SolverModel.SolverSound`. It is an assumption of the lemmas, not a
  precondition of the loop: the loop works for any backend.
* The shuffle is the standard library's Fisher-Yates loop. Its random draws
  are the parameter `choices`. The results about the member list hold for
  every permutation: they are stated on `multiset(members)`.
* The two empty answers are kept apart in `WowGroups.Solution`.
  * `GroupList([])` is the empty list. It is the rendering of an optimum for
    zero groups, which happens when the estimate is 0 and the backend answers
    OPTIMAL for the model with no variables. `Formulation.ZeroGroupsSolvable`
    proves that this model has an optimum.
  * `EmptyMapping` is the `{}` of the exhausted branch.
* The Python dict `poll['players']` keeps the order in which keys were
  inserted. The model keeps a map and, beside it, the sequence `order` of
  its users in insertion order.
* The clock is the parameter `now` (seconds, as a `real`). The initial poll
  start, the epoch, is `0.0`. Before the first poll the message is absent, so
  the start is never compared.
* Group ids are printed in decimal (`BotText.IntToDecimal`), as Python's
  `str.format` prints an `int`.
* The group size is an argument of the engine (5 at the bot's call site). It
  must be at least 3. For sizes 0 and 2 the estimate divides by zero
  (`len(players)/0`, or the dps count divided by `2 - 2`). For size 1 the last
  term divides by -1. With a dps entry the estimate then comes out negative
  and building the capacity array fails. With no dps entry the estimate is 0
  and the run ends normally, like any zero estimate.

Three behaviours of the code that the model keeps as written:

* Every status other than OPTIMAL leads to a retry with one group fewer,
  whatever the status. There is no separate handling of a backend failure
  (`bot/wow_groups.py:247-252`).
* When no entry has the heal or tank role, the estimate is 0. The engine
  then does not stop at once: it solves the model with zero groups, and an
  OPTIMAL answer yields the empty list, not the empty mapping.
* The empty list and the empty mapping both reach the bot, which treats both
  as "no solution" because it tests the length.

## Model

| member | source | states |
|---|---|---|
| Roster.BuildLine | bot/wow_groups.py:27-34 | the line of a participant for a role: its id splits into the name, an underscore and the role; it carries the name, the role, the wish's weight and the participant's index |
| Roster.BuildMembers | bot/wow_groups.py:41-52 | the shuffled member list is a permutation of the unshuffled expansion: the entries of each participant, in the role order heal, tank, dps, for the roles wished with a positive weight |
| Roster.ShuffledExpansion | bot/wow_groups.py:27-34 | every entry of any permutation of the expansion is `name_role`, name, role, weight and the participant's index for a wished role; every wished role has its entry; no (participant, role) pair occurs twice |
| Roster.ExpansionMembers | bot/wow_groups.py:45-49 | an entry is in the unshuffled list exactly when it is the line of an existing participant and a role of heal, tank, dps wished with a positive weight |
| Roster.Shuffle | bot/wow_groups.py:51 | the shuffle returns a permutation of its input |
| Roster.HowManyMembersForRole | bot/wow_groups.py:16-21 | the counter equals the number of entries whose role is the given role |
| Roster.RoleCountsPartition | bot/wow_groups.py:46 | when all entries have one of the three roles, the three role counts add up to the number of entries |
| Roster.CountRolePermutation | bot/wow_groups.py:16-21 | role counts do not depend on the order of the entries |
| Roster.Estimate | bot/wow_groups.py:88-92 | the estimate is at most each of the four terms (participants / size, heal count, tank count, dps count / (size - 2)) and equals one of them |
| Roster.EstimateIgnoresOrder | bot/wow_groups.py:86-92 | the estimate is the same whatever order the shuffle produced |
| WowGroups.CreateDataModel | bot/wow_groups.py:85-105 | the new data model is consistent (columns of the member list, items 0..n-1, bins 0..count-1), its members are a permutation of the expansion, and it has as many capacities as the estimate, all equal to the group size |
| WowGroups.DataModel.ReduceBinCapacity | bot/wow_groups.py:112-118 | the capacities become max(old count - 1, 1) copies of the group size, bins become 0..count-1, every other field is unchanged and consistency is kept |
| WowGroups.DataModel.BinCount | bot/wow_groups.py:124-125 | on a consistent data model, the number of capacities is the number of group indices |
| WowGroups.GetXPerItem | bot/wow_groups.py:161-168 | one variable per (entry, group) cell: n x m of them, and a variable is listed exactly when its entry and group are in range |
| WowGroups.GetXForSinglePlayer | bot/wow_groups.py:132-140 | the variables of every entry of the participant over all groups; their sum on any grid is the participant's number of selected cells |
| WowGroups.GetXForSingleRole | bot/wow_groups.py:147-154 | the variables of one group for the entries of one role; their sum on any grid is the number of selected entries of that role in the group |
| WowGroups.SetConstraints | bot/wow_groups.py:189-209 | the constraint list, in the order the source adds them; on grid-shaped assignments it holds exactly for the feasible selections |
| WowGroups.SetObjectives | bot/wow_groups.py:216-221 | each cell weighted by its entry's weight; the objective value of any grid is the total weight of its selected cells |
| WowGroups.GetDictFromSolution | bot/wow_groups.py:59-76 | one record per group in group order, id j + 1, the selected entries of the group in entry order with name, role and weight, and the record's commitment is the sum of its members' weights |
| WowGroups.Formulate | bot/wow_groups.py:232-241 | the model handed to the backend for the current data model is the model for `count` groups of the group size; the variables created are exactly the n x count cells, and every variable the constraints and the objective mention is one of them |
| Formulation.ModelForWellScoped | bot/wow_groups.py:161-221 | the constraints and the objective of the model for `count` groups mention only cells of the entries x groups grid |
| WowGroups.GetGroups | bot/wow_groups.py:227-252 | the loop stops after at most max(estimate, 1) backend calls; every count above the answered one was refused; a list answer renders the backend's selection for the answered count; the empty mapping only follows a refusal at count 1 or 0 |
| WowGroups.GroupListIsOptimal | bot/wow_groups.py:247-248 | with a sound backend, the list answer has `count` groups, each with at most group-size members and exactly one heal and one tank member, and no feasible selection for that count weighs more |
| Formulation.ConstraintsMeaning | bot/wow_groups.py:189-209 | on grid-shaped assignments, the constraints hold exactly when each participant is picked at most once, each group is within its capacity and each group has exactly one heal and exactly one tank |
| Formulation.PlayerConstraintsMeaning | bot/wow_groups.py:190-193 | the per-entry "at most once" constraints hold exactly when no participant has two selected cells in total |
| Formulation.CapacityConstraintsMeaning | bot/wow_groups.py:195-199 | the capacity constraints hold exactly when every group's selected count is within its capacity |
| Formulation.RoleConstraintsMeaning | bot/wow_groups.py:201-209 | the role constraints hold exactly when every group has exactly one selected entry of the role |
| Formulation.ObjectiveTermsValue | bot/wow_groups.py:216-221 | the objective's value is the sum of the weights of the selected cells |
| Formulation.OptimumIsBestFeasible | bot/wow_groups.py:244-248 | an OPTIMAL answer of a sound backend is a feasible selection that no feasible selection beats in total weight |
| Formulation.ZeroGroupsSolvable | bot/wow_groups.py:88-105 | the model for an estimate of zero groups has an optimum (the grid of empty rows), so the backend can answer OPTIMAL for it |
| Selection.PlayerPicksAtMostOne | bot/wow_groups.py:190-193 | a participant's cell count is at most one exactly when no two distinct selected cells belong to that participant |
| Selection.FeasibleNoDoublePick | bot/wow_groups.py:190-193 | in a feasible selection, two selected cells of the same participant are the same cell |
| Selection.FeasibleRendering | bot/wow_groups.py:59-76 | the records of a feasible selection hold at most their capacity of members, exactly one heal and one tank each, and their commitments add up to the objective value |
| BotText.FormatMembers | bot/bot.py:287-289 | one line per member in order: indentation, dash, capitalised name, tab, role, line break |
| BotText.FormatGroup | bot/bot.py:282-291 | per group in order the header `Groupe <id>`, the member lines and a blank line; nothing for no group |
| BotText.GroupsTextEmpty | bot/bot.py:282-291 | the listing is empty exactly when there is no group |
| BotText.SingleGroupText | bot/bot.py:286-290 | the listing of one group is its header, its member lines and a blank line |
| BotText.DisplayPollResult | bot/bot.py:186-193 | the answer is the apology for a length-0 solution, otherwise the proposal followed by the listing |
| BotText.ApologyExactlyWhenEmpty | bot/bot.py:190-193 | the apology is chosen exactly when the solution has length 0, and that is exactly when its listing is empty, for the empty list and the empty mapping alike |
| BotText.DecimalRoundTrip | bot/bot.py:286 | the decimal digits printed for a group id read back as that id |
| BotText.NatToDecimal | bot/bot.py:286 | the printed id is a non-empty string of digits without a leading zero |
| BotText.CapitalizeIdempotent | bot/bot.py:288 | capitalising a name twice gives the same name as capitalising it once |
| Bot.PlayerFromReactions | bot/bot.py:51-73 | the six tests give the participant `PlayerOf` of the reactions: the name and the wishes |
| Bot.WishesFromReactions | bot/bot.py:55-72 | a role is wished exactly when its low or high reaction is present; the weight is 5 when the high one is present, else 2 |
| Bot.WishesAreRoles | bot/bot.py:55-72 | every wish of a participant built from reactions names dps, heal or tank, with a positive weight |
| Bot.LastPresentIsLast | bot/bot.py:54-73 | the name is the one recorded under the last present key, in the order dps_low, dps_high, heal_low, heal_high, tank_low, tank_high |
| Bot.LastPresentNone | bot/bot.py:54-73 | the name is the empty string when none of the six keys is present |
| Bot.FilterPlayersExact | bot/bot.py:74-75 | the kept participants are those of the poll's users whose name is not the bot's, and all of them are kept |
| Bot.Poll.FormatPlayersForGroupLib | bot/bot.py:44-77 | the participants of the users in insertion order, leaving out those named like the bot |
| Bot.Poll.IsPollOngoing | bot/bot.py:119-120 | a poll is ongoing exactly when its message is present and less than 3600 seconds have passed since its start |
| Bot.Poll.OngoingUntilExpiry | bot/bot.py:119-120 | a poll ongoing at some time was ongoing at every earlier time, and is no longer ongoing an hour after its start |
| Bot.Poll.IsReactionValid | bot/bot.py:158-180 | a reaction counts exactly when it is not the bot's own (if asked), a poll is ongoing (message present and less than 3600 s elapsed), it is on the poll message and its emoji is an accepted one |
| Bot.Poll.AddUserIfMissing | bot/bot.py:211-212 | a new user gets an empty entry at the end of the order; a known user is left as is |
| Bot.Poll.PruneUser | bot/bot.py:229-230 | a user with no reaction left is removed from the map and the order; otherwise nothing changes |
| Bot.Poll.StopPoll | bot/bot.py:221-225 | the participants are handed to the engine, its answer is kept, the reply is the answer text and the poll message is forgotten; the reactions are unchanged; the kept answer is the engine's: a list renders the backend's optimum for the answered count, the empty mapping follows a refusal at one group or none, and every larger count up to the estimate was refused |
| Bot.Poll.RecordReaction | bot/bot.py:211-218 | a role emoji adds the user if missing and records the member name under the emoji; the order gains the user at the end if new; other users are unchanged |
| Bot.Poll.StopByReaction | bot/bot.py:211-230 | a stop emoji hands the participants of the map with the user added to the engine, keeps its answer and writes the reply; the map and the order end as they were, less the user's entry if it was empty or missing |
| Bot.AddThenPrune | bot/bot.py:211-230 | adding a missing user with no reaction and pruning them again restores the map and the order, less an empty entry of the user |
| Bot.Poll.OnRawReactionAdd | bot/bot.py:202-230 | a rejected reaction changes nothing; a role emoji records the member name under it for the user, adding the user at the end of the order if new; a stop emoji stops the poll with the participants of the updated map and the engine's answer, and leaves the map and the order as they were, less an empty entry of the user; other users and the map/order consistency are kept |
| Bot.Poll.OnRawReactionRemove | bot/bot.py:239-254 | a rejected reaction changes nothing; for an unknown user the lookup fails and nothing changes; otherwise the emoji's key is deleted and the user is removed when no key is left; other users are unchanged |
| Bot.OrderAfterInsert | bot/bot.py:211-212 | a new key goes at the end of the insertion order, which stays duplicate-free and lists exactly the map's users |
| Bot.OrderAfterDelete | bot/bot.py:229-230 | deleting a key removes it from the insertion order, which stays consistent with the map |

## Left out

- The solver backend (OR-Tools with SCIP) is a foreign library. It is the oracle `solve`, and its search is not modelled.
- WowGroups.GetXPerItem: the backend's integer variables are not created; the method lists the (entry, group) cells that name them.
- `random.shuffle` draws from a random generator. The draws are the `choices` parameter, and every property of the member list is stated up to order.
- The numpy capacity array is a `seq<int>`. `math.floor` of an integer weight is the identity, so the weights are integers.
- `main`, hjson and the file read in `bot/wow_groups.py:258-268` are I/O.
- The Discord side of the bot is left out: `on_ready`, `fetch_emojis`, the `group` and `cancel` commands, `send`, `add_reaction`, the environment variables, logging, the random opening line and `bot.run`. The accepted emoji names and the poll message are fields of `Poll` that those commands would set.
- The handlers run one at a time; concurrency in the event loop and the global `poll` are not modelled.
- Bot.Poll.OnRawReactionAdd: the reply is returned as text rather than sent, and the reaction the bot adds to the poll message is not modelled.
- BotText.Capitalize: it works on ASCII letters only; Python's Unicode case mapping is not modelled.
- The group size must be at least 3. Sizes 0 and 2 divide by zero and size 1 with a dps entry builds an array of negative size; size 1 with no dps entry runs with an estimate of 0. None of these is modelled.
- The backend reports each variable's value as a float, and the source tests `x[i, j].solution_value() > 0` (`bot/wow_groups.py:67`). The model reads the answer as an exact 0/1 `Grid`, so rounding error in the backend's values is not modelled.
