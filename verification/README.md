# Match creation and slot occupancy of the md-api serializers

A Dafny model of the one piece of behaviour in the users app's serializers
of a match-organising web API. The core is small: about fifteen lines of
Python.

- `MatchSerializer.create` stores a match. It then writes one open player
  slot per position for team 1, numbered `1..player_count`, and then the same
  for team 2.
- `MatchSerializer.get_team_1_players` / `get_team_2_players` count the
  slots of a team of the match that have a player.
- `PlayerSlotSerializer.get_player_username` maps the optional player of a
  slot to an optional username.

The database is a value `Store` with a match table, a slot table kept in
insertion order, and the next primary key the database will issue. `Valid`
says every key in use was issued earlier. The ORM's
`filter(match=…, team=…, player__isnull=…)` is a `SlotQuery` record of
optional lookups, and `count()` is the length of the filtered sequence.

Modules, one per concern:

- `Records` (records.dfy): `User`, `Match`, `PlayerSlot`, `Option`.
- `SlotQueries` (slot_queries.dfy): the query, filter and count, with their
  algebra: concatenation, monotonicity, single-row update, and the count
  as the number of matching rows.
- `SlotGeneration` (slot_generation.dfy): the slots the two loops of
  `create` write, as a pure function, and their properties.
- `PlayerSlotSerializer` (player_slot_serializer.dfy): `player_username`.
- `MatchSerializer` (match_serializer.dfy): `create` as a method whose two
  loops are those of `create`, the occupancy counts, and player assignment.

`player_count` is an `int` here. The loops are Python's
`range(1, player_count + 1)`, which is empty when the count is below 1, so a
count of zero or less creates no slots. The models file that constrains the
field is not part of this model. Callers are expected to pass a positive
count; the code accepts any integer, and the model follows the code.

## Model

| member | source | states |
|---|---|---|
| SlotQueries.Filter | users/serializers.py:59-63 | a filtered query returns only rows of the table that pass every given lookup, and returns every such row |
| SlotQueries.CountIsMatchingRows | users/serializers.py:59-63 | a filtered query returns as many rows as there are table positions whose row passes it |
| SlotQueries.FilterMultiset | users/serializers.py:60-63 | a filter keeps every stored copy of each row that passes it and no copy of any other row |
| SlotQueries.Count | users/serializers.py:60-63 | `count()` of a filter is the number of table positions whose row passes every given lookup, at most the table size |
| SlotQueries.CountUpdate | users/serializers.py:59-63 | overwriting one row changes a count by exactly what the old and new rows contribute |
| SlotGeneration.TeamRun | users/serializers.py:69-74 | one creation loop writes n slots, the i-th holding slot number i+1 of that team and match, with no player |
| SlotGeneration.Generated | users/serializers.py:65-82 | creation writes 2·P slots (none when P < 1): the P team-1 slots numbered 1..P first, then the P team-2 slots numbered 1..P |
| SlotGeneration.GeneratedShape | users/serializers.py:69-81 | every generated slot references the new match, is on team 1 or 2, has no player, and every team-1 slot precedes every team-2 slot |
| SlotGeneration.TeamView | users/serializers.py:69-81 | filtering the generated slots by team gives exactly that team's loop output |
| SlotGeneration.TeamSizes | users/serializers.py:65-82 | exactly P slots have team 1, exactly P have team 2, and none has any other team |
| SlotGeneration.TeamNumbering | users/serializers.py:69-81 | within each team the slot numbers are strictly ascending and form exactly the set 1..P |
| SlotGeneration.NoneClaimed | users/serializers.py:70-81 | no generated slot has a player, so every team's player count over them is 0 |
| PlayerSlotSerializer.PlayerUsername | users/serializers.py:35-36 | the username is present exactly when the slot has a player, and is then that player's username |
| MatchSerializer.PlayerSlots | users/serializers.py:40 | a match's `player_slots` holds exactly the stored slots whose match is that match, each stored row as many times as it is stored |
| MatchSerializer.Team1Players | users/serializers.py:59-60 | `team_1_players` is the number of stored slots of the match on team 1 with a player |
| MatchSerializer.Team2Players | users/serializers.py:62-63 | `team_2_players` is the number of stored slots of the match on team 2 with a player |
| MatchSerializer.TeamPlayers | users/serializers.py:59-63 | a team's player count is the number of stored slots of that match and team with a player, and never exceeds that team's slot count |
| MatchSerializer.Create | users/serializers.py:65-82 | the match gets the next key; the slot table grows by the generated slots in loop order; the store stays well formed; the match's slots are exactly the generated ones; both counts are 0 |
| MatchSerializer.CreatedStore | users/serializers.py:65-82 | on a well-formed store, creation keeps it well formed, the new match owns exactly the generated slots, and both team counts are 0 |
| MatchSerializer.NewMatchSlots | users/serializers.py:65-82 | generated slots appended to a table with no row of the new match are exactly that match's `player_slots` |
| MatchSerializer.NewMatchUnclaimed | users/serializers.py:59-82 | in that table, no team of the new match has a player |
| MatchSerializer.AssignPlayer | users/serializers.py:35-36 | claiming a slot sets only that slot's player to the user, keeping its match, team and number, so its `player_username` becomes the user's username |
| MatchSerializer.AssignPlayerCounts | users/serializers.py:59-63 | claiming a slot raises the count of its team in its match by one if the slot was open, and leaves every other count unchanged |
| MatchSerializer.AssignTeamOneSlot | users/serializers.py:59-63 | filling an open team-1 slot raises `team_1_players` by one and leaves `team_2_players` unchanged |
| MatchSerializer.OneASideScenario | users/serializers.py:59-82 | creating a match with player count 1 and filling its team-1 slot gives `team_1_players` 1, `team_2_players` 0, and the user's name on that slot |

## Left out

- `UserSerializer`, `DisciplineSerializer`, `MatchDetailSerializer` and every `Meta` field list (users/serializers.py:5-25, 30-33, 44-57, 87-92). They only declare fields and have no behaviour.
- Match payload: place, coordinates (floats), date/time, formation and field type. These values pass through unchanged. A match is reduced to its key and its player count.
- The ORM: `super().create`, `PlayerSlot.objects.create` and queryset `filter`/`count` are operations on the in-memory `Store`. Key issuing is the `nextId` counter.
- Partial failure: each slot write is a separate database write with no transaction. A storage error part-way through would leave fewer than 2·P slots. The model has no storage errors, so it does not represent that window.
- Request validation, JSON rendering and the HTTP lifecycle of the web framework. These are framework code outside this model.
- MatchSerializer.AssignPlayer: assigning a player happens in an endpoint outside this file. This function stands in for that update only so that the count and username properties can be stated. Unassignment is not modelled.
- MatchSerializer.PlayerSlots: the read order of `player_slots` is taken to be insertion order. The file sets no ordering for the relation, and the slot model's own ordering is not part of this model. So the sequence equalities in `MatchSerializer.Create` and `MatchSerializer.NewMatchSlots` fix an order; the program guarantees the same rows only up to order.
