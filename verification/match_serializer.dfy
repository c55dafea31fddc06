/** `MatchSerializer`: match creation with automatic slot provisioning, and
    the per-team occupancy counts it reports on read. The database is an
    in-memory store whose tables keep rows in insertion order. */
module MatchSerializer {
  import opened Records
  import opened SlotQueries
  import opened SlotGeneration
  import opened PlayerSlotSerializer

  /** The match and player-slot tables, with the next primary key the
      database hands out for a match. */
  datatype Store = Store(matches: seq<Match>, slots: seq<PlayerSlot>, nextId: nat)

  /** Every key in use was handed out earlier, so `nextId` is fresh. */
  ghost predicate Valid(st: Store) {
    && (forall i :: 0 <= i < |st.matches| ==> st.matches[i].id < st.nextId)
    && (forall i :: 0 <= i < |st.slots| ==> st.slots[i].matchId < st.nextId)
  }

  /** `match.player_slots`: the stored slots that belong to `m`. */
  function PlayerSlots(st: Store, m: Match): (r: seq<PlayerSlot>)
    ensures forall s :: s in r <==> s in st.slots && s.matchId == m.id
    ensures forall s :: multiset(r)[s] == if s.matchId == m.id then multiset(st.slots)[s] else 0
    ensures |r| <= |st.slots|
  {
    FilterMultisetAll(st.slots, MatchQuery(m.id));
    Filter(st.slots, MatchQuery(m.id))
  }

  /** The common body of `get_team_1_players` and `get_team_2_players`: how
      many slots of `team` in `m` have a player. */
  function TeamPlayers(st: Store, m: Match, team: int): (n: nat)
    ensures n == |set i | 0 <= i < |st.slots| && st.slots[i].matchId == m.id
                          && st.slots[i].team == team && st.slots[i].player.Some?|
    ensures n <= Count(st.slots, TeamQuery(m.id, team))
  {
    assert Matching(st.slots, PlayersQuery(m.id, team))
        == set i | 0 <= i < |st.slots| && st.slots[i].matchId == m.id
                   && st.slots[i].team == team && st.slots[i].player.Some?;
    CountMonotone(st.slots, PlayersQuery(m.id, team), TeamQuery(m.id, team));
    Count(st.slots, PlayersQuery(m.id, team))
  }

  /** `get_team_1_players`. */
  function Team1Players(st: Store, m: Match): (n: nat)
    ensures n == |set i | 0 <= i < |st.slots| && st.slots[i].matchId == m.id
                          && st.slots[i].team == TeamOne && st.slots[i].player.Some?|
  {
    TeamPlayers(st, m, TeamOne)
  }

  /** `get_team_2_players`. */
  function Team2Players(st: Store, m: Match): (n: nat)
    ensures n == |set i | 0 <= i < |st.slots| && st.slots[i].matchId == m.id
                          && st.slots[i].team == TeamTwo && st.slots[i].player.Some?|
  {
    TeamPlayers(st, m, TeamTwo)
  }

  /** `create`: store the match under a fresh key, then one open slot per
      position for team 1, numbered upwards from 1, then the same for team 2. */
  method Create(st: Store, playerCount: int) returns (m: Match, st': Store)
    ensures m == Match(st.nextId, playerCount)
    ensures st'.matches == st.matches + [m] && st'.nextId == st.nextId + 1
    ensures st'.slots == st.slots + Generated(m.id, playerCount)
    ensures Valid(st) ==> Valid(st')
    ensures Valid(st) ==> PlayerSlots(st', m) == Generated(m.id, playerCount)
    ensures Valid(st) ==> Team1Players(st', m) == 0 && Team2Players(st', m) == 0
  {
    m := Match(st.nextId, playerCount);
    var n := RangeLen(playerCount);
    var slots := st.slots;

    var slotNumber := 1;
    while slotNumber < playerCount + 1
      invariant 1 <= slotNumber <= n + 1
      invariant slots == st.slots + TeamRun(m.id, TeamOne, slotNumber - 1)
    {
      slots := slots + [PlayerSlot(m.id, TeamOne, slotNumber, None)];
      slotNumber := slotNumber + 1;
    }
    var afterTeamOne := slots;

    slotNumber := 1;
    while slotNumber < playerCount + 1
      invariant 1 <= slotNumber <= n + 1
      invariant slots == afterTeamOne + TeamRun(m.id, TeamTwo, slotNumber - 1)
    {
      slots := slots + [PlayerSlot(m.id, TeamTwo, slotNumber, None)];
      slotNumber := slotNumber + 1;
    }

    st' := Store(st.matches + [m], slots, st.nextId + 1);
    CreatedStore(st, playerCount);
  }

  /** What `Create` leaves behind on a well-formed store: the store stays
      well-formed and the new match owns exactly the generated slots. */
  lemma CreatedStore(st: Store, playerCount: int)
    ensures var m := Match(st.nextId, playerCount);
            var st' := Store(st.matches + [m], st.slots + Generated(m.id, playerCount), st.nextId + 1);
            && (Valid(st) ==> Valid(st'))
            && (Valid(st) ==> PlayerSlots(st', m) == Generated(m.id, playerCount))
            && (Valid(st) ==> Team1Players(st', m) == 0 && Team2Players(st', m) == 0)
  {
    var m := Match(st.nextId, playerCount);
    var g := Generated(m.id, playerCount);
    var st' := Store(st.matches + [m], st.slots + g, st.nextId + 1);
    if Valid(st) {
      GeneratedShape(m.id, playerCount);
      NewMatchSlots(st.slots, m.id, playerCount);
      NewMatchUnclaimed(st.slots, m.id, playerCount, TeamOne);
      NewMatchUnclaimed(st.slots, m.id, playerCount, TeamTwo);
      assert forall i :: 0 <= i < |st'.slots| ==> st'.slots[i].matchId < st'.nextId by {
        forall i | 0 <= i < |st'.slots|
          ensures st'.slots[i].matchId < st'.nextId
        {
          if i >= |st.slots| {
            assert st'.slots[i] == g[i - |st.slots|];
          }
        }
      }
    }
  }

  /** Once appended to a table that holds no slot of the new match, the
      generated slots are exactly that match's `player_slots`. */
  lemma NewMatchSlots(existing: seq<PlayerSlot>, matchId: nat, playerCount: int)
    requires forall i :: 0 <= i < |existing| ==> existing[i].matchId < matchId
    ensures Filter(existing + Generated(matchId, playerCount), MatchQuery(matchId))
         == Generated(matchId, playerCount)
  {
    FilterAppended(existing, Generated(matchId, playerCount), MatchQuery(matchId));
  }

  /** In the same table no team of the new match has a player yet. */
  lemma NewMatchUnclaimed(existing: seq<PlayerSlot>, matchId: nat, playerCount: int, team: int)
    requires forall i :: 0 <= i < |existing| ==> existing[i].matchId < matchId
    ensures Count(existing + Generated(matchId, playerCount), PlayersQuery(matchId, team)) == 0
  {
    FilterConcat(existing, Generated(matchId, playerCount), PlayersQuery(matchId, team));
    FilterDropsAll(existing, PlayersQuery(matchId, team));
    NoneClaimed(matchId, playerCount, team);
  }

  /** Claiming stored slot `i` for user `u`. The serializers only read
      assignments; this update stands for the endpoints that make them. */
  function AssignPlayer(st: Store, i: nat, u: User): (st': Store)
    requires i < |st.slots|
    ensures st'.matches == st.matches && st'.nextId == st.nextId
    ensures |st'.slots| == |st.slots|
    ensures st'.slots[i] == PlayerSlot(st.slots[i].matchId, st.slots[i].team, st.slots[i].slotNumber, Some(u))
    ensures PlayerUsername(st'.slots[i]) == Some(u.username)
    ensures forall j :: 0 <= j < |st.slots| && j != i ==> st'.slots[j] == st.slots[j]
  {
    st.(slots := st.slots[i := st.slots[i].(player := Some(u))])
  }

  /** Slot `s` is an open slot of `team` in `m`. */
  predicate IsOpenSlot(s: PlayerSlot, m: Match, team: int) {
    s.matchId == m.id && s.team == team && s.player.None?
  }

  /** Claiming a slot raises the count of its own team in its own match by
      one when the slot was open, and leaves every other count unchanged. */
  lemma AssignPlayerCounts(st: Store, i: nat, u: User, m: Match, team: int)
    requires i < |st.slots|
    ensures TeamPlayers(AssignPlayer(st, i, u), m, team)
         == TeamPlayers(st, m, team) + (if IsOpenSlot(st.slots[i], m, team) then 1 else 0)
  {
    CountUpdate(st.slots, i, st.slots[i].(player := Some(u)), PlayersQuery(m.id, team));
  }

  /** Filling an open team-1 slot of `m` raises `team_1_players` by one,
      leaves `team_2_players` as it was, and shows the user's name on the slot. */
  lemma AssignTeamOneSlot(st: Store, i: nat, u: User, m: Match)
    requires i < |st.slots|
    requires st.slots[i].matchId == m.id && st.slots[i].team == TeamOne && st.slots[i].player.None?
    ensures Team1Players(AssignPlayer(st, i, u), m) == Team1Players(st, m) + 1
    ensures Team2Players(AssignPlayer(st, i, u), m) == Team2Players(st, m)
    ensures PlayerUsername(AssignPlayer(st, i, u).slots[i]) == Some(u.username)
  {
    AssignPlayerCounts(st, i, u, m, TeamOne);
    AssignPlayerCounts(st, i, u, m, TeamTwo);
  }

  /** A one-a-side match: after creation and after a user takes the single
      team-1 slot, team 1 reports one player, team 2 none, and the slot
      shows the user's name. */
  lemma OneASideScenario(st: Store, u: User)
    requires Valid(st)
    ensures var m := Match(st.nextId, 1);
            var created := Store(st.matches + [m], st.slots + Generated(m.id, 1), st.nextId + 1);
            var claimed := AssignPlayer(created, |st.slots|, u);
            && Team1Players(claimed, m) == 1
            && Team2Players(claimed, m) == 0
            && PlayerUsername(claimed.slots[|st.slots|]) == Some(u.username)
  {
    var m := Match(st.nextId, 1);
    var created := Store(st.matches + [m], st.slots + Generated(m.id, 1), st.nextId + 1);
    NewMatchUnclaimed(st.slots, m.id, 1, TeamOne);
    NewMatchUnclaimed(st.slots, m.id, 1, TeamTwo);
    assert created.slots[|st.slots|] == PlayerSlot(m.id, TeamOne, 1, None);
    AssignTeamOneSlot(created, |st.slots|, u, m);
  }
}
