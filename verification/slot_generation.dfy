/** The slots `MatchSerializer.create` writes for a new match: one loop over
    `range(1, player_count + 1)` for team 1, then the same loop for team 2. */
module SlotGeneration {
  import opened Records
  import opened SlotQueries

  /** How many values Python's `range(1, playerCount + 1)` yields. */
  function RangeLen(playerCount: int): nat {
    if playerCount < 1 then 0 else playerCount
  }

  /** The numbers 1..n. */
  function OneTo(n: nat): (r: set<int>)
    ensures forall k :: k in r <==> 1 <= k <= n
    decreases n
  {
    if n == 0 then {} else OneTo(n - 1) + {n}
  }

  /** The slots one loop writes for `team`: slot numbers 1..n, ascending, all open. */
  function TeamRun(matchId: nat, team: int, n: nat): (r: seq<PlayerSlot>)
    ensures |r| == n
    ensures forall i :: 0 <= i < n ==> r[i] == PlayerSlot(matchId, team, i + 1, None)
    decreases n
  {
    if n == 0 then []
    else TeamRun(matchId, team, n - 1) + [PlayerSlot(matchId, team, n, None)]
  }

  /** Everything creation writes for match `matchId` with `playerCount` players per team. */
  function Generated(matchId: nat, playerCount: int): (r: seq<PlayerSlot>)
    ensures |r| == 2 * RangeLen(playerCount)
    ensures playerCount < 1 ==> r == []
    ensures forall i :: 0 <= i < RangeLen(playerCount) ==>
              r[i] == PlayerSlot(matchId, TeamOne, i + 1, None)
    ensures forall i :: RangeLen(playerCount) <= i < |r| ==>
              r[i] == PlayerSlot(matchId, TeamTwo, i - RangeLen(playerCount) + 1, None)
  {
    var n := RangeLen(playerCount);
    TeamRun(matchId, TeamOne, n) + TeamRun(matchId, TeamTwo, n)
  }

  /** Every generated slot belongs to the new match, is on team 1 or team 2,
      and is open; every team-1 slot comes before every team-2 slot. */
  lemma GeneratedShape(matchId: nat, playerCount: int)
    ensures forall s :: s in Generated(matchId, playerCount) ==>
              s.matchId == matchId && (s.team == TeamOne || s.team == TeamTwo) && s.player == None
    ensures var r := Generated(matchId, playerCount);
            forall i, j :: 0 <= i < |r| && 0 <= j < |r| && r[i].team == TeamTwo && r[j].team == TeamOne ==> j < i
  {
  }

  /** Seen through `filter(team=t)`, the generated slots of either team are
      exactly that team's loop. */
  lemma TeamView(matchId: nat, playerCount: int, team: int)
    requires team == TeamOne || team == TeamTwo
    ensures Filter(Generated(matchId, playerCount), TeamQuery(matchId, team))
         == TeamRun(matchId, team, RangeLen(playerCount))
  {
    var n := RangeLen(playerCount);
    var q := TeamQuery(matchId, team);
    var one, two := TeamRun(matchId, TeamOne, n), TeamRun(matchId, TeamTwo, n);
    FilterConcat(one, two, q);
    if team == TeamOne {
      FilterKeepsAll(one, q);
      FilterDropsAll(two, q);
    } else {
      FilterDropsAll(one, q);
      FilterKeepsAll(two, q);
    }
  }

  /** Creation yields `playerCount` slots per team and no slot of any other team. */
  lemma TeamSizes(matchId: nat, playerCount: int)
    ensures Count(Generated(matchId, playerCount), TeamQuery(matchId, TeamOne)) == RangeLen(playerCount)
    ensures Count(Generated(matchId, playerCount), TeamQuery(matchId, TeamTwo)) == RangeLen(playerCount)
    ensures forall t :: t != TeamOne && t != TeamTwo ==>
              Count(Generated(matchId, playerCount), TeamQuery(matchId, t)) == 0
  {
    TeamView(matchId, playerCount, TeamOne);
    TeamView(matchId, playerCount, TeamTwo);
    GeneratedShape(matchId, playerCount);
    forall t | t != TeamOne && t != TeamTwo
      ensures Count(Generated(matchId, playerCount), TeamQuery(matchId, t)) == 0
    {
      FilterDropsAll(Generated(matchId, playerCount), TeamQuery(matchId, t));
    }
  }

  /** Within either team the slot numbers are 1..playerCount in ascending
      order: each number of that range occurs, and occurs once. */
  lemma TeamNumbering(matchId: nat, playerCount: int, team: int)
    requires team == TeamOne || team == TeamTwo
    ensures var ts := Filter(Generated(matchId, playerCount), TeamQuery(matchId, team));
            && (forall i :: 0 <= i < |ts| ==> 1 <= ts[i].slotNumber <= RangeLen(playerCount))
            && (forall i, j :: 0 <= i < j < |ts| ==> ts[i].slotNumber < ts[j].slotNumber)
            && (set i | 0 <= i < |ts| :: ts[i].slotNumber) == OneTo(RangeLen(playerCount))
  {
    TeamView(matchId, playerCount, team);
    var ts := Filter(Generated(matchId, playerCount), TeamQuery(matchId, team));
    var numbers := set i | 0 <= i < |ts| :: ts[i].slotNumber;
    forall k | k in OneTo(RangeLen(playerCount))
      ensures k in numbers
    {
      assert ts[k - 1].slotNumber == k;
    }
  }

  /** No generated slot has a player, so neither team count starts above zero. */
  lemma NoneClaimed(matchId: nat, playerCount: int, team: int)
    ensures Count(Generated(matchId, playerCount), PlayersQuery(matchId, team)) == 0
  {
    GeneratedShape(matchId, playerCount);
    FilterDropsAll(Generated(matchId, playerCount), PlayersQuery(matchId, team));
  }
}
