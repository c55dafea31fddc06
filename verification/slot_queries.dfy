/** Queries over the player-slot table: the ORM's `filter(...)` with keyword
    lookups on the match, the team and `player__isnull`, and `count()`,
    evaluated over an in-memory sequence of rows kept in insertion order. */
module SlotQueries {
  import opened Records

  /** The keyword lookups of one `filter` call; `None` means the keyword is
      not given. `playerIsNull` is the `player__isnull` lookup. */
  datatype SlotQuery = SlotQuery(matchId: Option<nat>, team: Option<int>, playerIsNull: Option<bool>)

  /** A row passes a filter when it agrees with every lookup that is given. */
  predicate Satisfies(q: SlotQuery, s: PlayerSlot) {
    && (q.matchId.Some? ==> s.matchId == q.matchId.value)
    && (q.team.Some? ==> s.team == q.team.value)
    && (q.playerIsNull.Some? ==> (s.player.None? <==> q.playerIsNull.value))
  }

  /** `match.player_slots`: the slots whose foreign key is the match. */
  function MatchQuery(matchId: nat): SlotQuery {
    SlotQuery(Some(matchId), None, None)
  }

  /** `match.player_slots.filter(team=team)`. */
  function TeamQuery(matchId: nat, team: int): SlotQuery {
    SlotQuery(Some(matchId), Some(team), None)
  }

  /** `match.player_slots.filter(team=team, player__isnull=False)`. */
  function PlayersQuery(matchId: nat, team: int): SlotQuery {
    SlotQuery(Some(matchId), Some(team), Some(false))
  }

  /** The rows of `slots` that pass `q`, in table order. */
  function Filter(slots: seq<PlayerSlot>, q: SlotQuery): (r: seq<PlayerSlot>)
    ensures |r| <= |slots|
    ensures forall s :: s in r ==> s in slots && Satisfies(q, s)
    ensures forall s :: s in slots && Satisfies(q, s) ==> s in r
    decreases |slots|
  {
    if |slots| == 0 then []
    else
      var init := slots[..|slots| - 1];
      var last := slots[|slots| - 1];
      assert slots == init + [last];
      Filter(init, q) + (if Satisfies(q, last) then [last] else [])
  }

  /** The positions of the rows that pass `q`: the reference meaning of a count. */
  ghost function Matching(slots: seq<PlayerSlot>, q: SlotQuery): set<int> {
    set i | 0 <= i < |slots| && Satisfies(q, slots[i])
  }

  /** The rows of a non-empty table that pass `q` are those of its first
      `|slots| - 1` rows, plus the last position when its row passes. */
  lemma MatchingSnoc(slots: seq<PlayerSlot>, q: SlotQuery)
    requires |slots| > 0
    ensures var n := |slots| - 1;
            Matching(slots, q) == Matching(slots[..n], q) + (if Satisfies(q, slots[n]) then {n} else {})
  {
  }

  /** A filtered query returns one row per position whose row passes it. */
  lemma {:induction false} CountIsMatchingRows(slots: seq<PlayerSlot>, q: SlotQuery)
    ensures |Filter(slots, q)| == |Matching(slots, q)|
    decreases |slots|
  {
    if |slots| > 0 {
      var n := |slots| - 1;
      var init := slots[..n];
      CountIsMatchingRows(init, q);
      MatchingSnoc(slots, q);
      assert n !in Matching(init, q);
    }
  }

  /** `count()` of a filtered query: how many rows pass it. */
  function Count(slots: seq<PlayerSlot>, q: SlotQuery): (n: nat)
    ensures n == |Matching(slots, q)|
    ensures n <= |slots|
  {
    CountIsMatchingRows(slots, q);
    |Filter(slots, q)|
  }

  /** Filtering a table made of two parts filters each part in turn. */
  lemma {:induction false} FilterConcat(a: seq<PlayerSlot>, b: seq<PlayerSlot>, q: SlotQuery)
    ensures Filter(a + b, q) == Filter(a, q) + Filter(b, q)
    decreases |b|
  {
    if |b| == 0 {
      assert a + b == a;
    } else {
      var b' := b[..|b| - 1];
      assert (a + b)[..|a + b| - 1] == a + b';
      assert (a + b)[|a + b| - 1] == b[|b| - 1];
      FilterConcat(a, b', q);
    }
  }

  /** A filter every row passes returns the whole table. */
  lemma {:induction false} FilterKeepsAll(slots: seq<PlayerSlot>, q: SlotQuery)
    requires forall i :: 0 <= i < |slots| ==> Satisfies(q, slots[i])
    ensures Filter(slots, q) == slots
    decreases |slots|
  {
    if |slots| > 0 {
      var init := slots[..|slots| - 1];
      FilterKeepsAll(init, q);
      assert slots == init + [slots[|slots| - 1]];
    }
  }

  /** A filter keeps every copy of each row that passes it and no copy of
      any other row. */
  lemma {:induction false} FilterMultiset(slots: seq<PlayerSlot>, q: SlotQuery, s: PlayerSlot)
    ensures multiset(Filter(slots, q))[s] == if Satisfies(q, s) then multiset(slots)[s] else 0
    decreases |slots|
  {
    if |slots| > 0 {
      var init := slots[..|slots| - 1];
      var last := slots[|slots| - 1];
      FilterMultiset(init, q, s);
      assert slots == init + [last];
      assert multiset(slots) == multiset(init) + multiset{last};
    }
  }

  /** `FilterMultiset` for every row at once. */
  lemma FilterMultisetAll(slots: seq<PlayerSlot>, q: SlotQuery)
    ensures forall s :: multiset(Filter(slots, q))[s] == if Satisfies(q, s) then multiset(slots)[s] else 0
  {
    forall s
      ensures multiset(Filter(slots, q))[s] == if Satisfies(q, s) then multiset(slots)[s] else 0
    {
      FilterMultiset(slots, q, s);
    }
  }

  /** A filter no row passes returns nothing. */
  lemma {:induction false} FilterDropsAll(slots: seq<PlayerSlot>, q: SlotQuery)
    requires forall i :: 0 <= i < |slots| ==> !Satisfies(q, slots[i])
    ensures Filter(slots, q) == []
    decreases |slots|
  {
    if |slots| > 0 {
      FilterDropsAll(slots[..|slots| - 1], q);
    }
  }

  /** Appending rows that all pass a filter to rows that all fail it: the
      filter returns exactly the appended rows. */
  lemma FilterAppended(before: seq<PlayerSlot>, added: seq<PlayerSlot>, q: SlotQuery)
    requires forall i :: 0 <= i < |before| ==> !Satisfies(q, before[i])
    requires forall i :: 0 <= i < |added| ==> Satisfies(q, added[i])
    ensures Filter(before + added, q) == added
  {
    FilterConcat(before, added, q);
    FilterDropsAll(before, q);
    FilterKeepsAll(added, q);
  }

  /** Adding lookups to a filter can only lower its count. */
  lemma {:induction false} CountMonotone(slots: seq<PlayerSlot>, narrow: SlotQuery, wide: SlotQuery)
    requires forall s :: Satisfies(narrow, s) ==> Satisfies(wide, s)
    ensures Count(slots, narrow) <= Count(slots, wide)
    decreases |slots|
  {
    if |slots| > 0 {
      CountMonotone(slots[..|slots| - 1], narrow, wide);
    }
  }

  /** A one-row table passes the filter exactly when its row does. */
  lemma FilterSingle(s: PlayerSlot, q: SlotQuery)
    ensures Filter([s], q) == if Satisfies(q, s) then [s] else []
  {
  }

  /** Overwriting row `i` changes a count only by what the old and the new
      row contribute. */
  lemma {:induction false} CountUpdate(slots: seq<PlayerSlot>, i: nat, x: PlayerSlot, q: SlotQuery)
    requires i < |slots|
    ensures Count(slots[i := x], q) + (if Satisfies(q, slots[i]) then 1 else 0)
         == Count(slots, q) + (if Satisfies(q, x) then 1 else 0)
  {
    var pre, post := slots[..i], slots[i + 1..];
    assert slots == pre + [slots[i]] + post;
    assert slots[i := x] == pre + [x] + post;
    FilterConcat(pre + [slots[i]], post, q);
    FilterConcat(pre, [slots[i]], q);
    FilterConcat(pre + [x], post, q);
    FilterConcat(pre, [x], q);
    FilterSingle(slots[i], q);
    FilterSingle(x, q);
  }
}
