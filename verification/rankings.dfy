/**
 * Model of src/rankings.py: the top players on one surface, and the players
 * of the store that appear in the current rankings. The rankings file is not
 * read: its column of player ids is passed in.
 */
module Rankings {
  import opened Wrappers
  import opened PlayerUtils

  /** The match count get_top_players_by_surface demands (a literal 20 in the source). */
  const RankingMinMatches: nat := 20

  /** One row of the top-players list. */
  datatype RankedEntry = RankedEntry(
    playerId: PlayerId,
    name: string,
    rating: real,
    lastMatch: Option<Date>,
    totalMatches: nat)

  // ------------------------------------------------------------------------
  // Building the list of eligible players
  // ------------------------------------------------------------------------

  /** Every player with enough matches is rated on `surface` (else the lookup raises KeyError). */
  ghost predicate RatedWhereRanked(players: Players, surface: Surface) {
    forall id :: id in players && players[id].totalMatches >= RankingMinMatches ==> surface in players[id].ratings
  }

  predicate Listed(players: Players, ids: seq<PlayerId>) {
    forall k :: 0 <= k < |ids| ==> ids[k] in players
  }

  /** The row built for a player: id, name, surface rating, last match date, match count. */
  function EntryOf(id: PlayerId, p: PlayerState, surface: Surface): RankedEntry
    requires surface in p.ratings
  {
    RankedEntry(id, p.name, p.ratings[surface], p.lastMatchDate, p.totalMatches)
  }

  /** The rows the loop appends while walking `ids`, the store's keys in dict order. */
  function EligibleEntries(players: Players, ids: seq<PlayerId>, surface: Surface): (rows: seq<RankedEntry>)
    requires Listed(players, ids) && RatedWhereRanked(players, surface)
    ensures forall e :: e in rows <==>
              e.playerId in ids && e.playerId in players
              && players[e.playerId].totalMatches >= RankingMinMatches
              && e == EntryOf(e.playerId, players[e.playerId], surface)
  {
    if ids == [] then []
    else
      var before := EligibleEntries(players, ids[..|ids| - 1], surface);
      var id := ids[|ids| - 1];
      assert forall x :: x in ids <==> x in ids[..|ids| - 1] || x == id;
      if players[id].totalMatches >= RankingMinMatches then before + [EntryOf(id, players[id], surface)]
      else before
  }

  /** No id occurs twice (true of a dict's keys). */
  predicate NoDuplicates(ids: seq<PlayerId>) {
    forall i, j :: 0 <= i < j < |ids| ==> ids[i] != ids[j]
  }

  /** No player has two rows. */
  predicate DistinctIds(rows: seq<RankedEntry>) {
    forall i, j :: 0 <= i < j < |rows| ==> rows[i].playerId != rows[j].playerId
  }

  /** The players of `ids` with enough matches to be ranked. */
  function EligibleIds(players: Players, ids: seq<PlayerId>): set<PlayerId> {
    set id | id in ids && id in players && players[id].totalMatches >= RankingMinMatches
  }

  /** The position of `id` in `ids`: the last one, the only one when no id occurs twice. */
  function IndexIn(ids: seq<PlayerId>, id: PlayerId): (k: nat)
    requires id in ids
    ensures k < |ids| && ids[k] == id
    ensures forall m :: k < m < |ids| ==> ids[m] != id
  {
    if ids[|ids| - 1] == id then |ids| - 1
    else
      assert id in ids[..|ids| - 1];
      IndexIn(ids[..|ids| - 1], id)
  }

  /** Every row's player is in `ids`, and the rows come in the order of `ids`. */
  ghost predicate InKeyOrder(rows: seq<RankedEntry>, ids: seq<PlayerId>) {
    && (forall k :: 0 <= k < |rows| ==> rows[k].playerId in ids)
    && forall i, j :: 0 <= i < j < |rows| ==> IndexIn(ids, rows[i].playerId) < IndexIn(ids, rows[j].playerId)
  }

  /**
   * The rows follow the order of `ids` (dict order): that order is what the
   * stable sort keeps among equal ratings, so it decides which of two equally
   * rated players survives the cut at `top_n`.
   */
  lemma {:induction false} EligibleEntriesInKeyOrder(players: Players, ids: seq<PlayerId>, surface: Surface)
    requires Listed(players, ids) && RatedWhereRanked(players, surface)
    requires NoDuplicates(ids)
    ensures InKeyOrder(EligibleEntries(players, ids, surface), ids)
  {
    if ids != [] {
      var init, id := ids[..|ids| - 1], ids[|ids| - 1];
      assert forall k :: 0 <= k < |init| ==> init[k] == ids[k];
      EligibleEntriesInKeyOrder(players, init, surface);
      var before := EligibleEntries(players, init, surface);
      assert id !in init by {
        forall k | 0 <= k < |init|
          ensures init[k] != id
        {
          assert ids[k] != ids[|ids| - 1];
        }
      }
      assert ids == init + [id];
      var added := if players[id].totalMatches >= RankingMinMatches then [EntryOf(id, players[id], surface)] else [];
      assert EligibleEntries(players, ids, surface) == before + added;
      KeyOrderExtends(before, init, id, added);
    }
  }

  /** Appending at most one row, for a new last id, keeps rows in key order. */
  lemma KeyOrderExtends(before: seq<RankedEntry>, init: seq<PlayerId>, id: PlayerId, added: seq<RankedEntry>)
    requires InKeyOrder(before, init)
    requires id !in init
    requires |added| <= 1 && forall e :: e in added ==> e.playerId == id
    ensures InKeyOrder(before + added, init + [id])
  {
    var ids, rows := init + [id], before + added;
    assert ids[..|ids| - 1] == init;
    forall x | x in init
      ensures IndexIn(ids, x) == IndexIn(init, x)
    {
      assert x != id;
    }
    forall k | 0 <= k < |rows|
      ensures rows[k].playerId in ids
    {
      if k >= |before| { assert rows[k] in added; }
    }
    forall i, j | 0 <= i < j < |rows|
      ensures IndexIn(ids, rows[i].playerId) < IndexIn(ids, rows[j].playerId)
    {
      assert rows[i] == before[i];
      if j < |before| {
        assert rows[j] == before[j];
      } else {
        assert rows[j] in added;
        assert IndexIn(init, rows[i].playerId) < |init|;
      }
    }
  }

  /** Walking distinct ids gives one row per eligible player, and no player twice. */
  lemma {:induction false} EligibleEntriesOnePerPlayer(players: Players, ids: seq<PlayerId>, surface: Surface)
    requires Listed(players, ids) && RatedWhereRanked(players, surface)
    requires NoDuplicates(ids)
    ensures DistinctIds(EligibleEntries(players, ids, surface))
    ensures |EligibleEntries(players, ids, surface)| == |EligibleIds(players, ids)|
  {
    if ids != [] {
      var init, id := ids[..|ids| - 1], ids[|ids| - 1];
      assert forall k :: 0 <= k < |init| ==> init[k] == ids[k];
      EligibleEntriesOnePerPlayer(players, init, surface);
      assert id !in init;
      var before := EligibleEntries(players, init, surface);
      assert forall x :: x in ids <==> x in init || x == id;
      if players[id].totalMatches >= RankingMinMatches {
        assert EligibleIds(players, ids) == EligibleIds(players, init) + {id};
        assert id !in EligibleIds(players, init);
        var rows := before + [EntryOf(id, players[id], surface)];
        forall i, j | 0 <= i < j < |rows|
          ensures rows[i].playerId != rows[j].playerId
        {
          assert rows[i] == before[i];
          if j < |before| {
            assert rows[j] == before[j];
          } else {
            assert before[i] in before;
          }
        }
      } else {
        assert EligibleIds(players, ids) == EligibleIds(players, init);
      }
    }
  }

  // ------------------------------------------------------------------------
  // list.sort(key=rating, reverse=True)
  // ------------------------------------------------------------------------

  predicate SortedByRatingDesc(s: seq<RankedEntry>) {
    forall i, j :: 0 <= i < j < |s| ==> s[i].rating >= s[j].rating
  }

  /** Place `e` after every leading entry rated at least as high. */
  function InsertByRating(e: RankedEntry, s: seq<RankedEntry>): seq<RankedEntry>
  {
    if s == [] then [e]
    else if s[0].rating >= e.rating then [s[0]] + InsertByRating(e, s[1..])
    else [e] + s
  }

  /** Python's stable sort by rating, descending: insertion of each entry in list order. */
  function SortByRatingDesc(s: seq<RankedEntry>): seq<RankedEntry>
  {
    if s == [] then []
    else InsertByRating(s[|s| - 1], SortByRatingDesc(s[..|s| - 1]))
  }

  /** Every entry of `s` is rated at most `bound`. */
  predicate AllAtMost(s: seq<RankedEntry>, bound: real) {
    forall k :: 0 <= k < |s| ==> s[k].rating <= bound
  }

  lemma SortedTail(s: seq<RankedEntry>)
    requires s != [] && SortedByRatingDesc(s)
    ensures SortedByRatingDesc(s[1..]) && AllAtMost(s, s[0].rating)
  {
    forall k | 0 < k < |s|
      ensures s[k].rating <= s[0].rating
    {
    }
  }

  lemma {:induction false} InsertByRatingBelow(e: RankedEntry, s: seq<RankedEntry>, bound: real)
    requires AllAtMost(s, bound) && e.rating <= bound
    ensures AllAtMost(InsertByRating(e, s), bound)
  {
    if s != [] && s[0].rating >= e.rating {
      InsertByRatingBelow(e, s[1..], bound);
    }
  }

  lemma {:induction false} InsertByRatingCount(e: RankedEntry, s: seq<RankedEntry>)
    ensures multiset(InsertByRating(e, s)) == multiset(s) + multiset{e}
    ensures |InsertByRating(e, s)| == |s| + 1
  {
    if s != [] && s[0].rating >= e.rating {
      InsertByRatingCount(e, s[1..]);
      assert s == [s[0]] + s[1..];
    }
  }

  lemma {:induction false} InsertByRatingSorted(e: RankedEntry, s: seq<RankedEntry>)
    requires SortedByRatingDesc(s)
    ensures SortedByRatingDesc(InsertByRating(e, s))
  {
    if s == [] {
    } else if s[0].rating >= e.rating {
      SortedTail(s);
      var rest := InsertByRating(e, s[1..]);
      InsertByRatingSorted(e, s[1..]);
      InsertByRatingBelow(e, s[1..], s[0].rating);
      var r := [s[0]] + rest;
      forall i, j | 0 <= i < j < |r|
        ensures r[i].rating >= r[j].rating
      {
        assert r[j] == rest[j - 1];
        if i > 0 {
          assert r[i] == rest[i - 1];
        }
      }
    } else {
      SortedTail(s);
      var r := [e] + s;
      forall i, j | 0 <= i < j < |r|
        ensures r[i].rating >= r[j].rating
      {
        assert r[j] == s[j - 1];
        if i > 0 {
          assert r[i] == s[i - 1];
        }
      }
    }
  }

  /** The sort orders by rating, descending. */
  lemma {:induction false} SortByRatingDescSorted(s: seq<RankedEntry>)
    ensures SortedByRatingDesc(SortByRatingDesc(s))
  {
    if s != [] {
      SortByRatingDescSorted(s[..|s| - 1]);
      InsertByRatingSorted(s[|s| - 1], SortByRatingDesc(s[..|s| - 1]));
    }
  }

  /** The sort keeps every entry exactly once. */
  lemma {:induction false} SortByRatingDescPermutes(s: seq<RankedEntry>)
    ensures multiset(SortByRatingDesc(s)) == multiset(s)
    ensures |SortByRatingDesc(s)| == |s|
  {
    if s != [] {
      var init := s[..|s| - 1];
      SortByRatingDescPermutes(init);
      InsertByRatingCount(s[|s| - 1], SortByRatingDesc(init));
      assert s == init + [s[|s| - 1]];
    }
  }

  lemma {:induction false} InsertByRatingDistinct(e: RankedEntry, s: seq<RankedEntry>)
    requires DistinctIds(s)
    requires forall k :: 0 <= k < |s| ==> s[k].playerId != e.playerId
    ensures DistinctIds(InsertByRating(e, s))
  {
    var r := InsertByRating(e, s);
    if s == [] {
    } else if s[0].rating >= e.rating {
      var tail := s[1..];
      var rest := InsertByRating(e, tail);
      assert forall k :: 0 <= k < |tail| ==> tail[k] == s[k + 1];
      InsertByRatingDistinct(e, tail);
      InsertByRatingCount(e, tail);
      forall k | 0 <= k < |rest|
        ensures rest[k].playerId != s[0].playerId
      {
        assert rest[k] in multiset(rest);
        if rest[k] != e {
          assert rest[k] in multiset(tail);
          var m :| 0 <= m < |tail| && tail[m] == rest[k];
          assert s[m + 1] == rest[k];
        }
      }
      forall i, j | 0 <= i < j < |r|
        ensures r[i].playerId != r[j].playerId
      {
        assert r[j] == rest[j - 1];
        if i > 0 {
          assert r[i] == rest[i - 1];
        }
      }
    } else {
      forall i, j | 0 <= i < j < |r|
        ensures r[i].playerId != r[j].playerId
      {
        assert r[j] == s[j - 1];
        if i > 0 {
          assert r[i] == s[i - 1];
        }
      }
    }
  }

  /** Sorting a list with one row per player keeps one row per player. */
  lemma {:induction false} SortByRatingDescDistinct(s: seq<RankedEntry>)
    requires DistinctIds(s)
    ensures DistinctIds(SortByRatingDesc(s))
  {
    if s != [] {
      var init, last := s[..|s| - 1], s[|s| - 1];
      assert forall k :: 0 <= k < |init| ==> init[k] == s[k];
      SortByRatingDescDistinct(init);
      SortByRatingDescPermutes(init);
      var sortedInit := SortByRatingDesc(init);
      forall k | 0 <= k < |sortedInit|
        ensures sortedInit[k].playerId != last.playerId
      {
        assert sortedInit[k] in multiset(init);
        var m :| 0 <= m < |init| && init[m] == sortedInit[k];
      }
      InsertByRatingDistinct(last, sortedInit);
    }
  }

  /** The entries of `s` rated exactly `x`, in order. */
  function RatedExactly(s: seq<RankedEntry>, x: real): seq<RankedEntry>
  {
    if s == [] then []
    else (if s[0].rating == x then [s[0]] else []) + RatedExactly(s[1..], x)
  }

  lemma {:induction false} RatedExactlyAppend(a: seq<RankedEntry>, b: seq<RankedEntry>, x: real)
    ensures RatedExactly(a + b, x) == RatedExactly(a, x) + RatedExactly(b, x)
  {
    if a != [] {
      assert (a + b)[1..] == a[1..] + b;
      RatedExactlyAppend(a[1..], b, x);
    } else {
      assert a + b == b;
    }
  }

  lemma {:induction false} RatedExactlyNone(s: seq<RankedEntry>, bound: real, x: real)
    requires AllAtMost(s, bound) && bound < x
    ensures RatedExactly(s, x) == []
  {
    if s != [] {
      assert s[0].rating <= bound;
      assert AllAtMost(s[1..], bound) by {
        forall k | 0 <= k < |s[1..]|
          ensures s[1..][k].rating <= bound
        {
          assert s[1..][k] == s[k + 1];
        }
      }
      RatedExactlyNone(s[1..], bound, x);
    }
  }

  lemma {:induction false} InsertByRatingStable(e: RankedEntry, s: seq<RankedEntry>, x: real)
    requires SortedByRatingDesc(s)
    ensures RatedExactly(InsertByRating(e, s), x)
         == RatedExactly(s, x) + (if e.rating == x then [e] else [])
  {
    var tail := if e.rating == x then [e] else [];
    if s == [] {
    } else if s[0].rating >= e.rating {
      var head := if s[0].rating == x then [s[0]] else [];
      SortedTail(s);
      InsertByRatingStable(e, s[1..], x);
      var rest := InsertByRating(e, s[1..]);
      var r := [s[0]] + rest;
      assert r[1..] == rest;
      assert RatedExactly(r, x) == head + RatedExactly(rest, x);
      assert RatedExactly(s, x) == head + RatedExactly(s[1..], x);
    } else {
      var r := [e] + s;
      assert r[1..] == s;
      assert RatedExactly(r, x) == tail + RatedExactly(s, x);
      if e.rating == x {
        SortedTail(s);
        RatedExactlyNone(s, s[0].rating, x);
      }
    }
  }

  /** The sort is stable: entries with equal ratings keep their relative order. */
  lemma {:induction false} SortByRatingDescStable(s: seq<RankedEntry>, x: real)
    ensures RatedExactly(SortByRatingDesc(s), x) == RatedExactly(s, x)
  {
    if s != [] {
      var init, last := s[..|s| - 1], s[|s| - 1];
      var sortedInit := SortByRatingDesc(init);
      var tail := if last.rating == x then [last] else [];
      SortByRatingDescStable(init, x);
      SortByRatingDescSorted(init);
      InsertByRatingStable(last, sortedInit, x);
      assert RatedExactly([last], x) == tail by {
        assert [last][1..] == [];
      }
      assert s == init + [last];
      RatedExactlyAppend(init, [last], x);
      calc {
        RatedExactly(SortByRatingDesc(s), x);
        RatedExactly(InsertByRating(last, sortedInit), x);
        RatedExactly(sortedInit, x) + tail;
        RatedExactly(init, x) + tail;
        RatedExactly(s, x);
      }
    }
  }

  // ------------------------------------------------------------------------
  // Slicing
  // ------------------------------------------------------------------------

  /** Python's `s[:n]`, a negative `n` counting from the end. */
  function PySlicePrefix<T>(s: seq<T>, n: int): (r: seq<T>)
    ensures n >= 0 ==> |r| == if n <= |s| then n else |s|
    ensures n < 0 ==> |r| == if -n <= |s| then |s| + n else 0
    ensures r == s[..|r|]
  {
    if n >= 0 then (if n <= |s| then s[..n] else s)
    else if -n <= |s| then s[..|s| + n]
    else []
  }

  // ------------------------------------------------------------------------
  // get_top_players_by_surface
  // ------------------------------------------------------------------------

  /** The result of get_top_players_by_surface on a store's values and key order. */
  function TopPlayers(players: Players, order: seq<PlayerId>, surface: Surface, topN: int): seq<RankedEntry>
    requires Listed(players, order) && RatedWhereRanked(players, surface)
  {
    PySlicePrefix(SortByRatingDesc(EligibleEntries(players, order, surface)), topN)
  }

  /**
   * What the top list promises: only players with at least 20 matches, their
   * rows copied from the store, best rating first, `min(topN, eligible)` of
   * them, and nobody left out rated above anybody kept.
   */
  lemma TopPlayersCorrect(players: Players, order: seq<PlayerId>, surface: Surface, topN: int)
    requires Listed(players, order) && RatedWhereRanked(players, surface)
    ensures var eligible := EligibleEntries(players, order, surface);
            var top := TopPlayers(players, order, surface, topN);
            && SortedByRatingDesc(top)
            && (topN >= 0 ==> |top| == if topN <= |eligible| then topN else |eligible|)
            && (forall e :: e in top ==> e in eligible)
            && (forall e, t :: e in eligible && e !in top && t in top ==> e.rating <= t.rating)
  {
    var eligible := EligibleEntries(players, order, surface);
    var sorted := SortByRatingDesc(eligible);
    SortByRatingDescSorted(eligible);
    SortByRatingDescPermutes(eligible);
    var top := TopPlayers(players, order, surface, topN);
    assert top == sorted[..|top|];
    forall e | e in top
      ensures e in eligible
    {
      assert e in multiset(sorted);
    }
    forall e, t | e in eligible && e !in top && t in top
      ensures e.rating <= t.rating
    {
      assert e in multiset(sorted);
      var j :| 0 <= j < |sorted| && sorted[j] == e;
      var i :| 0 <= i < |top| && top[i] == t;
    }
  }

  /**
   * Over a dict's keys (no id twice) the top list names each player at most
   * once and holds `min(topN, number of players with at least 20 matches)` rows.
   */
  lemma TopPlayersOnePerPlayer(players: Players, order: seq<PlayerId>, surface: Surface, topN: int)
    requires Listed(players, order) && RatedWhereRanked(players, surface)
    requires NoDuplicates(order)
    ensures var top := TopPlayers(players, order, surface, topN);
            var eligibleCount := |EligibleIds(players, order)|;
            && DistinctIds(top)
            && (topN >= 0 ==> |top| == if topN <= eligibleCount then topN else eligibleCount)
  {
    var eligible := EligibleEntries(players, order, surface);
    EligibleEntriesOnePerPlayer(players, order, surface);
    SortByRatingDescDistinct(eligible);
    SortByRatingDescPermutes(eligible);
  }

  /** get_top_players_by_surface; the store is only read. */
  method GetTopPlayersBySurface(store: PlayerStore, surface: Surface, topN: int) returns (top: seq<RankedEntry>)
    requires store.Valid()
    requires RatedWhereRanked(store.View(), surface)
    ensures Listed(store.View(), store.order)
    ensures top == TopPlayers(store.View(), store.order, surface, topN)
    ensures SortedByRatingDesc(top)
    ensures DistinctIds(top)
    ensures topN >= 0 ==> |top| == if topN <= |EligibleIds(store.View(), store.order)| then topN
                                   else |EligibleIds(store.View(), store.order)|
    ensures forall e :: e in top ==>
              e.playerId in store.View() && store.View()[e.playerId].totalMatches >= RankingMinMatches
              && e == EntryOf(e.playerId, store.View()[e.playerId], surface)
  {
    ghost var players := store.View();
    assert Listed(players, store.order) by {
      forall k | 0 <= k < |store.order|
        ensures store.order[k] in players
      {
        assert store.order[k] in store.order;
      }
    }
    var surfaceRatings: seq<RankedEntry> := [];
    for i := 0 to |store.order|
      invariant Listed(players, store.order[..i])
      invariant surfaceRatings == EligibleEntries(players, store.order[..i], surface)
    {
      var playerId := store.order[i];
      assert store.order[..i + 1][..i] == store.order[..i];
      var playerData := store.players[playerId];
      assert players[playerId] == playerData.State();
      if playerData.totalMatches >= 20 {
        surfaceRatings := surfaceRatings + [RankedEntry(playerId, playerData.name, playerData.ratings[surface],
                                                        playerData.lastMatchDate, playerData.totalMatches)];
      }
    }
    assert store.order[..|store.order|] == store.order;
    var sorted := SortByRatingDesc(surfaceRatings);
    top := PySlicePrefix(sorted, topN);
    TopPlayersCorrect(players, store.order, surface, topN);
    TopPlayersOnePerPlayer(players, store.order, surface, topN);
  }

  // ------------------------------------------------------------------------
  // get_active_players_from_rankings
  // ------------------------------------------------------------------------

  /** `Series.unique()`: each id once, in order of first appearance. */
  function Unique(column: seq<PlayerId>): (u: seq<PlayerId>)
    ensures forall i, j :: 0 <= i < j < |u| ==> u[i] != u[j]
    ensures forall id :: id in u <==> id in column
  {
    if column == [] then []
    else
      var u := Unique(column[..|column| - 1]);
      var last := column[|column| - 1];
      assert forall id :: id in column <==> id in column[..|column| - 1] || id == last;
      if last in u then u else u + [last]
  }

  /**
   * The intersection loop of get_active_players_from_rankings, given the
   * rankings file's column of player ids. The result shares the store's
   * records; `foundCount` is the count the source prints.
   */
  method GetActivePlayersFromRankings(store: PlayerStore, rankingsColumn: seq<PlayerId>)
    returns (activePlayers: map<PlayerId, Player>, foundCount: nat)
    ensures activePlayers.Keys == set id | id in rankingsColumn && id in store.players
    ensures forall id :: id in activePlayers ==> activePlayers[id] == store.players[id]
    ensures foundCount == |activePlayers|
  {
    var uniquePlayerIds := Unique(rankingsColumn);
    activePlayers := map[];
    foundCount := 0;
    for i := 0 to |uniquePlayerIds|
      invariant activePlayers.Keys == set id | id in uniquePlayerIds[..i] && id in store.players
      invariant forall id :: id in activePlayers ==> activePlayers[id] == store.players[id]
      invariant foundCount == |activePlayers|
    {
      var playerId := uniquePlayerIds[i];
      assert uniquePlayerIds[..i + 1] == uniquePlayerIds[..i] + [playerId];
      if playerId in store.players {
        assert playerId !in activePlayers;
        activePlayers := activePlayers[playerId := store.players[playerId]];
        foundCount := foundCount + 1;
      }
    }
    assert uniquePlayerIds[..|uniquePlayerIds|] == uniquePlayerIds;
  }
}
