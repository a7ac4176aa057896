/**
 * Model of src/player_utils.py: the per-player record (name, one rating per
 * surface, date of the last match, number of matches) and the store that maps
 * player ids to records.
 *
 * The first half is a value model: PlayerState and functions that say what
 * each operation does to a record or to the whole store. The second half is
 * the imperative model the source actually is: class Player holds the fields
 * of one record and class PlayerStore the dictionary of records; each method
 * changes them in place and its postcondition equates the new state with a
 * function of the first half.
 */
module PlayerUtils {
  import opened Wrappers

  type PlayerId = int
  type Surface = string

  /** A calendar date, counted in days. */
  type Date = int

  /** STARTING_RATING, also the literal rating of a new player. */
  const StartingRating: real := 1300.0

  /** The rating decay pulls toward (a literal 1300 in the source). */
  const DecayBaseline: real := 1300.0

  /** Days of inactivity after which decay starts, and after which it is strong. */
  const DecayThreshold: int := 365
  const StrongDecayThreshold: int := 730
  const DaysPerYear: real := 365.0

  const Surfaces: set<Surface> := {"Hard", "Clay", "Grass", "Carpet"}

  // ------------------------------------------------------------------------
  // Value model
  // ------------------------------------------------------------------------

  datatype PlayerState = PlayerState(
    name: string,
    ratings: map<Surface, real>,
    lastMatchDate: Option<Date>,
    totalMatches: nat)

  type Players = map<PlayerId, PlayerState>

  /** Every player has a rating on exactly the four surfaces. */
  ghost predicate AllSurfacesRated(players: Players) {
    forall id :: id in players ==> players[id].ratings.Keys == Surfaces
  }

  /** initialize_player: rated 1300 on each of the four surfaces, no match yet. */
  function InitialState(name: string): (p: PlayerState)
    ensures p.name == name
    ensures p.ratings.Keys == Surfaces
    ensures forall s :: s in p.ratings ==> p.ratings[s] == StartingRating
    ensures p.lastMatchDate == None && p.totalMatches == 0
  {
    PlayerState(
      name,
      map["Hard" := 1300.0, "Clay" := 1300.0, "Grass" := 1300.0, "Carpet" := 1300.0],
      None,
      0)
  }

  /** update_player_match_info: the date is overwritten, not maximised. */
  function AfterMatch(p: PlayerState, date: Date): (q: PlayerState)
    ensures q.lastMatchDate == Some(date)
    ensures q.totalMatches == p.totalMatches + 1
    ensures q.name == p.name && q.ratings == p.ratings
  {
    p.(lastMatchDate := Some(date), totalMatches := p.totalMatches + 1)
  }

  /** add_or_update_player on the whole store. */
  function AfterAddOrUpdate(players: Players, id: PlayerId, name: string, date: Date): (r: Players)
    ensures r.Keys == players.Keys + {id}
    ensures r[id].name == name
    ensures r[id].lastMatchDate == Some(date)
    ensures r[id].totalMatches == (if id in players then players[id].totalMatches else 0) + 1
    ensures r[id].ratings == if id in players then players[id].ratings else InitialState(name).ratings
    ensures forall other :: other in players && other != id ==> r[other] == players[other]
  {
    var p := if id !in players then InitialState(name) else players[id].(name := name);
    players[id := AfterMatch(p, date)]
  }

  /** get_player_rating: the stored rating, or STARTING_RATING for an unknown player or surface. */
  function RatingOf(players: Players, id: PlayerId, surface: Surface): (r: real)
    ensures id in players && surface in players[id].ratings ==> r == players[id].ratings[surface]
    ensures id !in players || surface !in players[id].ratings ==> r == StartingRating
  {
    if id in players then
      if surface in players[id].ratings then players[id].ratings[surface] else StartingRating
    else StartingRating
  }

  /** update_player_rating: add the change to one surface's rating. */
  function AfterRatingChange(p: PlayerState, surface: Surface, change: real): (q: PlayerState)
    requires surface in p.ratings
    ensures q.ratings.Keys == p.ratings.Keys
    ensures q.ratings[surface] == p.ratings[surface] + change
    ensures forall s :: s in p.ratings && s != surface ==> q.ratings[s] == p.ratings[s]
    ensures q.name == p.name && q.lastMatchDate == p.lastMatchDate && q.totalMatches == p.totalMatches
  {
    p.(ratings := p.ratings[surface := p.ratings[surface] + change])
  }

  /** One rating pulled toward the baseline by factor `f`. */
  function DecayToward(rating: real, f: real): (r: real)
    ensures rating == DecayBaseline ==> r == DecayBaseline
    ensures f == 1.0 ==> r == rating
    ensures f == 0.0 ==> r == DecayBaseline
  {
    DecayBaseline + (rating - DecayBaseline) * f
  }

  function DecayedRatings(ratings: map<Surface, real>, f: real): (r: map<Surface, real>)
    ensures r.Keys == ratings.Keys
    ensures forall s :: s in r ==> r[s] == DecayToward(ratings[s], f)
  {
    map s | s in ratings :: DecayToward(ratings[s], f)
  }

  /**
   * The decay factor of a player last seen on `last`, or None when the player
   * is left alone. `pow(x, y)` stands for Python's `x ** y`.
   */
  function DecayFactor(last: Option<Date>, today: Date, decayRate: real, strongDecayRate: real,
                       pow: (real, real) -> real): (r: Option<real>)
    ensures r == None <==> last == None || today - last.value <= DecayThreshold
    ensures r != None ==>
              var days := today - last.value;
              r.value == pow(if days > StrongDecayThreshold then strongDecayRate else decayRate, days as real / DaysPerYear)
  {
    match last
    case None => None
    case Some(d) =>
      var daysInactive := today - d;
      if daysInactive > DecayThreshold then
        if daysInactive > StrongDecayThreshold then Some(pow(strongDecayRate, daysInactive as real / DaysPerYear))
        else Some(pow(decayRate, daysInactive as real / DaysPerYear))
      else None
  }

  /** One player's share of apply_rating_decay: only the ratings can change. */
  function AfterDecay(p: PlayerState, today: Date, decayRate: real, strongDecayRate: real,
                      pow: (real, real) -> real): (q: PlayerState)
    ensures q.name == p.name && q.lastMatchDate == p.lastMatchDate && q.totalMatches == p.totalMatches
    ensures q.ratings.Keys == p.ratings.Keys
  {
    match DecayFactor(p.lastMatchDate, today, decayRate, strongDecayRate, pow)
    case None => p
    case Some(f) => p.(ratings := DecayedRatings(p.ratings, f))
  }

  /** apply_rating_decay on the whole store. */
  function AfterDecayAll(players: Players, today: Date, decayRate: real, strongDecayRate: real,
                         pow: (real, real) -> real): (r: Players)
    ensures r.Keys == players.Keys
  {
    map id | id in players :: AfterDecay(players[id], today, decayRate, strongDecayRate, pow)
  }

  // ------------------------------------------------------------------------
  // Properties of the value model
  // ------------------------------------------------------------------------

  /** A new player reads 1300 on every surface; an existing player's ratings read as before. */
  lemma RatingAfterAddOrUpdate(players: Players, id: PlayerId, name: string, date: Date, surface: Surface)
    ensures var r := AfterAddOrUpdate(players, id, name, date);
            RatingOf(r, id, surface) == RatingOf(players, id, surface)
            && (id !in players ==> RatingOf(r, id, surface) == StartingRating)
  {
  }

  /** Reading back a changed rating gives the old reading plus the change; other readings are untouched. */
  lemma RatingAfterRatingChange(players: Players, id: PlayerId, surface: Surface, change: real,
                                otherId: PlayerId, otherSurface: Surface)
    requires id in players && surface in players[id].ratings
    requires otherId != id || otherSurface != surface
    ensures var r := players[id := AfterRatingChange(players[id], surface, change)];
            RatingOf(r, id, surface) == RatingOf(players, id, surface) + change
            && RatingOf(r, otherId, otherSurface) == RatingOf(players, otherId, otherSurface)
  {
  }

  /** Adding or updating a player, changing a rating and decay keep every player rated on exactly the four surfaces. */
  lemma OperationsKeepAllSurfacesRated(players: Players, id: PlayerId, name: string, date: Date,
                                       surface: Surface, change: real,
                                       today: Date, decayRate: real, strongDecayRate: real,
                                       pow: (real, real) -> real)
    requires AllSurfacesRated(players)
    ensures AllSurfacesRated(AfterAddOrUpdate(players, id, name, date))
    ensures surface in Surfaces && id in players ==>
              AllSurfacesRated(players[id := AfterRatingChange(players[id], surface, change)])
    ensures AllSurfacesRated(AfterDecayAll(players, today, decayRate, strongDecayRate, pow))
  {
    var d := AfterDecayAll(players, today, decayRate, strongDecayRate, pow);
    forall k | k in d
      ensures d[k].ratings.Keys == Surfaces
    {
      assert d[k] == AfterDecay(players[k], today, decayRate, strongDecayRate, pow);
    }
  }

  /** A player never seen, or inactive for at most 365 days (or a negative number of days), is left unchanged. */
  lemma DecaySparesRecentPlayers(p: PlayerState, today: Date, decayRate: real, strongDecayRate: real,
                                 pow: (real, real) -> real)
    requires p.lastMatchDate == None || today - p.lastMatchDate.value <= DecayThreshold
    ensures AfterDecay(p, today, decayRate, strongDecayRate, pow) == p
  {
  }

  /** Past 730 days the strong rate applies, between 366 and 730 days the normal rate. */
  lemma DecayRateByInactivity(p: PlayerState, today: Date, decayRate: real, strongDecayRate: real,
                              pow: (real, real) -> real)
    requires p.lastMatchDate.Some?
    ensures var days := today - p.lastMatchDate.value;
            var q := AfterDecay(p, today, decayRate, strongDecayRate, pow);
            && (days > StrongDecayThreshold ==>
                  q.ratings == DecayedRatings(p.ratings, pow(strongDecayRate, days as real / DaysPerYear)))
            && (DecayThreshold < days <= StrongDecayThreshold ==>
                  q.ratings == DecayedRatings(p.ratings, pow(decayRate, days as real / DaysPerYear)))
  {
  }

  /** With a factor strictly between 0 and 1 a rating moves toward the baseline without passing it. */
  lemma DecayNoOvershoot(rating: real, f: real)
    requires 0.0 < f < 1.0
    ensures rating > DecayBaseline ==> DecayBaseline < DecayToward(rating, f) < rating
    ensures rating < DecayBaseline ==> rating < DecayToward(rating, f) < DecayBaseline
    ensures rating == DecayBaseline ==> DecayToward(rating, f) == DecayBaseline
  {
    PulledBetween(rating, f, DecayToward(rating, f));
  }

  lemma PulledBetween(rating: real, f: real, r: real)
    requires 0.0 < f < 1.0
    requires r == DecayBaseline + (rating - DecayBaseline) * f
    ensures rating > DecayBaseline ==> DecayBaseline < r < rating
    ensures rating < DecayBaseline ==> rating < r < DecayBaseline
    ensures rating == DecayBaseline ==> r == DecayBaseline
  {
    var gap := rating - DecayBaseline;
    var pulled := gap * f;
    ScaleStaysBetween(gap, f, pulled);
    assert r == DecayBaseline + pulled;
  }

  /** Scaling by a factor in (0, 1) keeps a value strictly between 0 and itself. */
  lemma ScaleStaysBetween(gap: real, f: real, scaled: real)
    requires 0.0 < f < 1.0 && scaled == gap * f
    ensures gap > 0.0 ==> 0.0 < scaled < gap
    ensures gap < 0.0 ==> gap < scaled < 0.0
    ensures gap == 0.0 ==> scaled == 0.0
  {
    var rest := 1.0 - f;
    assert gap - scaled == gap * rest;
    if gap > 0.0 {
      PositiveProduct(gap, f);
      PositiveProduct(gap, rest);
    } else if gap < 0.0 {
      PositiveProduct(-gap, f);
      PositiveProduct(-gap, rest);
      assert scaled == -((-gap) * f);
      assert gap - scaled == -((-gap) * rest);
    }
  }

  lemma PositiveProduct(x: real, y: real)
    requires x > 0.0 && y > 0.0
    ensures x * y > 0.0
  {
  }

  /** For the same inactivity, the smaller (strong) factor pulls strictly harder. */
  lemma SmallerFactorPullsHarder(rating: real, strong: real, normal: real)
    requires 0.0 < strong < normal < 1.0
    requires rating != DecayBaseline
    ensures rating > DecayBaseline ==> DecayToward(rating, strong) < DecayToward(rating, normal)
    ensures rating < DecayBaseline ==> DecayToward(rating, strong) > DecayToward(rating, normal)
  {
    var gap := rating - DecayBaseline;
    var d := normal - strong;
    assert DecayToward(rating, normal) - DecayToward(rating, strong) == gap * d;
    GapTimesPositive(gap, d);
  }

  lemma GapTimesPositive(gap: real, d: real)
    requires d > 0.0
    ensures gap > 0.0 ==> gap * d > 0.0
    ensures gap < 0.0 ==> gap * d < 0.0
  {
    if gap < 0.0 {
      assert (-gap) * d > 0.0;
      assert gap * d == -((-gap) * d);
    }
  }

  /** Two decays compose into one with the product of the factors. */
  lemma DecayCompounds(rating: real, f: real, g: real)
    ensures DecayToward(DecayToward(rating, f), g) == DecayToward(rating, f * g)
  {
    var gap := rating - DecayBaseline;
    assert (gap * f) * g == gap * (f * g);
  }

  /**
   * A second decay pass with the same date finds the same inactivity and
   * applies the factor again: the ratings end up decayed by f * f.
   */
  lemma SecondDecayCompounds(p: PlayerState, today: Date, decayRate: real, strongDecayRate: real,
                             pow: (real, real) -> real, f: real)
    requires DecayFactor(p.lastMatchDate, today, decayRate, strongDecayRate, pow) == Some(f)
    ensures var once := AfterDecay(p, today, decayRate, strongDecayRate, pow);
            AfterDecay(once, today, decayRate, strongDecayRate, pow).ratings == DecayedRatings(p.ratings, f * f)
  {
    var once := AfterDecay(p, today, decayRate, strongDecayRate, pow);
    var twice := AfterDecay(once, today, decayRate, strongDecayRate, pow);
    forall s | s in p.ratings
      ensures twice.ratings[s] == DecayToward(p.ratings[s], f * f)
    {
      DecayCompounds(p.ratings[s], f, f);
    }
  }

  /** So the second pass is not a no-op once some rating is off the baseline. */
  lemma SecondDecayIsNotNoOp(p: PlayerState, today: Date, decayRate: real, strongDecayRate: real,
                             pow: (real, real) -> real, f: real, s: Surface)
    requires DecayFactor(p.lastMatchDate, today, decayRate, strongDecayRate, pow) == Some(f)
    requires 0.0 < f < 1.0
    requires s in p.ratings && p.ratings[s] != DecayBaseline
    ensures var once := AfterDecay(p, today, decayRate, strongDecayRate, pow);
            AfterDecay(once, today, decayRate, strongDecayRate, pow) != once
  {
    var once := AfterDecay(p, today, decayRate, strongDecayRate, pow);
    var r := DecayToward(p.ratings[s], f);
    assert once.ratings[s] == r;
    assert r != DecayBaseline by {
      DecayNoOvershoot(p.ratings[s], f);
    }
    DecayNoOvershoot(r, f);
    assert AfterDecay(once, today, decayRate, strongDecayRate, pow).ratings[s] == DecayToward(r, f);
  }

  /**
   * With rates in (0, 1) and `pow` mapping such a base and a positive exponent
   * into (0, 1), a player inactive for more than 365 days has every rating
   * pulled strictly toward the baseline, never past it.
   */
  lemma DecayPullsTowardBaseline(p: PlayerState, today: Date, decayRate: real, strongDecayRate: real,
                                 pow: (real, real) -> real, s: Surface)
    requires 0.0 < decayRate < 1.0 && 0.0 < strongDecayRate < 1.0
    requires forall x: real, y: real :: 0.0 < x < 1.0 && y > 0.0 ==> 0.0 < pow(x, y) < 1.0
    requires p.lastMatchDate.Some? && today - p.lastMatchDate.value > DecayThreshold
    requires s in p.ratings
    ensures var before := p.ratings[s];
            var after := AfterDecay(p, today, decayRate, strongDecayRate, pow).ratings[s];
            && (before > DecayBaseline ==> DecayBaseline < after < before)
            && (before < DecayBaseline ==> before < after < DecayBaseline)
            && (before == DecayBaseline ==> after == DecayBaseline)
  {
    var days := today - p.lastMatchDate.value;
    var y := days as real / DaysPerYear;
    assert y > 0.0;
    var f := if days > StrongDecayThreshold then pow(strongDecayRate, y) else pow(decayRate, y);
    assert 0.0 < f < 1.0;
    assert DecayFactor(p.lastMatchDate, today, decayRate, strongDecayRate, pow) == Some(f);
    DecayNoOvershoot(p.ratings[s], f);
  }

  // ------------------------------------------------------------------------
  // Imperative model: the records and the dictionary, updated in place
  // ------------------------------------------------------------------------

  /** One player's dictionary. */
  class Player {
    var name: string
    var ratings: map<Surface, real>
    var lastMatchDate: Option<Date>
    var totalMatches: nat

    function State(): PlayerState
      reads this
    {
      PlayerState(name, ratings, lastMatchDate, totalMatches)
    }

    /** initialize_player */
    constructor (name: string)
      ensures State() == InitialState(name)
    {
      this.name := name;
      ratings := map["Hard" := 1300.0, "Clay" := 1300.0, "Grass" := 1300.0, "Carpet" := 1300.0];
      lastMatchDate := None;
      totalMatches := 0;
    }

    /** update_player_match_info */
    method UpdateMatchInfo(date: Date)
      modifies this
      ensures State() == AfterMatch(old(State()), date)
    {
      lastMatchDate := Some(date);
      totalMatches := totalMatches + 1;
    }

    /** update_player_rating; the surface must already be rated (else KeyError). */
    method UpdateRating(surface: Surface, ratingChange: real)
      requires surface in ratings
      modifies this
      ensures State() == AfterRatingChange(old(State()), surface, ratingChange)
    {
      ratings := ratings[surface := ratings[surface] + ratingChange];
    }

    /** The inner loop of apply_rating_decay: every surface's rating, one by one. */
    method DecayRatings(f: real)
      modifies this
      ensures State() == old(State()).(ratings := DecayedRatings(old(ratings), f))
    {
      var pending := ratings.Keys;
      while pending != {}
        invariant ratings.Keys == old(ratings).Keys && pending <= ratings.Keys
        invariant forall s :: s in ratings ==>
                    ratings[s] == if s in pending then old(ratings)[s] else DecayToward(old(ratings)[s], f)
        invariant name == old(name) && lastMatchDate == old(lastMatchDate) && totalMatches == old(totalMatches)
        decreases pending
      {
        var surface :| surface in pending;
        var currentRating := ratings[surface];
        ratings := ratings[surface := 1300.0 + (currentRating - 1300.0) * f];
        pending := pending - {surface};
      }
    }
  }

  /** `players_dict`: player id to record, with its insertion order. */
  class PlayerStore {
    var players: map<PlayerId, Player>
    /** The keys of `players` in insertion order, the order a Python dict iterates in. */
    var order: seq<PlayerId>

    /** Each id is listed once, the listed ids are the keys, and no two ids share a record. */
    ghost predicate Valid()
      reads this
    {
      && (forall i, j :: 0 <= i < j < |order| ==> order[i] != order[j])
      && (forall id :: id in players <==> id in order)
      && (forall a, b :: a in players && b in players && a != b ==> players[a] != players[b])
    }

    /** The records' current values. */
    ghost function View(): Players
      reads this, players.Values
    {
      map id | id in players :: players[id].State()
    }

    constructor ()
      ensures Valid() && players == map[] && order == [] && View() == map[]
    {
      players := map[];
      order := [];
    }

    /** add_or_update_player */
    method AddOrUpdatePlayer(id: PlayerId, name: string, date: Date)
      requires Valid()
      modifies this, players.Values
      ensures Valid()
      ensures View() == AfterAddOrUpdate(old(View()), id, name, date)
      ensures order == if id in old(players) then old(order) else old(order) + [id]
      ensures forall other :: other in old(players) ==> other in players && players[other] == old(players[other])
      ensures id !in old(players) ==> fresh(players[id])
    {
      if id !in players {
        var p := new Player(name);
        players := players[id := p];
        order := order + [id];
      } else {
        var p := players[id];
        p.name := name;
      }
      var p := players[id];
      p.UpdateMatchInfo(date);
      ghost var expected := AfterAddOrUpdate(old(View()), id, name, date);
      assert forall k :: k in players && k != id ==> players[k] == old(players[k]) && players[k] != p;
      assert View().Keys == expected.Keys;
      forall k | k in View()
        ensures View()[k] == expected[k]
      {
        if k != id {
          assert players[k].State() == old(players[k].State());
        }
      }
      assert View() == expected;
    }

    /**
     * apply_rating_decay at day `today` (the source's default is the current
     * time); `pow(x, y)` stands for Python's `x ** y`.
     */
    method ApplyRatingDecay(today: Date, decayRate: real, strongDecayRate: real, pow: (real, real) -> real)
      requires Valid()
      modifies players.Values
      ensures View() == AfterDecayAll(old(View()), today, decayRate, strongDecayRate, pow)
    {
      for i := 0 to |order|
        invariant Valid()
        invariant forall id :: id in players ==>
                    players[id].State() == if id in order[..i]
                                           then AfterDecay(old(players[id].State()), today, decayRate, strongDecayRate, pow)
                                           else old(players[id].State())
      {
        var id := order[i];
        assert order[..i + 1] == order[..i] + [id];
        assert id !in order[..i];
        var playerData := players[id];
        label BeforeDecay:
        DecayPlayer(playerData, today, decayRate, strongDecayRate, pow);
        forall k | k in players && k != id
          ensures players[k].State() == old@BeforeDecay(players[k].State())
        {
          assert players[k] != playerData;
        }
      }
      assert order[..|order|] == order;
      ghost var expected := AfterDecayAll(old(View()), today, decayRate, strongDecayRate, pow);
      assert View().Keys == expected.Keys;
      forall k | k in View()
        ensures View()[k] == expected[k]
      {
        assert k in order;
      }
    }
  }

  /** The body of apply_rating_decay's outer loop, for one player's record. */
  method DecayPlayer(playerData: Player, today: Date, decayRate: real, strongDecayRate: real,
                     pow: (real, real) -> real)
    modifies playerData
    ensures playerData.State() == AfterDecay(old(playerData.State()), today, decayRate, strongDecayRate, pow)
  {
    if playerData.lastMatchDate.Some? {
      var daysInactive := today - playerData.lastMatchDate.value;
      if daysInactive > 365 {
        var decayFactor;
        if daysInactive > 730 {
          decayFactor := pow(strongDecayRate, daysInactive as real / 365.0);
        } else {
          decayFactor := pow(decayRate, daysInactive as real / 365.0);
        }
        playerData.DecayRatings(decayFactor);
      }
    }
  }
}
