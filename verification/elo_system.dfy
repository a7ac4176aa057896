/**
 * Model of the rating arithmetic of src/elo_system.py: the tournament-level
 * weight table, the margin-of-victory multiplier and the ELO update.
 *
 * Ratings are exact reals. The expected score 1 / (1 + 10^((b - a) / 400))
 * is not computed: the update takes its value as an input, a probability
 * strictly between 0 and 1.
 */
module EloSystem {
  import opened Wrappers
  import ScoreParsing

  // ------------------------------------------------------------------------
  // tournament_weight
  // ------------------------------------------------------------------------

  /** tournament_weight: Grand Slams 1.5, Masters 1.25, 'A' and 'D' 1, anything else 1.0. */
  function TournamentWeight(level: string): (w: real)
    ensures w == 1.0 || w == 1.25 || w == 1.5
    ensures w >= 1.0
    ensures w == 1.5 <==> level == "G"
    ensures w == 1.25 <==> level == "M"
  {
    if level == "G" then 1.5
    else if level == "A" || level == "D" then 1.0
    else if level == "M" then 1.25
    else 1.0
  }

  // ------------------------------------------------------------------------
  // mov_multiplier
  // ------------------------------------------------------------------------

  /** The band of the winner's share of the games. */
  function ShareMultiplier(share: real): (m: real)
    ensures m == 0.9 || m == 1.0 || m == 1.1 || m == 1.2
    ensures m >= 1.0 <==> share >= 0.55
    ensures m > 1.0 <==> share >= 0.65
  {
    if share >= 0.75 then 1.2
    else if share >= 0.65 then 1.1
    else if share >= 0.55 then 1.0
    else 0.9
  }

  /** The multiplier for a match the winner won `winner` games to `loser`; neutral when no games were played. */
  function GamesMultiplier(winner: nat, loser: nat): (m: real)
    ensures m == 0.9 || m == 1.0 || m == 1.1 || m == 1.2
    ensures winner + loser == 0 ==> m == 1.0
  {
    var total := winner + loser;
    if total == 0 then 1.0
    else ShareMultiplier(winner as real / total as real)
  }

  /** mov_multiplier: neutral (1.0) when the score gives no game counts, banded otherwise. */
  function MovMultiplier(score: Option<string>): (m: real)
    ensures m == 0.9 || m == 1.0 || m == 1.1 || m == 1.2
    ensures ScoreParsing.ScoreGames(score) == None ==> m == 1.0
    ensures ScoreParsing.ScoreGames(score) == Some(ScoreParsing.GameCounts(0, 0)) ==> m == 1.0
  {
    match ScoreParsing.ScoreGames(score)
    case None => 1.0
    case Some(g) => GamesMultiplier(g.winner, g.loser)
  }

  /** For a positive total, a share comparison is an integer cross-multiplication. */
  lemma ShareAtLeast(w: nat, t: nat, num: nat, den: nat)
    requires t > 0 && den > 0
    ensures (w as real / t as real >= num as real / den as real) <==> den * w >= num * t
  {
    var share := w as real / t as real;
    var bound := num as real / den as real;
    assert share * t as real == w as real;
    assert bound * den as real == num as real;
    if den * w >= num * t {
      assert (den * w) as real >= (num * t) as real;
      assert share * (t * den) as real >= bound * (t * den) as real;
      MultiplyBack(share, bound, (t * den) as real);
    } else {
      assert (den * w) as real < (num * t) as real;
      assert share * (t * den) as real < bound * (t * den) as real;
      MultiplyBack(bound, share, (t * den) as real);
    }
  }

  lemma MultiplyBack(x: real, y: real, c: real)
    requires c > 0.0 && x * c >= y * c
    ensures x >= y
  {
  }

  /**
   * The bands in integers: 4w >= 3t gives 1.2, 20w >= 13t gives 1.1,
   * 20w >= 11t gives 1.0, and 0.9 otherwise, where t = w + l > 0.
   */
  lemma GamesMultiplierByCounts(w: nat, l: nat)
    requires w + l > 0
    ensures var t := w + l;
            GamesMultiplier(w, l) == if 4 * w >= 3 * t then 1.2
                                     else if 20 * w >= 13 * t then 1.1
                                     else if 20 * w >= 11 * t then 1.0
                                     else 0.9
  {
    var t := w + l;
    ShareAtLeast(w, t, 3, 4);
    ShareAtLeast(w, t, 13, 20);
    ShareAtLeast(w, t, 11, 20);
  }

  /** A larger share of the games never gives a smaller multiplier. */
  lemma ShareMultiplierMonotone(s1: real, s2: real)
    requires s1 <= s2
    ensures ShareMultiplier(s1) <= ShareMultiplier(s2)
  {
  }

  /** In game counts: if w1/(w1+l1) <= w2/(w2+l2) then the first multiplier is not larger. */
  lemma {:induction false} GamesMultiplierMonotone(w1: nat, l1: nat, w2: nat, l2: nat)
    requires w1 + l1 > 0 && w2 + l2 > 0
    requires w1 * (w2 + l2) <= w2 * (w1 + l1)
    ensures GamesMultiplier(w1, l1) <= GamesMultiplier(w2, l2)
  {
    var t1, t2 := w1 + l1, w2 + l2;
    ShareAtLeast(w2, t2, w1, t1);
    ShareMultiplierMonotone(w1 as real / t1 as real, w2 as real / t2 as real);
  }

  /** A non-empty score with no well-formed set parses to 0 games each, so it is neutral. */
  lemma MovMultiplierWithoutSets(s: string)
    requires s != []
    requires forall k :: 0 <= k < |ScoreParsing.Split(s)| ==> ScoreParsing.SetGames(ScoreParsing.Split(s)[k]) == None
    ensures MovMultiplier(Some(s)) == 1.0
  {
    ScoreParsing.ScoreWithoutSets(s);
  }

  /**
   * A 6-4 6-3 win is 12 games of 19, a share of about 0.632: under 0.65, so
   * it lands in the 1.0 band, not in the 1.1 band.
   */
  lemma StraightSetsSixFourSixThree()
    ensures GamesMultiplier(12, 7) == 1.0
  {
    GamesMultiplierByCounts(12, 7);
  }

  /** "7-6(5) 6-4" is 13 games of 23, a share under 0.65: the close-win band. */
  lemma ExampleMovMultiplier()
    ensures MovMultiplier(Some("7-6(5) 6-4")) == 1.0
  {
    ScoreParsing.ExampleTiebreakScore();
    GamesMultiplierByCounts(13, 10);
  }

  // ------------------------------------------------------------------------
  // update_elo_ratings
  // ------------------------------------------------------------------------

  /** The value of calculate_expected_score: a probability strictly between 0 and 1. */
  type Probability = p: real | 0.0 < p < 1.0 witness 0.5

  datatype RatingPair = RatingPair(winner: real, loser: real)

  /**
   * update_elo_ratings, given the winner's expected score: the winner gains
   * k * (1 - expected), the loser gives up the same amount.
   */
  function UpdateEloRatings(winnerRating: real, loserRating: real, k: real, expectedWinner: Probability): (r: RatingPair)
    ensures r.winner - winnerRating == -(r.loser - loserRating)
    ensures k >= 0.0 ==> r.winner >= winnerRating && r.loser <= loserRating
    ensures k > 0.0 ==> r.winner > winnerRating && r.loser < loserRating
    ensures k > 0.0 ==> r.winner - winnerRating < k
  {
    var gain := k * (1.0 - expectedWinner);
    ProductSign(k, 1.0 - expectedWinner);
    ProductSign(k, expectedWinner);
    assert k - gain == k * expectedWinner;
    RatingPair(winnerRating + gain, loserRating + k * (0.0 - (1.0 - expectedWinner)))
  }

  lemma ProductSign(a: real, b: real)
    requires b > 0.0
    ensures a >= 0.0 ==> a * b >= 0.0
    ensures a > 0.0 ==> a * b > 0.0
  {
  }

  /** An upset pays more: the lower the winner's expected score, the larger the gain. */
  lemma UpsetGainsMore(winnerRating: real, loserRating: real, k: real, e1: Probability, e2: Probability)
    requires k >= 0.0 && e1 <= e2
    ensures UpdateEloRatings(winnerRating, loserRating, k, e1).winner
         >= UpdateEloRatings(winnerRating, loserRating, k, e2).winner
  {
    assert k * (1.0 - e1) - k * (1.0 - e2) == k * (e2 - e1);
    if e1 < e2 {
      ProductSign(k, e2 - e1);
    }
  }
}
