# Tennis ELO rating store, modelled in Dafny

This project models the core of a per-surface tennis ELO rating system:

- **Score parsing** (`score_parsing.dfy`). `parse_score` turns raw set-score text such as `"7-6(5) 6-4"` into the total games won by the winner and by the loser. The Python builtins it relies on are modelled too: `str.split()`, `str.split(sep)` and `int()` on a game count.
- **Rating math** (`elo_system.dfy`). This covers the tournament-level weight table, the margin-of-victory multiplier banded on the winner's share of games, and the ELO update.
- **Player store** (`player_utils.dfy`). Each player record holds a name, one rating per surface, the last match date and a match count. The store is a dictionary from player id to record. The file has two layers:
  - a value layer: `PlayerState` and functions saying what each operation does;
  - an imperative layer: class `Player` for one record and class `PlayerStore` for the dictionary. Their methods update fields in place, and each postcondition equates the new state with a value-layer function.
- **Ranking views** (`rankings.dfy`). These give the top N players on a surface, and the store's players that appear in the current rankings.

Ratings are exact `real`s. Two quantities are not computed, because they need floating-point exponentiation:

- the expected score `1 / (1 + 10^((b - a) / 400))`, which the update takes as an input strictly between 0 and 1;
- the decay factor `rate ** (days / 365)`, which decay takes through a parameter `pow(x, y)` standing for `x ** y`.

Dates are whole day numbers.

Behaviour of the code that a reader might not expect, and that the model keeps:

- `update_player_match_info` overwrites `last_match_date` with the match's date without comparing it to the stored one. Matches processed out of order therefore move the date backwards (`AfterMatch`).
- `apply_rating_decay` keeps no record of when it last ran. A second pass with the same current date finds the same inactivity and applies the factor again (`SecondDecayCompounds`, `SecondDecayIsNotNoOp`).
- `get_top_players_by_surface` filters on a literal 20 matches. The constant `MIN_MATCHES_RANKING` (50) in src/config.py is not consulted.
- The comment at src/elo_system.py:38 gives "6-4 6-3 = 12-7" as an example of the 1.1 band. 12 of 19 games is a share of about 0.632, under the 0.65 threshold, so the code returns 1.0 for that score (`StraightSetsSixFourSixThree`). The code, not the comment, is modelled.
- The code has no experience-based K-factor, experience penalty, peak ratings or per-surface match counts. `calculate_k_factor` exists but cannot run (see "Left out").

## Model

| member | source | states |
|---|---|---|
| `ScoreParsing.ParseScore` | src/data_utils.py:4-25 | The loop's result equals `ScoreGames(score)`: its invariant keeps the running totals equal to the sum over the tokens already seen. |
| `ScoreParsing.ScoreGames` | src/data_utils.py:6-12 | The result is None (Python's `(None, None)`) exactly when the score is missing or the empty string; any other text gives totals. |
| `ScoreParsing.Split` | src/data_utils.py:9 | `str.split()`: every word is non-empty and holds no whitespace character. |
| `ScoreParsing.SplitOfSpaces` | src/data_utils.py:9 | A text made only of whitespace, the empty text included, splits into no tokens at all. |
| `ScoreParsing.SplitWord` | src/data_utils.py:9 | A non-empty text without whitespace splits into itself alone. |
| `ScoreParsing.SplitAroundSpace` | src/data_utils.py:9 | Splitting `a + c + b`, where `c` is whitespace, gives the words of `a` followed by the words of `b`. |
| `ScoreParsing.Occurrences` | src/data_utils.py:14 | `'-' in token` holds exactly when the count of `'-'` is non-zero. |
| `ScoreParsing.SplitOn` | src/data_utils.py:15-19 | `str.split(sep)` gives one more piece than there are separators, and no piece contains the separator. |
| `ScoreParsing.JoinSplitOn` | src/data_utils.py:15 | Joining the pieces of `s.split(sep)` with `sep` gives back `s`. |
| `ScoreParsing.SplitOnAbsent` | src/data_utils.py:19 | Text without the separator is a single piece (no `'('`: the whole loser part is kept). |
| `ScoreParsing.SplitOnFirst` | src/data_utils.py:15-19 | The first separator ends the first piece. |
| `ScoreParsing.ParseInt` | src/data_utils.py:18-19 | `int()` on a game count fails (None, the ValueError the loop skips) exactly when the text is empty or holds a character that is not a decimal digit. |
| `ScoreParsing.DecimalOfParseInt` | src/data_utils.py:18-19 | For a digit string without a leading zero, `str(int(s)) == s`: the other direction of the round trip. |
| `ScoreParsing.Decimal` | src/data_utils.py:18-19 | A game count written in decimal is a non-empty digit string. |
| `ScoreParsing.ParseIntDecimal` | src/data_utils.py:18-19 | `int()` reads back every game count written in decimal. |
| `ScoreParsing.SetGames` | src/data_utils.py:14-21 | A token adds games exactly when it holds exactly one `'-'`, and both the text before it and the text after it up to the first `'('` read as integers. |
| `ScoreParsing.SetGamesNeedsDigitsAroundDash` | src/data_utils.py:14-21 | A token that adds games has a non-empty digit string before the `'-'`, and another one after it up to the first `'('`. If either side fails `int()`, the token adds nothing. |
| `ScoreParsing.SetGamesOfSetScore` | src/data_utils.py:14-21 | A token `w-l` with an optional `(…)` tiebreak adds `w` and `l`; the tiebreak is ignored. |
| `ScoreParsing.SumSetsAppend` | src/data_utils.py:13-21 | The totals of two token lists, one after the other, are the sums of their totals. |
| `ScoreParsing.SumSets` | src/data_utils.py:13-21 | Every counted set's games are included in the running totals: neither total falls below any one set's games. Tokens none of which is a well-formed set leave both totals at 0. |
| `ScoreParsing.ScoreWithoutSets` | src/data_utils.py:9-25 | A non-empty score with no well-formed set gives `(0, 0)`, never None. |
| `ScoreParsing.ScoreOfJoinedScores` | src/data_utils.py:9-21 | Parsing `s1 + " " + s2` gives the component-wise sum of parsing `s1` and `s2`, when both are non-empty. |
| `ScoreParsing.TwoSetScore` | src/data_utils.py:9-25 | A score of two well-formed sets separated by a space totals the two sets. |
| `ScoreParsing.ExampleSetGames` | src/data_utils.py:19 | `"7-6(5)"` contributes 7 and 6, and `"6-4"` contributes 6 and 4. |
| `ScoreParsing.ExampleTiebreakScore` | src/data_utils.py:4-25 | `"7-6(5) 6-4"` parses to 13 games to 10. |
| `EloSystem.TournamentWeight` | src/elo_system.py:11-21 | The weight is 1.5 exactly for `'G'` and 1.25 exactly for `'M'`; any other level (`'A'`, `'D'` or unknown) gives 1.0. It always lies in {1.0, 1.25, 1.5}, so it is at least 1. |
| `EloSystem.ShareMultiplier` | src/elo_system.py:36-43 | The band is one of 0.9, 1.0, 1.1, 1.2. It is at least 1.0 exactly when the share is at least 0.55, and above 1.0 exactly when the share is at least 0.65. |
| `EloSystem.GamesMultiplier` | src/elo_system.py:30-43 | The multiplier for given game counts is always one of 0.9, 1.0, 1.1, 1.2. When no games were counted (total 0) it is 1.0. |
| `EloSystem.MovMultiplier` | src/elo_system.py:23-43 | The result is in {0.9, 1.0, 1.1, 1.2}. It is 1.0 when the score cannot be parsed, and 1.0 when the parsed totals are (0, 0). |
| `EloSystem.ShareAtLeast` | src/elo_system.py:34-40 | For positive totals, comparing the share `w/t` with a ratio `num/den` is the same as comparing `den·w` with `num·t`. |
| `EloSystem.GamesMultiplierByCounts` | src/elo_system.py:30-43 | With `t = w + l > 0`, the bands in integers are: `4w ≥ 3t` gives 1.2, `20w ≥ 13t` gives 1.1, `20w ≥ 11t` gives 1.0, and otherwise 0.9. |
| `EloSystem.GamesMultiplierMonotone` | src/elo_system.py:34-43 | A larger share of the games never gives a smaller multiplier. |
| `EloSystem.MovMultiplierWithoutSets` | src/elo_system.py:25-32 | A non-empty score with no well-formed set has 0 games in total, so it is neutral (1.0). |
| `EloSystem.StraightSetsSixFourSixThree` | src/elo_system.py:38-41 | A 6-4 6-3 win (12 games to 7) gets 1.0, not the 1.1 that the comment on line 38 suggests. |
| `EloSystem.ExampleMovMultiplier` | src/elo_system.py:23-43 | `"7-6(5) 6-4"` (13 of 23 games) falls in the 1.0 band. |
| `EloSystem.UpdateEloRatings` | src/elo_system.py:56-63 | The update is zero-sum. With `k ≥ 0` the winner does not lose and the loser does not gain. With `k > 0` both changes are strict, and the winner gains less than `k`. |
| `EloSystem.UpsetGainsMore` | src/elo_system.py:58-60 | With `k ≥ 0`, a lower expected score for the winner means a larger gain. |
| `PlayerUtils.InitialState` | src/player_utils.py:5-17 | A new record has the given name and rating 1300 on exactly Hard, Clay, Grass and Carpet. It has no last match date and 0 matches. |
| `PlayerUtils.Player.constructor` | src/player_utils.py:5-17 | The new record's fields equal `InitialState(name)`. |
| `PlayerUtils.AfterMatch` | src/player_utils.py:19-22 | The match count goes up by exactly 1, and the last match date becomes the given date unconditionally (no maximum). Name and ratings are unchanged. |
| `PlayerUtils.Player.UpdateMatchInfo` | src/player_utils.py:19-22 | The record is updated in place to `AfterMatch` of its old value. |
| `PlayerUtils.AfterAddOrUpdate` | src/player_utils.py:43-51 | The id is afterwards a key, with the supplied name, the supplied date and one more match, whether the player is new or not. A new player gets the initial ratings, and an existing player keeps its ratings. Every other player is unchanged. |
| `PlayerUtils.PlayerStore.AddOrUpdatePlayer` | src/player_utils.py:43-51 | The store's values become `AfterAddOrUpdate` of the old ones. A new id is appended to the iteration order, and its record is a fresh object. Existing ids keep their record objects. The store invariant (distinct ids, distinct records) is kept. |
| `PlayerUtils.PlayerStore.constructor` | main.py:23 | The store starts empty. |
| `PlayerUtils.RatingOf` | src/player_utils.py:53-57 | The stored surface rating is returned when the player and the surface exist; otherwise `STARTING_RATING`. |
| `PlayerUtils.RatingAfterAddOrUpdate` | src/player_utils.py:43-57 | After `add_or_update_player`, a new player reads 1300 on every surface, and an existing player reads as before. |
| `PlayerUtils.AfterRatingChange` | src/player_utils.py:60-62 | The change is added to exactly one surface, which must already exist. Other surfaces and other fields are unchanged. |
| `PlayerUtils.Player.UpdateRating` | src/player_utils.py:60-62 | The record is updated in place to `AfterRatingChange` of its old value. |
| `PlayerUtils.RatingAfterRatingChange` | src/player_utils.py:53-62 | Reading the changed rating back gives the old reading plus the change. Every other (player, surface) reading is unchanged. |
| `PlayerUtils.OperationsKeepAllSurfacesRated` | src/player_utils.py:5-62 | Adding or updating a player, changing an existing surface rating, and decay all keep every player rated on exactly the four surfaces. |
| `PlayerUtils.DecayToward` | src/player_utils.py:41 | Ratings at the 1300 baseline stay there. A factor of 1 leaves a rating unchanged, and a factor of 0 resets it to 1300. |
| `PlayerUtils.DecayFactor` | src/player_utils.py:30-37 | There is no factor (the player is skipped) exactly when the player has no last match date or has been inactive at most 365 days. Otherwise the factor is `rate ** (days/365)`, with the strong rate above 730 days and the normal rate below. |
| `PlayerUtils.DecayedRatings` | src/player_utils.py:39-41 | Same surfaces as before, and each rating becomes `1300 + (r − 1300)·f`. |
| `PlayerUtils.AfterDecay` | src/player_utils.py:29-41 | Decay changes only ratings: name, last match date, match count and the set of surfaces stay the same. |
| `PlayerUtils.AfterDecayAll` | src/player_utils.py:24-41 | The sweep keeps the same player ids. |
| `PlayerUtils.Player.DecayRatings` | src/player_utils.py:39-41 | The loop over surfaces leaves each rating pulled by the factor; its invariant separates the surfaces done from the surfaces pending. Other fields are unchanged. |
| `PlayerUtils.DecayPlayer` | src/player_utils.py:30-41 | One player's record becomes `AfterDecay` of its old value. |
| `PlayerUtils.PlayerStore.ApplyRatingDecay` | src/player_utils.py:24-41 | The store's values become `AfterDecayAll` of the old ones. The loop over players touches each record once, in dict order. |
| `PlayerUtils.DecaySparesRecentPlayers` | src/player_utils.py:30-33 | A player is left unchanged if they have never played, or have been inactive for at most 365 days (negative inactivity included). |
| `PlayerUtils.DecayRateByInactivity` | src/player_utils.py:33-37 | Over 730 days of inactivity the strong rate applies. Between 366 and 730 days the normal rate applies. |
| `PlayerUtils.DecayNoOvershoot` | src/player_utils.py:41 | For `0 < f < 1`, the new rating lies strictly between 1300 and `r`; a rating of exactly 1300 stays fixed. |
| `PlayerUtils.SmallerFactorPullsHarder` | src/player_utils.py:33-41 | A smaller (strong) factor pulls a rating off the baseline strictly further toward it. |
| `PlayerUtils.DecayCompounds` | src/player_utils.py:41 | Two decays compose into one decay by the product of the factors. |
| `PlayerUtils.SecondDecayCompounds` | src/player_utils.py:29-41 | A second sweep at the same date applies the factor again, so the ratings end up decayed by `f²`. |
| `PlayerUtils.SecondDecayIsNotNoOp` | src/player_utils.py:29-41 | With `0 < f < 1` and some rating off 1300, the second sweep changes the player. |
| `PlayerUtils.DecayPullsTowardBaseline` | src/player_utils.py:33-41 | Assume both rates lie in (0, 1) and `pow` maps such rates into (0, 1). Then a player inactive for more than 365 days has every rating pulled strictly toward 1300, never past it. |
| `Rankings.EligibleEntries` | src/rankings.py:36-48 | A row is in the list exactly when it belongs to a listed player with at least 20 matches. It copies that player's id, name, surface rating, last match date and match count. |
| `Rankings.EligibleEntriesOnePerPlayer` | src/rankings.py:36-48 | Walking a dict's keys, where no id occurs twice, gives rows for distinct players. There is one row per player with at least 20 matches. |
| `Rankings.EligibleEntriesInKeyOrder` | src/rankings.py:36-55 | When no id occurs twice, the rows come in the order of the dict's keys. That order is the one the stable sort keeps among equal ratings. |
| `Rankings.InsertByRatingSorted` | src/rankings.py:55 | Inserting into a list sorted by descending rating keeps it sorted. |
| `Rankings.InsertByRatingCount` | src/rankings.py:55 | Insertion (`InsertByRating`, the step of the sort) adds exactly the one entry. |
| `Rankings.SortByRatingDescSorted` | src/rankings.py:55 | The sorted list is non-increasing in rating. |
| `Rankings.SortByRatingDescPermutes` | src/rankings.py:55 | The sorted list (`SortByRatingDesc`, insertion of each row in list order) is a permutation of the input. |
| `Rankings.SortByRatingDescDistinct` | src/rankings.py:55 | Sorting rows that name each player at most once keeps that property. |
| `Rankings.SortByRatingDescStable` | src/rankings.py:55 | The sort is stable: entries with equal ratings keep their relative order. |
| `Rankings.PySlicePrefix` | src/rankings.py:62 | `s[:n]` is a prefix of length `min(n, len)` for `n ≥ 0`. For negative `n` it is `max(0, len + n)`. |
| `Rankings.TopPlayersCorrect` | src/rankings.py:32-62 | The result `TopPlayers` (filter, sort, slice) has these properties: <br>• it is sorted by descending rating; <br>• for `top_n ≥ 0`, it has `min(top_n, len(eligible rows))` rows; <br>• every row is an eligible player's row, `EntryOf` that player; <br>• no eligible row left out is rated above a row kept. |
| `Rankings.TopPlayersOnePerPlayer` | src/rankings.py:32-62 | Over a dict's keys, the top list names each player at most once. For `top_n ≥ 0`, it holds `min(top_n, n)` rows, where `n` is the number of players with at least 20 matches. |
| `Rankings.GetTopPlayersBySurface` | src/rankings.py:32-62 | The loop, sort and slice return `TopPlayers` of the store, so the result has these properties: <br>• it is sorted by descending rating; <br>• it names each player at most once; <br>• for `top_n ≥ 0`, it has `min(top_n, n)` rows, where `n` is the number of players with at least 20 matches; <br>• every row is a copied row of such a player. <br>The store is only read. |
| `Rankings.Unique` | src/rankings.py:7 | `Series.unique()` lists each id once, and holds exactly the ids of the column. |
| `Rankings.GetActivePlayersFromRankings` | src/rankings.py:7-23 | The result's keys are exactly the ranked ids present in the store. Each maps to the same record object. `found_count` equals the result's size. |

## Left out

- `calculate_expected_score` (src/elo_system.py:6-8) is left out because it needs floating-point exponentiation. Its value is an input to `UpdateEloRatings`, assumed strictly between 0 and 1. Its symmetry (`E(a,b) + E(b,a) = 1`) is not stated.
- `calculate_k_factor` (src/elo_system.py:45-53) is not modelled. As written it calls `mov_multiplier` with two arguments, but that function takes one, so every call raises `TypeError`. It also uses `math.log`.
- The decay factor `rate ** (days/365)` is the parameter `pow`. Nothing about `pow` is assumed except where a lemma states a range for it.
- The `datetime.now()` default of `apply_rating_decay` is left out: the current date is a parameter. Day differences are whole days.
- `parse_tournament_date` (src/data_utils.py:28-34) is left out because it is pandas date parsing.
- `ScoreParsing.ParseInt` accepts only non-empty ASCII digit strings. Python's `int()` also accepts a leading sign, `_` between digits and non-ASCII decimal digits. A token like `"+6-4"` therefore counts in Python but not in the model.
- A missing score is `None` in the model. The source's `pd.isna` also treats NaN and other pandas missing-value markers as missing.
- Ratings are exact reals, so floating-point rounding is not modelled. Python evaluates `winner_games / total_games >= 0.65` in binary floating point. For game totals of realistic size this agrees with the exact comparison.
- `PlayerUtils.AfterRatingChange` and `PlayerUtils.Player.UpdateRating` require the surface to be among the player's ratings. The source raises `KeyError` for any other surface (src/player_utils.py:62), and the model does not represent that exception. Every record built by the modelled operations is rated on exactly Hard, Clay, Grass and Carpet (`OperationsKeepAllSurfacesRated`), so the requirement holds for those four surfaces.
- `Rankings.GetTopPlayersBySurface` and `Rankings.TopPlayers` require every player with at least 20 matches to be rated on the requested surface (`RatedWhereRanked`). The source raises `KeyError` at src/rankings.py:45 otherwise, for example for `surface='Concrete'`, and the model does not represent that exception. For the four surfaces, stores built by the modelled operations meet the requirement (`OperationsKeepAllSurfacesRated`).
- The default arguments are not modelled: `surface='Hard'` and `top_n=20` of `get_top_players_by_surface`, and `decay_rate=0.92` and `strong_decay_rate=0.85` of `apply_rating_decay`. Callers pass every argument.
- The sort by rating (src/rankings.py:55) is Python's built-in `list.sort`, modelled as a stable insertion sort on a sequence, not as an in-place algorithm.
- `PlayerUtils.PlayerStore.AddOrUpdatePlayer`, `PlayerUtils.PlayerStore.ApplyRatingDecay` and `Rankings.GetTopPlayersBySurface` require that no two ids share one record object. The source never creates such sharing.
- `Rankings.GetActivePlayersFromRankings` returns the rankings count `found_count`, which the source only prints. The result is a map, so the insertion order of the returned dictionary is not modelled.
- Reading the rankings CSV (src/rankings.py:6) is left out: the column of ids is a parameter.
- The debug prints and the hard-coded diagnostics for one player id are left out (src/rankings.py:12-18, 24-27, 37-39, 50-52, 57-60).
- main.py is not modelled: it is file globbing and CSV reading with a truncated loop, and it imports functions that do not exist. There is no batch fold in the code to model.
- src/config.py holds only constants. The core code hard-codes them, and the model uses the same values as Dafny constants.
- `initialize_player` ignores its `player_id` argument, so the model's `InitialState` takes only the name.
