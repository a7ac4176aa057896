/**
 * Model of `parse_score` (src/data_utils.py): the total number of games won
 * by the winner and by the loser of a match, read from its raw score text
 * such as "7-6(5) 6-4".
 *
 * The Python builtins the parser relies on are modelled first: `str.split()`
 * with no argument (Split), `str.split(sep)` (SplitOn) and `int()` on a
 * token (ParseInt).
 */
module ScoreParsing {
  import opened Wrappers

  // ------------------------------------------------------------------------
  // str.split() with no argument
  // ------------------------------------------------------------------------

  /** The characters Python's `str.split()` treats as separators. */
  predicate IsSpace(c: char) {
    c == ' ' || ('\t' <= c <= '\r') || ('\U{1C}' <= c <= '\U{1F}')
    || c == '\U{85}' || c == '\U{A0}' || c == '\U{1680}'
    || ('\U{2000}' <= c <= '\U{200A}') || c == '\U{2028}' || c == '\U{2029}'
    || c == '\U{202F}' || c == '\U{205F}' || c == '\U{3000}'
  }

  predicate NoSpace(s: string) {
    forall i :: 0 <= i < |s| ==> !IsSpace(s[i])
  }

  /** Length of the run of non-separator characters that starts `s`. */
  function WordLength(s: string): (n: nat)
    ensures n <= |s|
    ensures NoSpace(s[..n])
    ensures n < |s| ==> IsSpace(s[n])
  {
    if s == [] || IsSpace(s[0]) then 0
    else
      var m := WordLength(s[1..]);
      assert s[..1 + m] == [s[0]] + s[1..][..m];
      1 + m
  }

  /** `s.split()`: the maximal runs of non-separator characters, in order. */
  function Split(s: string): (words: seq<string>)
    ensures forall k :: 0 <= k < |words| ==> words[k] != [] && NoSpace(words[k])
    decreases |s|
  {
    if s == [] then []
    else if IsSpace(s[0]) then Split(s[1..])
    else
      var n := WordLength(s);
      [s[..n]] + Split(s[n..])
  }

  /** A text of whitespace only, the empty text included, has no words. */
  lemma {:induction false} SplitOfSpaces(s: string)
    requires forall i :: 0 <= i < |s| ==> IsSpace(s[i])
    ensures Split(s) == []
    decreases |s|
  {
    if s != [] {
      SplitOfSpaces(s[1..]);
    }
  }

  /** A word is split into itself alone. */
  lemma SplitWord(w: string)
    requires w != [] && NoSpace(w)
    ensures Split(w) == [w]
  {
    WordLengthOfWord(w);
    assert !IsSpace(w[0]);
    assert w[..|w|] == w && w[|w|..] == [];
  }

  lemma {:induction false} WordLengthOfWord(w: string)
    requires NoSpace(w)
    ensures WordLength(w) == |w|
  {
    if w != [] {
      WordLengthOfWord(w[1..]);
    }
  }

  /** A run of non-separators stops at the first separator, whatever follows it. */
  lemma {:induction false} WordLengthBeforeSpace(a: string, c: char, b: string)
    requires IsSpace(c)
    ensures WordLength(a + [c] + b) == WordLength(a)
  {
    var s := a + [c] + b;
    if a == [] {
    } else if IsSpace(a[0]) {
    } else {
      assert s[1..] == a[1..] + [c] + b;
      WordLengthBeforeSpace(a[1..], c, b);
    }
  }

  /** Joining two texts with a separator joins their word lists. */
  lemma {:induction false} SplitAroundSpace(a: string, c: char, b: string)
    requires IsSpace(c)
    ensures Split(a + [c] + b) == Split(a) + Split(b)
    decreases |a|
  {
    var s := a + [c] + b;
    if a == [] {
      assert s[1..] == b;
    } else if IsSpace(a[0]) {
      assert s[1..] == a[1..] + [c] + b;
      SplitAroundSpace(a[1..], c, b);
    } else {
      var n := WordLength(s);
      WordLengthBeforeSpace(a, c, b);
      assert n == WordLength(a) && 1 <= n <= |a|;
      assert s[..n] == a[..n];
      assert s[n..] == a[n..] + [c] + b;
      SplitAroundSpace(a[n..], c, b);
    }
  }

  // ------------------------------------------------------------------------
  // str.split(sep) with a one-character separator
  // ------------------------------------------------------------------------

  /** Number of occurrences of `c` in `s`. */
  function Occurrences(s: string, c: char): (n: nat)
    ensures n == 0 <==> c !in s
  {
    if s == [] then 0
    else (if s[0] == c then 1 else 0) + Occurrences(s[1..], c)
  }

  /** `s.split(sep)`: the pieces between occurrences of `sep`; never empty. */
  function SplitOn(s: string, sep: char): (parts: seq<string>)
    ensures |parts| == Occurrences(s, sep) + 1
    ensures forall k :: 0 <= k < |parts| ==> sep !in parts[k]
  {
    if s == [] then [[]]
    else
      var rest := SplitOn(s[1..], sep);
      if s[0] == sep then [[]] + rest
      else [[s[0]] + rest[0]] + rest[1..]
  }

  /** `sep.join(parts)`, the inverse of SplitOn. */
  function JoinWith(parts: seq<string>, sep: char): string
    requires |parts| >= 1
  {
    if |parts| == 1 then parts[0] else parts[0] + [sep] + JoinWith(parts[1..], sep)
  }

  /** Joining the pieces of a split gives back the text. */
  lemma {:induction false} JoinSplitOn(s: string, sep: char)
    ensures JoinWith(SplitOn(s, sep), sep) == s
  {
    if s != [] {
      var rest := SplitOn(s[1..], sep);
      JoinSplitOn(s[1..], sep);
      if s[0] == sep {
        assert SplitOn(s, sep)[1..] == rest;
      } else {
        var parts := SplitOn(s, sep);
        assert parts[1..] == rest[1..];
        if |rest| == 1 {
          assert JoinWith(parts, sep) == [s[0]] + rest[0];
        } else {
          assert JoinWith(rest, sep) == rest[0] + [sep] + JoinWith(rest[1..], sep);
        }
      }
    }
  }

  /** Text without the separator is a single piece. */
  lemma {:induction false} SplitOnAbsent(a: string, sep: char)
    requires sep !in a
    ensures SplitOn(a, sep) == [a]
  {
    if a != [] {
      SplitOnAbsent(a[1..], sep);
      assert [a[0]] + a[1..] == a;
    }
  }

  /** A leading character other than the separator joins the first piece. */
  lemma SplitOnCons(c: char, t: string, sep: char)
    requires c != sep
    ensures SplitOn([c] + t, sep) == [[c] + SplitOn(t, sep)[0]] + SplitOn(t, sep)[1..]
  {
    assert ([c] + t)[1..] == t;
  }

  /** The first occurrence of the separator ends the first piece. */
  lemma {:induction false} SplitOnFirst(a: string, sep: char, b: string)
    requires sep !in a
    ensures SplitOn(a + [sep] + b, sep) == [a] + SplitOn(b, sep)
  {
    var s := a + [sep] + b;
    if a == [] {
      assert s[1..] == b;
    } else {
      var t := a[1..] + [sep] + b;
      assert s == [a[0]] + t;
      SplitOnFirst(a[1..], sep, b);
      SplitOnCons(a[0], t, sep);
      assert [a[0]] + a[1..] == a;
    }
  }

  // ------------------------------------------------------------------------
  // int() on a token
  // ------------------------------------------------------------------------

  predicate IsDigit(c: char) {
    '0' <= c <= '9'
  }

  predicate AllDigits(s: string) {
    forall i :: 0 <= i < |s| ==> IsDigit(s[i])
  }

  /** The number a string of decimal digits denotes. */
  function DigitsValue(s: string): nat
    requires AllDigits(s)
  {
    if s == [] then 0
    else 10 * DigitsValue(s[..|s| - 1]) + (s[|s| - 1] as int - '0' as int)
  }

  /** `int(s)` on a game count: a non-empty string of decimal digits, else a ValueError (None). */
  function ParseInt(s: string): (r: Option<nat>)
    ensures r == None <==> s == [] || exists i :: 0 <= i < |s| && !IsDigit(s[i])
  {
    if s != [] && AllDigits(s) then Some(DigitsValue(s)) else None
  }

  /** `str(n)`: the decimal digits of `n`, without leading zeros. */
  function Decimal(n: nat): (s: string)
    ensures s != [] && AllDigits(s)
  {
    if n < 10 then ['0' + n as char]
    else Decimal(n / 10) + ['0' + (n % 10) as char]
  }

  /** int() reads back every game count written in decimal. */
  lemma {:induction false} ParseIntDecimal(n: nat)
    ensures ParseInt(Decimal(n)) == Some(n)
  {
    var s := Decimal(n);
    if n < 10 {
      assert s[..0] == [];
      assert DigitsValue(s) == n;
    } else {
      ParseIntDecimal(n / 10);
      assert s[..|s| - 1] == Decimal(n / 10);
      assert DigitsValue(s) == 10 * (n / 10) + n % 10;
    }
  }

  /** A digit string that does not start with '0' denotes a positive number. */
  lemma {:induction false} DigitsValuePositive(s: string)
    requires s != [] && AllDigits(s) && s[0] != '0'
    ensures DigitsValue(s) >= 1
  {
    if |s| > 1 {
      var init := s[..|s| - 1];
      assert init[0] == s[0];
      DigitsValuePositive(init);
    }
  }

  /**
   * The other round trip: a digit string without a leading zero (or "0"
   * itself) is what `str()` writes for the number `int()` reads from it.
   */
  lemma {:induction false} DecimalOfParseInt(s: string)
    requires ParseInt(s).Some?
    requires s[0] != '0' || |s| == 1
    ensures Decimal(ParseInt(s).value) == s
  {
    var n := DigitsValue(s);
    var last := s[|s| - 1];
    var d := last as int - '0' as int;
    if |s| == 1 {
      assert s[..|s| - 1] == [];
      assert DigitsValue(s[..|s| - 1]) == 0;
      assert n == 10 * DigitsValue(s[..|s| - 1]) + d;
      assert Decimal(n) == ['0' + d as char];
      assert s == [last];
    } else {
      var init := s[..|s| - 1];
      assert init[0] == s[0];
      DigitsValuePositive(init);
      DecimalOfParseInt(init);
      assert n == 10 * DigitsValue(init) + d;
      assert n / 10 == DigitsValue(init) && n % 10 == d;
      assert Decimal(n) == init + ['0' + d as char];
      assert s == init + [last];
    }
  }

  // ------------------------------------------------------------------------
  // parse_score
  // ------------------------------------------------------------------------

  /** Games won by the winner and by the loser. */
  datatype GameCounts = GameCounts(winner: nat, loser: nat) {
    function Plus(other: GameCounts): GameCounts {
      GameCounts(winner + other.winner, loser + other.loser)
    }
  }

  /**
   * What one whitespace-separated token adds to the totals: a token counts
   * only when it splits on '-' into exactly two parts, the first part and the
   * text of the second part before any '(' both read as integers.
   */
  function SetGames(token: string): (r: Option<GameCounts>)
    ensures r != None <==>
              && Occurrences(token, '-') == 1
              && var games := SplitOn(token, '-');
                 ParseInt(games[0]) != None && ParseInt(SplitOn(games[1], '(')[0]) != None
  {
    if '-' !in token then None
    else
      var games := SplitOn(token, '-');
      if |games| != 2 then None
      else
        match (ParseInt(games[0]), ParseInt(SplitOn(games[1], '(')[0]))
        case (Some(w), Some(l)) => Some(GameCounts(w, l))
        case _ => None
  }

  /** The running totals over a sequence of tokens, summed left to right. */
  function SumSets(sets: seq<string>): (totals: GameCounts)
    ensures forall k :: 0 <= k < |sets| && SetGames(sets[k]) != None ==>
              SetGames(sets[k]).value.winner <= totals.winner && SetGames(sets[k]).value.loser <= totals.loser
    ensures (forall k :: 0 <= k < |sets| ==> SetGames(sets[k]) == None) ==> totals == GameCounts(0, 0)
  {
    if sets == [] then GameCounts(0, 0)
    else
      var before := SumSets(sets[..|sets| - 1]);
      match SetGames(sets[|sets| - 1])
      case None => before
      case Some(g) => before.Plus(g)
  }

  lemma SumSetsStep(sets: seq<string>, i: nat)
    requires i < |sets|
    ensures SumSets(sets[..i + 1]) == match SetGames(sets[i])
                                      case None => SumSets(sets[..i])
                                      case Some(g) => SumSets(sets[..i]).Plus(g)
  {
    assert sets[..i + 1][..i] == sets[..i];
    assert sets[..i + 1][i] == sets[i];
  }

  /** The result of `parse_score(score)`: None for (None, None). */
  function ScoreGames(score: Option<string>): (totals: Option<GameCounts>)
    ensures totals == None <==> score == None || score == Some("")
  {
    match score
    case None => None
    case Some(s) => if s == [] then None else Some(SumSets(Split(s)))
  }

  /** parse_score: sum the games of the well-formed set tokens. */
  method ParseScore(score: Option<string>) returns (totals: Option<GameCounts>)
    ensures totals == ScoreGames(score)
  {
    if score.None? || score.value == "" {
      return None;
    }
    var sets := Split(score.value);
    var winnerGames, loserGames := 0, 0;
    for i := 0 to |sets|
      invariant GameCounts(winnerGames, loserGames) == SumSets(sets[..i])
    {
      var setScore := sets[i];
      SumSetsStep(sets, i);
      if '-' in setScore {
        var games := SplitOn(setScore, '-');
        if |games| == 2 {
          var w := ParseInt(games[0]);
          var l := ParseInt(SplitOn(games[1], '(')[0]);
          if w.Some? && l.Some? {
            assert SetGames(setScore) == Some(GameCounts(w.value, l.value));
            winnerGames := winnerGames + w.value;
            loserGames := loserGames + l.value;
          } else {
            assert SetGames(setScore) == None;
          }
        } else {
          assert SetGames(setScore) == None;
        }
      } else {
        assert SetGames(setScore) == None;
      }
    }
    assert sets[..|sets|] == sets;
    return Some(GameCounts(winnerGames, loserGames));
  }

  // ------------------------------------------------------------------------
  // Properties of parse_score
  // ------------------------------------------------------------------------

  /**
   * A token counts only if it holds exactly one '-', with digits before it
   * and digits after it up to the first '(' (if any).
   */
  lemma SetGamesNeedsDigitsAroundDash(token: string)
    requires SetGames(token).Some?
    ensures var games := SplitOn(token, '-');
            var loser := SplitOn(games[1], '(')[0];
            && games[0] != [] && AllDigits(games[0])
            && loser != [] && AllDigits(loser)
  {
  }

  /**
   * A set score "w-l" followed by an optional tiebreak "(…)" contributes
   * w to the winner and l to the loser; the tiebreak is ignored.
   */
  lemma SetGamesOfSetScore(w: string, l: string, tiebreak: string)
    requires w != [] && AllDigits(w) && l != [] && AllDigits(l)
    requires tiebreak == [] || (tiebreak[0] == '(' && '-' !in tiebreak)
    ensures SetGames(w + "-" + l + tiebreak) == Some(GameCounts(DigitsValue(w), DigitsValue(l)))
  {
    var token := w + "-" + l + tiebreak;
    DigitsAreNotPunctuation(w);
    DigitsAreNotPunctuation(l);
    var rest := l + tiebreak;
    assert '-' !in rest;
    assert token == w + ['-'] + rest;
    SplitOnFirst(w, '-', rest);
    SplitOnAbsent(rest, '-');
    var games := SplitOn(token, '-');
    assert games == [w, rest];
    if tiebreak == [] {
      assert rest == l;
      SplitOnAbsent(l, '(');
    } else {
      assert tiebreak == ['('] + tiebreak[1..];
      assert rest == l + ['('] + tiebreak[1..];
      SplitOnFirst(l, '(', tiebreak[1..]);
    }
    assert SplitOn(games[1], '(')[0] == l;
    assert token[|w|] == '-';
    assert ParseInt(games[0]) == Some(DigitsValue(w));
    assert ParseInt(SplitOn(games[1], '(')[0]) == Some(DigitsValue(l));
  }

  lemma DigitsAreNotPunctuation(s: string)
    requires AllDigits(s)
    ensures '-' !in s && '(' !in s
  {
  }

  /** Totals are additive over concatenated token lists. */
  lemma {:induction false} SumSetsAppend(a: seq<string>, b: seq<string>)
    ensures SumSets(a + b) == SumSets(a).Plus(SumSets(b))
    decreases |b|
  {
    if b == [] {
      assert a + b == a;
    } else {
      var b' := b[..|b| - 1];
      assert (a + b)[..|a + b| - 1] == a + b';
      SumSetsAppend(a, b');
    }
  }

  /** A non-empty score without any well-formed set gives (0, 0), never None. */
  lemma ScoreWithoutSets(s: string)
    requires s != []
    requires forall k :: 0 <= k < |Split(s)| ==> SetGames(Split(s)[k]) == None
    ensures ScoreGames(Some(s)) == Some(GameCounts(0, 0))
  {
  }

  /** Parsing two scores joined by a space adds their totals. */
  lemma ScoreOfJoinedScores(s1: string, s2: string)
    requires s1 != [] && s2 != []
    ensures ScoreGames(Some(s1 + " " + s2))
         == Some(ScoreGames(Some(s1)).value.Plus(ScoreGames(Some(s2)).value))
  {
    assert s1 + " " + s2 == s1 + [' '] + s2;
    SplitAroundSpace(s1, ' ', s2);
    SumSetsAppend(Split(s1), Split(s2));
  }

  /** A score made of two well-formed sets is the sum of the two sets. */
  lemma TwoSetScore(first: string, second: string, g0: GameCounts, g1: GameCounts)
    requires first != [] && NoSpace(first) && SetGames(first) == Some(g0)
    requires second != [] && NoSpace(second) && SetGames(second) == Some(g1)
    ensures ScoreGames(Some(first + " " + second)) == Some(g0.Plus(g1))
  {
    SplitWord(first);
    SplitWord(second);
    assert first + " " + second == first + [' '] + second;
    SplitAroundSpace(first, ' ', second);
    SumSetsAppend([first], [second]);
    OneSet(first, g0);
    OneSet(second, g1);
  }

  lemma OneSet(token: string, g: GameCounts)
    requires SetGames(token) == Some(g)
    ensures SumSets([token]) == g
  {
    assert [token][..0] == [];
  }

  /** The worked example: "7-6(5) 6-4" is 13 games to 10. */
  lemma ExampleTiebreakScore()
    ensures ScoreGames(Some("7-6(5) 6-4")) == Some(GameCounts(13, 10))
  {
    var first, second := "7-6(5)", "6-4";
    ExampleSetGames();
    ExampleTokensHaveNoSpace();
    TwoSetScore(first, second, GameCounts(7, 6), GameCounts(6, 4));
    ExampleTokensJoin();
  }

  lemma ExampleTokensHaveNoSpace()
    ensures NoSpace("7-6(5)") && NoSpace("6-4")
  {
  }

  lemma ExampleTokensJoin()
    ensures "7-6(5)" + " " + "6-4" == "7-6(5) 6-4"
  {
  }

  lemma ExampleSetGames()
    ensures SetGames("7-6(5)") == Some(GameCounts(7, 6))
    ensures SetGames("6-4") == Some(GameCounts(6, 4))
  {
    assert DigitsValue("7") == 7 && DigitsValue("6") == 6 && DigitsValue("4") == 4 by {
      assert "7"[..0] == [] && "6"[..0] == [] && "4"[..0] == [];
    }
    assert "7-6(5)" == "7" + "-" + "6" + "(5)";
    SetGamesOfSetScore("7", "6", "(5)");
    assert "6-4" == "6" + "-" + "4" + "";
    SetGamesOfSetScore("6", "4", "");
  }
}
