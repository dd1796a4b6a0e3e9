/** The colour palette for performance scores 1..5 and the lookup that
    falls back to a neutral grey for any other score. */
module Theme {
  import opened Options

  /** One colour per performance score, from the weakest to the strongest. */
  const PERFORMANCE_COLORS: map<int, string> := map[
    1 := "#8c2f39",
    2 := "#b25d48",
    3 := "#d6c68b",
    4 := "#8aa29e",
    5 := "#203354"
  ]

  /** The colour of a score outside the palette (missing, 0, out of range). */
  const DEFAULT_COLOR: string := "#e5e7eb"

  /** The colour for a performance score. */
  function PerformanceColor(score: int): (c: string)
    ensures 1 <= score <= 5 ==> c in PERFORMANCE_COLORS.Values && c != DEFAULT_COLOR
    ensures !(1 <= score <= 5) ==> c == DEFAULT_COLOR
  {
    if score in PERFORMANCE_COLORS then PERFORMANCE_COLORS[score] else DEFAULT_COLOR
  }

  /** The score a palette colour stands for, searching scores `k..5`. */
  function ScoreFrom(c: string, k: int): (r: Option<int>)
    requires 1 <= k <= 6
    ensures r.Some? ==> k <= r.value <= 5 && PERFORMANCE_COLORS[r.value] == c
    decreases 6 - k
  {
    if k == 6 then None
    else if PERFORMANCE_COLORS[k] == c then Some(k)
    else ScoreFrom(c, k + 1)
  }

  /** The score a colour stands for, if any. */
  function ScoreOfColor(c: string): Option<int> {
    ScoreFrom(c, 1)
  }

  /** The palette is one-to-one: different scores get different colours,
      and none of them is the fallback grey. */
  lemma ColorsDistinct(i: int, j: int)
    requires 1 <= i <= 5 && 1 <= j <= 5 && i != j
    ensures PerformanceColor(i) != PerformanceColor(j)
    ensures PerformanceColor(i) != DEFAULT_COLOR
  {
    assert PERFORMANCE_COLORS[1][1] == '8' && PERFORMANCE_COLORS[2][1] == 'b';
    assert PERFORMANCE_COLORS[3][1] == 'd' && PERFORMANCE_COLORS[4][2] == 'a';
    assert PERFORMANCE_COLORS[5][1] == '2' && PERFORMANCE_COLORS[1][2] == 'c';
  }

  /** Reading the colour of a score back gives the score; a colour that
      reads back as a score is that score's colour. */
  lemma {:induction false} ColorRoundTrip(score: int, c: string)
    ensures 1 <= score <= 5 ==> ScoreOfColor(PerformanceColor(score)) == Some(score)
    ensures ScoreOfColor(c) == Some(score) ==> PerformanceColor(score) == c
  {
    if 1 <= score <= 5 {
      var col := PerformanceColor(score);
      forall k | 1 <= k <= 5 && k != score
        ensures PERFORMANCE_COLORS[k] != col
      {
        ColorsDistinct(k, score);
      }
      ScoreFromFinds(col, 1, score);
    }
  }

  /** The search from `k` stops at the first score whose colour matches. */
  lemma {:induction false} ScoreFromFinds(c: string, k: int, score: int)
    requires 1 <= k <= score <= 5 && PERFORMANCE_COLORS[score] == c
    requires forall j :: k <= j <= 5 && j != score ==> PERFORMANCE_COLORS[j] != c
    ensures ScoreFrom(c, k) == Some(score)
    decreases 6 - k
  {
    if k < score {
      ScoreFromFinds(c, k + 1, score);
    }
  }

  /** The grey fallback is no score's colour. */
  lemma DefaultIsNoScore()
    ensures ScoreOfColor(DEFAULT_COLOR) == None
  {
    assert forall k :: 1 <= k <= 5 ==> PERFORMANCE_COLORS[k][1] != 'e';
    assert ScoreFrom(DEFAULT_COLOR, 5) == None;
    assert ScoreFrom(DEFAULT_COLOR, 4) == None;
    assert ScoreFrom(DEFAULT_COLOR, 3) == None;
    assert ScoreFrom(DEFAULT_COLOR, 2) == None;
  }
}
