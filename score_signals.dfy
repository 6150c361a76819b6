/** Signals derived from the score after each render: the theme index and the high score. */
module ScoreSignals {
  import opened Config

  /** Points per theme: the theme advances at every multiple of this. */
  const PointsPerTheme: nat := 5

  /**
   * The theme effect: at a positive multiple of PointsPerTheme the index
   * becomes the number of completed tiers modulo the palette size; at any
   * other score it is left as it was.
   */
  function NextTheme(score: nat, bg: nat): (r: nat)
    ensures bg < ThemeCount ==> r < ThemeCount
    ensures score > 0 && score % PointsPerTheme == 0 ==> r == (score / PointsPerTheme) % ThemeCount
    ensures !(score > 0 && score % PointsPerTheme == 0) ==> r == bg
  {
    if score > 0 && score % PointsPerTheme == 0 then
      var nextIndex := (score / PointsPerTheme) % ThemeCount;
      if nextIndex != bg then nextIndex else bg
    else bg
  }

  /** The theme index after the score has risen one point at a time from 0 to `n`. */
  function ThemeAfter(n: nat): nat
  {
    if n == 0 then 0 else NextTheme(n, ThemeAfter(n - 1))
  }

  /**
   * When the score rises one point at a time, the theme index always equals
   * the number of completed tiers modulo the palette size.
   */
  lemma {:induction false} ThemeTracksScore(n: nat)
    ensures ThemeAfter(n) == (n / PointsPerTheme) % ThemeCount
  {
    if n > 0 {
      ThemeTracksScore(n - 1);
      if n % PointsPerTheme != 0 {
        assert (n - 1) / PointsPerTheme == n / PointsPerTheme;
      }
    }
  }

  /** At score 12 the theme is the third of the palette. */
  lemma ThemeAtTwelve()
    ensures ThemeAfter(12) == 2
  {
    ThemeTracksScore(12);
  }

  /** The high-score effect: raise the high score to the score when it is exceeded. */
  function NextHighScore(score: nat, high: nat): (r: nat)
    ensures r >= high && r >= score
    ensures r == high || r == score
  {
    if score > high then score else high
  }

  /** The high score after the effect has run on each score of `scores` in turn. */
  function HighAfter(scores: seq<nat>, high: nat): nat
  {
    if scores == [] then high else HighAfter(scores[1..], NextHighScore(scores[0], high))
  }

  /**
   * Across any run of scores the high score never falls, ends at least every
   * score seen, and is either its starting value or one of those scores.
   */
  lemma {:induction false} HighScoreIsRunningMax(scores: seq<nat>, high: nat)
    ensures HighAfter(scores, high) >= high
    ensures forall i :: 0 <= i < |scores| ==> HighAfter(scores, high) >= scores[i]
    ensures HighAfter(scores, high) == high || HighAfter(scores, high) in scores
  {
    if scores != [] {
      var h := NextHighScore(scores[0], high);
      HighScoreIsRunningMax(scores[1..], h);
      forall i | 1 <= i < |scores| ensures HighAfter(scores, high) >= scores[i] {
        assert scores[i] == scores[1..][i - 1];
      }
      if HighAfter(scores[1..], h) in scores[1..] {
        var j :| 0 <= j < |scores[1..]| && scores[1..][j] == HighAfter(scores[1..], h);
        assert scores[j + 1] == scores[1..][j];
      }
    }
  }
}
