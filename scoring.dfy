/** Scoring of one round and the running total kept across rounds. */
module Scoring {
  import opened Rules

  function Max(a: int, b: int): (r: int)
  {
    if a < b then b else a
  }

  /** What a won round earns before the floor at zero:
      base + bonus * secondsLeft - penalty * wrongGuesses. */
  function WinScore(rules: GameRules, secondsLeft: int, wrongGuesses: int): (r: int)
  {
    rules.baseScore
      + rules.bonusPerSecondRemaining * secondsLeft
      - rules.penaltyPerWrongGuess * wrongGuesses
  }

  /** The points a round adds to the total: nothing for a lost round, and a
      won round's score floored at zero. */
  function RoundPoints(rules: GameRules, won: bool, secondsLeft: int, wrongGuesses: int): (p: int)
    ensures p >= 0
    ensures !won ==> p == 0
    ensures won && WinScore(rules, secondsLeft, wrongGuesses) >= 0 ==> p == WinScore(rules, secondsLeft, wrongGuesses)
    ensures won && WinScore(rules, secondsLeft, wrongGuesses) < 0 ==> p == 0
  {
    var scoreThisRound := if won then WinScore(rules, secondsLeft, wrongGuesses) else 0;
    Max(0, scoreThisRound)
  }

  /** Time left never costs points when the bonus is not negative. */
  lemma MoreTimeNeverLowersPoints(rules: GameRules, won: bool, s1: int, s2: int, wrongGuesses: int)
    requires rules.bonusPerSecondRemaining >= 0
    requires s1 <= s2
    ensures RoundPoints(rules, won, s1, wrongGuesses) <= RoundPoints(rules, won, s2, wrongGuesses)
  {
    var d := s2 - s1;
    assert rules.bonusPerSecondRemaining * s2 == rules.bonusPerSecondRemaining * s1 + rules.bonusPerSecondRemaining * d;
    assert rules.bonusPerSecondRemaining * d >= 0;
  }

  /** Wrong guesses never earn points when the penalty is not negative. */
  lemma MoreMissesNeverRaisePoints(rules: GameRules, won: bool, secondsLeft: int, w1: int, w2: int)
    requires rules.penaltyPerWrongGuess >= 0
    requires w1 <= w2
    ensures RoundPoints(rules, won, secondsLeft, w2) <= RoundPoints(rules, won, secondsLeft, w1)
  {
    var d := w2 - w1;
    assert rules.penaltyPerWrongGuess * w2 == rules.penaltyPerWrongGuess * w1 + rules.penaltyPerWrongGuess * d;
    assert rules.penaltyPerWrongGuess * d >= 0;
  }

  /** With non-negative rules and the seconds left within the round's time, a
      round earns at most a flawless win with the full time left. */
  lemma RoundPointsBounded(rules: GameRules, won: bool, secondsLeft: int, wrongGuesses: nat)
    requires rules.baseScore >= 0 && rules.bonusPerSecondRemaining >= 0 && rules.penaltyPerWrongGuess >= 0
    requires 0 <= secondsLeft <= rules.roundTimeSeconds
    ensures RoundPoints(rules, won, secondsLeft, wrongGuesses)
         <= rules.baseScore + rules.bonusPerSecondRemaining * rules.roundTimeSeconds
  {
    MoreTimeNeverLowersPoints(rules, won, secondsLeft, rules.roundTimeSeconds, wrongGuesses);
    MoreMissesNeverRaisePoints(rules, won, rules.roundTimeSeconds, 0, wrongGuesses);
  }

  /** The two winning rounds worked out for the standard rules: 20 seconds left
      and no miss gives 90; 5 seconds left and 4 misses gives 40. A lost round
      gives 0 whatever the clock says. */
  lemma StandardRulesScores()
    ensures RoundPoints(StandardRules(), true, 20, 0) == 90
    ensures RoundPoints(StandardRules(), true, 5, 4) == 40
    ensures RoundPoints(StandardRules(), false, 20, 0) == 0
  {
  }

  /** The running total, Scoreboard: starts at zero and only ever has round
      points added to it. */
  class Scoreboard {
    var totalScore: int

    constructor ()
      ensures totalScore == 0
    {
      totalScore := 0;
    }

    method Add(score: int)
      modifies this
      ensures totalScore == old(totalScore) + score
      ensures score >= 0 ==> totalScore >= old(totalScore)
    {
      totalScore := totalScore + score;
    }

    function TotalScore(): (t: int)
      reads this
      ensures t == totalScore
    {
      totalScore
    }
  }
}
