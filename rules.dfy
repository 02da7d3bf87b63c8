/** The configuration of a game session: the five numbers of the GameRules
    interface, read-only for the whole session. */
module Rules {

  datatype GameRules = GameRules(
    baseScore: int,
    bonusPerSecondRemaining: int,
    penaltyPerWrongGuess: int,
    maxWrongGuesses: int,
    roundTimeSeconds: int)

  /** The one concrete rule set, StandardRules. */
  function StandardRules(): (r: GameRules)
    ensures r.baseScore == 50 && r.bonusPerSecondRemaining == 2 && r.penaltyPerWrongGuess == 5
    ensures r.maxWrongGuesses == 5 && r.roundTimeSeconds == 30
    ensures r.baseScore >= 0 && r.bonusPerSecondRemaining >= 0 && r.penaltyPerWrongGuess >= 0
    ensures r.maxWrongGuesses > 0 && r.roundTimeSeconds > 0
  {
    GameRules(
      baseScore := 50,
      bonusPerSecondRemaining := 2,
      penaltyPerWrongGuess := 5,
      maxWrongGuesses := 5,
      roundTimeSeconds := 30)
  }
}
