# Hangman rounds: a Dafny model

This project models the round logic of a console hangman game. Each round
draws a word from a word bank. The player guesses letters against a 30-second
countdown and a limit of wrong guesses. Won rounds earn points that add to a
running total.

The model has these parts:

- `Rules` (rules.dfy): the five game constants, `GameRules` and `StandardRules`.
- `Scoring` (scoring.dfy): the points a round adds to the total, and the
  `Scoreboard` class that keeps the total.
- `Words` (words.dfy): `WordBank.nextWord`. The random draw is an argument;
  the word is lower-cased.
- `RoundSpec` (round_spec.dfy): the round as a value, `RoundState`, and what a
  guess and the end of the time do to it. It also holds the lemmas about the
  state machine: the mask invariant, exact reveal, miss counting, winning, and
  a finished round being absorbing.
- `Rounds` (rounds.dfy): the `Round` class. Its mask is an `array<char>`
  updated in place by a loop in `GuessChar`. The constructor, `GuessChar` and
  `TimeUp` are proved to follow `RoundSpec`. The accessors `IsFinished`,
  `IsWon`, `WrongGuesses`, `Revealed` and `Word` are reading functions.
- `Engine` (engine.dfy): the guess loop and the rounds loop of
  `GameEngine.playRounds`, without console output. The input is one stream of
  events shared by all rounds, as the single `Scanner` is in the source. Each
  event is either a typed line, already trimmed and lower-cased, or the round's
  timer reaching zero. `RunGuessLoop` is the loop on values and
  `PlayGuessLoop` the loop on a `Round` object. `PlayRounds` plays the rounds
  and returns the final total.

The model follows the code where it differs from a friendlier description of
the game:

- A guess is compared with `==`, so it is case-sensitive. Lower-casing happens
  only in the word bank and on input.
- Guessing a letter that is already revealed is a miss. The hit test needs a
  cell that is still `'_'`. See `RoundSpec.RepeatGuessIsMiss`.
- `timeUp` sets `finished` even on a round that is already over. It never
  clears `won`, so a win that came first survives it.
- Reaching the wrong-guess limit only ends the loop; the limit itself sets
  no flag. A round stopped by the limit is finished and won only when the
  miss that reached the limit also left the mask equal to the word. That
  happens only for a word made of `'_'` characters, such as the empty word.
  Otherwise the round is neither finished nor won and scores 0.
- The rules are not checked for sign or range. The loop never runs when
  `maxWrongGuesses <= 0`. The clock starts at `roundTimeSeconds` and each
  tick sets it to the remaining time, floored at 0. With a round time of 0
  or less, the clock therefore reads either the round time or 0, and a
  won round is scored with that value (`Engine.PossibleSecondsLeft`).
- The loop test runs only before a line is read. When the timer fires while
  the loop waits for input, the round is finished. The line typed next is
  still read by that round, even when it is blank. A non-blank line goes to
  `guessChar`, where it changes nothing; a blank one is skipped. Only after
  that read does the loop stop, so the line after it goes to the next
  round. See
  `Engine.LineAfterTimeoutIsRead`.
- A word may contain `'_'`, the placeholder character. Such cells look the
  same hidden or revealed, and the model keeps that behaviour.
  `RepeatGuessIsMiss` therefore excludes guessing `'_'` itself.

## Model

| member | source | states |
|---|---|---|
| `Rules.StandardRules` | Main.java:14-20 | The standard rules are base score 50, bonus 2 per second left, penalty 5 per wrong guess, 5 wrong guesses allowed and 30 seconds per round. So every rule is non-negative, and the limit and the round time are positive. |
| `Scoring.RoundPoints` | Main.java:151-160 | The points added are never negative. A round that is not won adds 0. A won round whose score `base + bonus*secondsLeft - penalty*wrong` is not negative adds exactly that score. A won round whose score is negative adds 0. |
| `Scoring.MoreTimeNeverLowersPoints` | Main.java:153-155 | With a non-negative bonus, more seconds left never gives fewer points. |
| `Scoring.MoreMissesNeverRaisePoints` | Main.java:153-155 | With a non-negative penalty, more wrong guesses never give more points. |
| `Scoring.RoundPointsBounded` | Main.java:151-160 | With non-negative rules and `0 <= secondsLeft <= roundTimeSeconds`, a round earns at most `base + bonus*roundTimeSeconds`. |
| `Scoring.StandardRulesScores` | Main.java:15-17 | Under the standard rules, a win with 20 s left and 0 misses earns 90. A win with 5 s left and 4 misses earns 40. A lost round earns 0. |
| `Scoring.Scoreboard.constructor` | Main.java:77 | A new scoreboard's total is 0. |
| `Scoring.Scoreboard.Add` | Main.java:78 | The total grows by exactly the score added, so it never falls when the score is not negative. |
| `Scoring.Scoreboard.TotalScore` | Main.java:79 | Returns the running total that `Add` maintains. |
| `Words.ToLower` | Main.java:32 | The result has the same length and no upper-case ASCII letter. Each upper-case letter `A`-`Z` becomes the lower-case letter 32 code points above it. Characters that are not upper-case letters are kept. |
| `Words.ToLowerIdempotent` | Main.java:32 | Lower-casing twice gives the same result as lower-casing once. |
| `Words.NextWord` | Main.java:31-33 | The drawn word has the length of the bank entry at the drawn index. Each character is that entry's character lower-cased. The word is its own lower-case form. |
| `RoundSpec.NewRound` | Main.java:40-48 | A new round satisfies the round invariant. Its mask has the word's length and every cell is `'_'`. It has no wrong guess and is neither finished nor won. |
| `RoundSpec.Guess` | Main.java:50-64 | A guess on a finished round changes nothing. Otherwise each cell becomes `c` if it was `'_'` and the word has `c` there, and keeps its value if not. The wrong-guess count grows by 1 exactly when no hidden cell holds `c`, and by 0 otherwise. A guess of `'_'` on a word holding `'_'` therefore counts as a hit although no cell changes. The round is finished after the guess exactly when the mask equals the word, and won exactly when the mask equals the word or it was won already. The word is kept. |
| `RoundSpec.TimeUp` | Main.java:66 | The round becomes finished. `won`, the wrong-guess count, the word and the mask are kept. |
| `RoundSpec.GuessKeepsConsistent` | Main.java:53-62 | After a guess, every cell is still `'_'` or the word's letter, and `won` implies `finished` with the mask equal to the word. |
| `RoundSpec.GuessWhenFinished` | Main.java:50-51 | On a finished round a guess returns false and changes nothing. |
| `RoundSpec.GuessRevealsExactly` | Main.java:52-58 | A guess of `c` sets to `c` exactly the hidden cells whose letter is `c` and leaves every other cell as it was. It hits if and only if such a cell existed. |
| `RoundSpec.GuessCountsMisses` | Main.java:53-59 | A miss adds exactly one wrong guess and leaves the mask unchanged. A hit adds none. The count never decreases. |
| `RoundSpec.GuessAbsentLetter` | Main.java:53-59 | Guessing a letter the word lacks, on an open round not yet spelled out, changes only the wrong-guess count, by +1. |
| `RoundSpec.RepeatGuessIsMiss` | Main.java:54-59 | Guessing the same letter other than `'_'` a second time on a round still open is a miss. It adds one wrong guess and leaves the mask unchanged. |
| `RoundSpec.GuessWinsIffSpelled` | Main.java:60-62 | After a guess on an open round, `won` holds exactly when the mask equals the word, and `finished` holds exactly when `won` does. |
| `RoundSpec.GuessOnlyUncovers` | Main.java:53-56 | A cell that shows its letter keeps showing it after a guess. |
| `RoundSpec.GuessesCoverWord` | Main.java:50-62 | Suppose the round is not finished without a win. If every cell not yet showing its letter holds a letter among a non-empty series of guesses, the series wins the round and the mask spells the word. |
| `RoundSpec.GuessingEveryLetterWins` | Main.java:44-62 | On a fresh round, a non-empty series of guesses that includes every letter of the word, in any order and with any misses, leaves the round won and finished with the mask equal to the word. |
| `RoundSpec.GuessesKeepConsistent` | Main.java:50-62 | Any series of guesses keeps the round invariant. |
| `RoundSpec.TimeUpOnlyFinishes` | Main.java:66 | `timeUp` sets `finished`. It leaves `won`, the wrong-guess count, the word and the mask unchanged, keeps the invariant, and a second call changes nothing. |
| `Rounds.Round.constructor` | Main.java:44-48 | The new object's state is `NewRound(w)`: every cell of a fresh array of the word's length is `'_'`. |
| `Rounds.Round.GuessChar` | Main.java:50-64 | The in-place loop leaves the fields and the array equal to `Guess` applied to the old state. The method returns exactly `GuessHits`, and the invariant is kept. |
| `Rounds.Round.TimeUp` | Main.java:66 | Only `finished` changes, to true, and the invariant is kept. |
| `Rounds.Round.IsFinished` | Main.java:68 | Returns the round's `finished` flag. |
| `Rounds.Round.IsWon` | Main.java:69 | Returns the round's `won` flag. On a round that keeps the invariant, a won round is finished and its mask equals its word. |
| `Rounds.Round.WrongGuesses` | Main.java:70 | Returns the round's wrong-guess count. |
| `Rounds.Round.Revealed` | Main.java:71 | Returns the mask as a string. On a round that keeps the invariant, it has the word's length. |
| `Rounds.Round.Word` | Main.java:72 | Returns the round's word. |
| `Engine.Step` | Main.java:139-142 | One event's effect on the round. A finished round is kept as it is, so a line read after the timer fired changes nothing. The timer always leaves the round finished and changes nothing else. The word is kept, and the wrong-guess count grows by at most 1. |
| `Engine.RunGuessLoop` | Main.java:136-147 | The loop stops only when its test finds the round finished or the wrong guesses at the limit, or when the input runs out. The test runs before each read, so a read the timer interrupts is still completed. The word and the mask length are kept. |
| `Engine.PlayGuessLoop` | Main.java:136-147 | Run on a `Round` object, the loop leaves the object in the state that `RunGuessLoop` computes and returns the unread input. |
| `Engine.LoopUnfold` | Main.java:136-142 | When the test passes, or the read was interrupted by the timer, one pass takes the first event and carries on with the rest. |
| `Engine.LineAfterTimeoutIsRead` | Main.java:133-142 | If the timer fires while an open round waits for input, the next line is still read. The round ends as `timeUp` left it, and only the input after that line is left unread. |
| `Engine.LoopLeavesFinishedRound` | Main.java:50-51 | A round that is already finished comes out of the loop unchanged. |
| `Engine.LoopLeavesSuffix` | Main.java:136-140 | The loop consumes its input from the front. What it leaves unread is a suffix of the input. |
| `Engine.LoopKeepsConsistent` | Main.java:136-147 | The loop keeps the round invariant. |
| `Engine.LoopBoundsMisses` | Main.java:136-137 | If the loop starts with at most `maxWrongGuesses` wrong guesses, it ends with at most that many, and never with fewer than it started with. |
| `Engine.BlankLinesChangeNothing` | Main.java:139-140 | Blank lines use up no guess: removing them from the input gives the same final round. |
| `Engine.LoopOutcomeOfFreshRound` | Main.java:125-147 | For a fresh round and a non-negative limit, a won result is finished and spells the word, and the wrong guesses stay within the limit. A round that is still open and under the limit has read all its input. |
| `Engine.GameTotal` | Main.java:123-162 | The total over the played rounds is never negative. |
| `Engine.PlayRounds` | Main.java:121-165 | The final total of `count` rounds equals `GameTotal` of the draws, the clocks and the shared input, and is never negative. Each clock is a value the seconds-left cell can hold. |
| `Engine.CatWonQuickly` | Main.java:136-160 | Standard rules, word "cat": the input "c", "a", "t" wins with 0 misses and earns 90 points at 20 s left. |
| `Engine.CatWonAfterFourMisses` | Main.java:136-160 | Standard rules, word "cat": four misses and then "c", "a", "t" win with 4 misses and earn 40 points at 5 s left. |
| `Engine.CatTimedOut` | Main.java:130-160 | Standard rules, word "cat": the timer fires after "c" while the loop waits for input. The round is finished with "c__" and not won. The next line, "a", is still read by this round and changes nothing. Only "t" is left for the next round, and the round earns 0. |
| `Engine.CatOutOfGuesses` | Main.java:136-160 | Standard rules, word "cat": five misses end the loop with the round neither finished nor won and 5 wrong guesses. "c", "a", "t" stay unread, and the round earns 0. |

## Left out

- `TimerService` (Main.java:83-105) is not modelled. It is a scheduled executor that ticks once a second on its own thread, with cancel and shutdown. The model replaces it with two things. A `TimerFinished` event in the input stream stands for the timer reaching zero. The seconds left at the end of each round are an input. It is limited to the values the ticks can produce: the round time, or a tick's remaining time floored at 0.
- Concurrency is not modelled. In the source the timer thread can call `timeUp` while `guessChar` is running. The model treats each event as atomic. It also leaves out a timer that fires after the loop has ended but before `timer.stop()`. That call would only set `finished` on a round whose score no longer depends on it.
- The model does not cover a timer that fires after `guessChar` returns but before the loop test runs again. In the source the loop would then stop without reading another line. In the model, `TimerFinished` always stands for a timer that fired while the loop waited for a line.
- Console input and output are not modelled (Main.java:122, 126-127, 138-146, 156-164). Lines come from a sequence of events, and nothing is printed.
- `java.util.Random` is not modelled. The draw is an argument that must lie in `[0, size)`, so an empty bank, where `nextInt(0)` would throw, cannot be called.
- Words.ToLower: lower-cases only ASCII `A`-`Z`. Java's `toLowerCase` maps all of Unicode and depends on the locale.
- `trim` and `toLowerCase` on input lines (Main.java:139) are not modelled. Lines are taken as already trimmed and lower-cased.
- Engine.RunGuessLoop: stops when the input runs out. The source's `Scanner.nextLine` would wait, or throw once input is closed.
- Java `int` overflow is not modelled. The score, the total and the wrong-guess count are mathematical integers.
- `Main.main` (Main.java:169-178) and the `GameEngine` constructor are configuration wiring and are not modelled.
- TranslationGame.java is a separate Swing quiz program and is not part of this model.
