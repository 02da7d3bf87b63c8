/** The round state machine on values: the fields of one hangman round and
    what a guess and the end of the time do to them. The class Round in
    module Rounds is proved to follow these functions. */
module RoundSpec {

  /** The character that stands for a letter not yet revealed. */
  const Placeholder: char := '_'

  /** The state of one round: the hidden word, the mask shown to the player,
      the number of misses, and the two flags. */
  datatype RoundState = RoundState(
    word: string,
    revealed: seq<char>,
    wrongGuesses: nat,
    finished: bool,
    won: bool)

  predicate WellFormed(s: RoundState)
  {
    |s.revealed| == |s.word|
  }

  /** The round invariant: every cell of the mask is still hidden or shows the
      word's own letter, and a won round is finished with the mask spelling
      the word. */
  predicate Consistent(s: RoundState)
  {
    && WellFormed(s)
    && (forall i :: 0 <= i < |s.word| ==> s.revealed[i] == Placeholder || s.revealed[i] == s.word[i])
    && (s.won ==> s.finished && s.revealed == s.word)
  }

  /** A new round: all cells hidden, no miss, neither finished nor won. */
  function NewRound(word: string): (s: RoundState)
    ensures Consistent(s)
    ensures |s.revealed| == |word| && forall i :: 0 <= i < |word| ==> s.revealed[i] == Placeholder
    ensures s.word == word && s.wrongGuesses == 0 && !s.finished && !s.won
  {
    RoundState(word, seq(|word|, _ => Placeholder), 0, false, false)
  }

  /** Some hidden cell holds exactly the letter c. */
  predicate Reveals(word: string, mask: seq<char>, c: char)
    requires |mask| == |word|
  {
    exists i :: 0 <= i < |word| && word[i] == c && mask[i] == Placeholder
  }

  /** The mask after uncovering every hidden cell whose letter is exactly c. */
  function RevealAll(word: string, mask: seq<char>, c: char): (r: seq<char>)
    requires |mask| == |word|
    ensures |r| == |word|
  {
    seq(|word|, i requires 0 <= i < |word| => if word[i] == c && mask[i] == Placeholder then c else mask[i])
  }

  /** What guessChar returns: the round was still open and the guess
      uncovered a cell. */
  predicate GuessHits(s: RoundState, c: char)
    requires WellFormed(s)
  {
    !s.finished && Reveals(s.word, s.revealed, c)
  }

  /** The state after guessChar(c). */
  function Guess(s: RoundState, c: char): (t: RoundState)
    requires WellFormed(s)
    ensures WellFormed(t) && t.word == s.word
    ensures s.finished ==> t == s
    ensures !s.finished ==> forall i :: 0 <= i < |t.revealed| ==>
      t.revealed[i] == (if s.word[i] == c && s.revealed[i] == Placeholder then c else s.revealed[i])
    ensures s.wrongGuesses <= t.wrongGuesses <= s.wrongGuesses + 1
    ensures !s.finished ==> (t.wrongGuesses == s.wrongGuesses <==> GuessHits(s, c))
    ensures !s.finished ==> (t.won <==> t.revealed == t.word || s.won)
    ensures !s.finished ==> (t.finished <==> t.revealed == t.word)
  {
    if s.finished then s
    else
      var mask := RevealAll(s.word, s.revealed, c);
      var wrong := if Reveals(s.word, s.revealed, c) then s.wrongGuesses else s.wrongGuesses + 1;
      if mask == s.word then RoundState(s.word, mask, wrong, true, true)
      else RoundState(s.word, mask, wrong, s.finished, s.won)
  }

  /** The state after timeUp(). */
  function TimeUp(s: RoundState): (t: RoundState)
    ensures WellFormed(s) ==> WellFormed(t)
    ensures t.finished && t.won == s.won && t.wrongGuesses == s.wrongGuesses
    ensures t.word == s.word && t.revealed == s.revealed
  {
    s.(finished := true)
  }

  /** The state after a series of guesses, in order. */
  function Guesses(s: RoundState, cs: seq<char>): (t: RoundState)
    requires WellFormed(s)
    ensures WellFormed(t) && t.word == s.word
    decreases |cs|
  {
    if cs == [] then s else Guesses(Guess(s, cs[0]), cs[1..])
  }

  // ---------------------------------------------------------------------
  // Properties of a guess
  // ---------------------------------------------------------------------

  /** A guess keeps the round invariant. */
  lemma GuessKeepsConsistent(s: RoundState, c: char)
    requires Consistent(s)
    ensures Consistent(Guess(s, c))
  {
  }

  /** A finished round ignores guesses: the guess misses and nothing changes. */
  lemma GuessWhenFinished(s: RoundState, c: char)
    requires WellFormed(s) && s.finished
    ensures !GuessHits(s, c) && Guess(s, c) == s
  {
  }

  /** A guess of c uncovers exactly the hidden cells holding c and changes no
      other cell; it hits if and only if there was such a cell. */
  lemma GuessRevealsExactly(s: RoundState, c: char)
    requires WellFormed(s) && !s.finished
    ensures forall i :: 0 <= i < |s.word| && s.word[i] == c && s.revealed[i] == Placeholder ==>
      Guess(s, c).revealed[i] == c
    ensures forall i :: 0 <= i < |s.word| && !(s.word[i] == c && s.revealed[i] == Placeholder) ==>
      Guess(s, c).revealed[i] == s.revealed[i]
    ensures GuessHits(s, c) <==> exists i :: 0 <= i < |s.word| && s.word[i] == c && s.revealed[i] == Placeholder
  {
  }

  /** A miss adds exactly one wrong guess and leaves the mask alone; a hit adds
      none. Either way the count never goes down. */
  lemma GuessCountsMisses(s: RoundState, c: char)
    requires WellFormed(s) && !s.finished
    ensures GuessHits(s, c) ==> Guess(s, c).wrongGuesses == s.wrongGuesses
    ensures !GuessHits(s, c) ==> Guess(s, c).wrongGuesses == s.wrongGuesses + 1 && Guess(s, c).revealed == s.revealed
    ensures Guess(s, c).wrongGuesses >= s.wrongGuesses
  {
    if !GuessHits(s, c) {
      var t := Guess(s, c);
      assert forall i :: 0 <= i < |s.word| ==> t.revealed[i] == s.revealed[i];
    }
  }

  /** Guessing a letter a second time is a miss: the first guess uncovered
      every cell holding it. (The placeholder itself is the exception: a
      word cell holding '_' is hidden and shown alike.) */
  lemma RepeatGuessIsMiss(s: RoundState, c: char)
    requires WellFormed(s) && !s.finished && c != Placeholder
    requires !Guess(s, c).finished
    ensures !GuessHits(Guess(s, c), c)
    ensures Guess(Guess(s, c), c).wrongGuesses == Guess(s, c).wrongGuesses + 1
    ensures Guess(Guess(s, c), c).revealed == Guess(s, c).revealed
  {
    var t := Guess(s, c);
    GuessCountsMisses(t, c);
  }

  /** A letter the word does not contain, guessed on an open round whose mask
      does not yet spell the word, is a plain miss: one more wrong guess and
      nothing else changes. */
  lemma GuessAbsentLetter(s: RoundState, c: char)
    requires WellFormed(s) && !s.finished && s.revealed != s.word
    requires c !in s.word
    ensures Guess(s, c) == s.(wrongGuesses := s.wrongGuesses + 1)
  {
    GuessCountsMisses(s, c);
  }

  /** After a guess on an open round, won and finished are set together, and
      exactly when the mask spells the word. */
  lemma GuessWinsIffSpelled(s: RoundState, c: char)
    requires Consistent(s) && !s.finished
    ensures Guess(s, c).won <==> Guess(s, c).revealed == s.word
    ensures Guess(s, c).finished <==> Guess(s, c).won
  {
  }

  /** Cells only move from hidden to the word's letter. */
  lemma GuessOnlyUncovers(s: RoundState, c: char)
    requires Consistent(s)
    ensures forall i :: 0 <= i < |s.word| && s.revealed[i] == s.word[i] ==> Guess(s, c).revealed[i] == s.word[i]
  {
  }

  /** Generalisation used for GuessingEveryLetterWins: if every cell that does
      not yet show its letter holds a letter still to be guessed, and the round
      has not ended without a win, the guesses win the round. */
  lemma {:induction false} GuessesCoverWord(s: RoundState, cs: seq<char>)
    requires Consistent(s) && (s.finished ==> s.won)
    requires |cs| > 0
    requires forall i :: 0 <= i < |s.word| && s.revealed[i] != s.word[i] ==> s.word[i] in cs
    ensures Guesses(s, cs).won && Guesses(s, cs).revealed == s.word
    decreases |cs|
  {
    var t := Guess(s, cs[0]);
    GuessKeepsConsistent(s, cs[0]);
    GuessOnlyUncovers(s, cs[0]);
    if !s.finished {
      assert forall i :: 0 <= i < |s.word| && s.word[i] == cs[0] ==> t.revealed[i] == s.word[i];
    }
    if |cs| == 1 {
      if !s.finished {
        assert forall i :: 0 <= i < |s.word| ==> t.revealed[i] == s.word[i];
        assert t.revealed == s.word;
      }
      assert Guesses(s, cs) == Guesses(t, []);
    } else {
      forall i | 0 <= i < |s.word| && t.revealed[i] != s.word[i]
        ensures s.word[i] in cs[1..]
      {
        assert s.word[i] in cs;
        assert s.word[i] != cs[0];
        assert s.word[i] == cs[0] || s.word[i] in cs[1..];
      }
      GuessesCoverWord(t, cs[1..]);
    }
  }

  /** Guessing every letter of the word, in any order and with any misses in
      between, wins a fresh round. */
  lemma GuessingEveryLetterWins(word: string, cs: seq<char>)
    requires |cs| > 0
    requires forall i :: 0 <= i < |word| ==> word[i] in cs
    ensures Guesses(NewRound(word), cs).won
    ensures Guesses(NewRound(word), cs).finished
    ensures Guesses(NewRound(word), cs).revealed == word
  {
    GuessesCoverWord(NewRound(word), cs);
    GuessesKeepConsistent(NewRound(word), cs);
  }

  lemma {:induction false} GuessesKeepConsistent(s: RoundState, cs: seq<char>)
    requires Consistent(s)
    ensures Consistent(Guesses(s, cs))
    decreases |cs|
  {
    if cs != [] {
      GuessKeepsConsistent(s, cs[0]);
      GuessesKeepConsistent(Guess(s, cs[0]), cs[1..]);
    }
  }

  // ---------------------------------------------------------------------
  // Properties of the end of the time
  // ---------------------------------------------------------------------

  /** timeUp finishes the round and touches nothing else: a win survives it,
      and a second timeUp changes nothing more. */
  lemma TimeUpOnlyFinishes(s: RoundState)
    requires Consistent(s)
    ensures Consistent(TimeUp(s))
    ensures TimeUp(s).finished
    ensures TimeUp(s).won == s.won && TimeUp(s).wrongGuesses == s.wrongGuesses
    ensures TimeUp(s).revealed == s.revealed && TimeUp(s).word == s.word
    ensures TimeUp(TimeUp(s)) == TimeUp(s)
  {
  }
}
