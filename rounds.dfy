/** One round of the game, Round: the word, the mask as an array of
    characters updated in place, the miss counter and the two flags. */
module Rounds {
  import opened RoundSpec

  class Round {
    const word: string
    const revealed: array<char>
    var wrongGuesses: nat
    var finished: bool
    var won: bool

    /** The round's fields as a value of the specification. */
    ghost function State(): RoundState
      reads this, revealed
    {
      RoundState(word, revealed[..], wrongGuesses, finished, won)
    }

    ghost predicate Valid()
      reads this, revealed
    {
      Consistent(State())
    }

    /** A fresh round over w: every cell hidden. */
    constructor (w: string)
      ensures Valid() && fresh(revealed)
      ensures State() == NewRound(w)
    {
      var mask := new char[|w|];
      var i := 0;
      while i < mask.Length
        invariant 0 <= i <= mask.Length
        invariant forall k :: 0 <= k < i ==> mask[k] == Placeholder
      {
        mask[i] := Placeholder;
        i := i + 1;
      }
      word := w;
      revealed := mask;
      wrongGuesses := 0;
      finished := false;
      won := false;
      new;
      assert revealed[..] == NewRound(w).revealed;
    }

    /** guessChar: uncover every hidden cell holding c, count a miss when none
        was uncovered, and finish the round as won once the mask spells the
        word. A finished round is left alone. */
    method GuessChar(c: char) returns (hit: bool)
      requires Valid()
      modifies this, revealed
      ensures Valid()
      ensures State() == Guess(old(State()), c)
      ensures hit == GuessHits(old(State()), c)
    {
      if finished {
        return false;
      }
      hit := false;
      var i := 0;
      while i < |word|
        modifies revealed
        invariant 0 <= i <= |word|
        invariant forall k :: 0 <= k < i ==>
          revealed[k] == (if word[k] == c && old(revealed[k]) == Placeholder then c else old(revealed[k]))
        invariant forall k :: i <= k < |word| ==> revealed[k] == old(revealed[k])
        invariant hit <==> exists k :: 0 <= k < i && word[k] == c && old(revealed[k]) == Placeholder
      {
        if word[i] == c && revealed[i] == Placeholder {
          revealed[i] := c;
          hit := true;
        }
        i := i + 1;
      }
      assert revealed[..] == RevealAll(word, old(revealed[..]), c);
      if !hit {
        wrongGuesses := wrongGuesses + 1;
      }
      if revealed[..] == word {
        won := true;
        finished := true;
      }
      GuessKeepsConsistent(old(State()), c);
    }

    /** timeUp: the round is over, whatever else holds. */
    method TimeUp()
      requires Valid()
      modifies this`finished
      ensures Valid()
      ensures State() == RoundSpec.TimeUp(old(State()))
    {
      finished := true;
    }

    function IsFinished(): (b: bool)
      reads this, revealed
      ensures b == State().finished
    {
      finished
    }

    /** A won round is over and shows the whole word. */
    function IsWon(): (b: bool)
      reads this, revealed
      ensures b == State().won
      ensures Valid() && b ==> IsFinished() && Revealed() == Word()
    {
      won
    }

    function WrongGuesses(): (n: nat)
      reads this, revealed
      ensures n == State().wrongGuesses
    {
      wrongGuesses
    }

    /** The mask as a string, one cell per letter of the word. */
    function Revealed(): (r: string)
      reads this, revealed
      ensures r == State().revealed
      ensures Valid() ==> |r| == |Word()|
    {
      revealed[..]
    }

    function Word(): (r: string)
      reads this, revealed
      ensures r == State().word
    {
      word
    }
  }
}
