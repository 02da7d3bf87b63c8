/** The game engine, GameEngine.playRounds, without its console: rounds are
    played one after another; each draws a word, runs the guess loop over a
    shared input stream until the round is finished or the misses reach the
    limit, and adds the round's points to the scoreboard. */
module Engine {
  import opened Rules
  import opened RoundSpec
  import opened Rounds
  import opened Scoring
  import opened Words

  /** What the guess loop can observe, in the order it happens: a line typed
      by the player (already trimmed and lower-cased), or the round's timer
      reaching zero while the loop is blocked reading the next line. */
  datatype Event = Line(text: string) | TimerFinished

  /** The round after the guess loop, and the input the loop did not read. */
  datatype LoopOutcome = LoopOutcome(round: RoundState, unread: seq<Event>)

  /** The loop condition: the round is open and the misses are under the limit. */
  predicate KeepsGuessing(s: RoundState, maxWrongGuesses: int)
  {
    !s.finished && s.wrongGuesses < maxWrongGuesses
  }

  /** One event's effect on the round: a blank line is skipped, any other line
      guesses its first character, and the timer ends the round. A finished
      round is left as it is, so a line read after the timer fired is a
      guess that changes nothing. */
  function Step(s: RoundState, e: Event): (t: RoundState)
    requires WellFormed(s)
    ensures WellFormed(t) && t.word == s.word
    ensures s.finished ==> t == s
    ensures s.wrongGuesses <= t.wrongGuesses <= s.wrongGuesses + 1
    ensures e == TimerFinished ==> t.finished
    ensures e == TimerFinished ==> t.won == s.won && t.revealed == s.revealed && t.wrongGuesses == s.wrongGuesses
  {
    match e
    case TimerFinished => RoundSpec.TimeUp(s)
    case Line(text) => if text == "" then s else Guess(s, text[0])
  }

  /** The guess loop on values. The loop test runs before each read; once it
      passes, the loop is blocked reading a line. A timer that fires during
      that wait ends the round, but the line is still read before the test
      runs again. `timedOutInRead` says the loop is in such a read: it has
      passed its test and the timer has fired since. The loop stops when the
      test fails or the input runs out, and leaves the rest of the input
      unread. */
  function RunGuessLoop(s: RoundState, maxWrongGuesses: int, events: seq<Event>, timedOutInRead: bool): (o: LoopOutcome)
    requires WellFormed(s)
    requires timedOutInRead ==> s.finished
    ensures WellFormed(o.round) && o.round.word == s.word
    ensures KeepsGuessing(o.round, maxWrongGuesses) ==> o.unread == []
    decreases |events|
  {
    if events == [] then LoopOutcome(s, [])
    else if !timedOutInRead && !KeepsGuessing(s, maxWrongGuesses) then LoopOutcome(s, events)
    else RunGuessLoop(Step(s, events[0]), maxWrongGuesses, events[1..], events[0] == TimerFinished)
  }

  /** The guess loop on a Round object; returns the input it did not read. */
  method PlayGuessLoop(round: Round, maxWrongGuesses: int, events: seq<Event>) returns (unread: seq<Event>)
    requires round.Valid()
    modifies round, round.revealed
    ensures round.Valid()
    ensures LoopOutcome(round.State(), unread) == RunGuessLoop(old(round.State()), maxWrongGuesses, events, false)
  {
    unread := events;
    while !round.IsFinished() && round.WrongGuesses() < maxWrongGuesses && unread != []
      invariant round.Valid()
      invariant RunGuessLoop(round.State(), maxWrongGuesses, unread, false)
             == RunGuessLoop(old(round.State()), maxWrongGuesses, events, false)
      decreases |unread|
    {
      // Blocked in nextLine: the timer may fire before the line arrives.
      ghost var timedOut := false;
      while unread != [] && unread[0] == TimerFinished
        invariant round.Valid()
        invariant timedOut ==> round.finished
        invariant !timedOut ==> KeepsGuessing(round.State(), maxWrongGuesses)
        invariant RunGuessLoop(round.State(), maxWrongGuesses, unread, timedOut)
               == RunGuessLoop(old(round.State()), maxWrongGuesses, events, false)
        decreases |unread|
      {
        round.TimeUp();
        unread := unread[1..];
        timedOut := true;
      }
      if unread != [] {
        var text := unread[0].text;
        unread := unread[1..];
        if text != "" {
          var _ := round.GuessChar(text[0]);
        }
      }
    }
  }

  // ---------------------------------------------------------------------
  // Properties of the guess loop
  // ---------------------------------------------------------------------

  /** One pass of the loop on an open round, or on a read that the timer
      interrupted: the first event is taken. */
  lemma LoopUnfold(s: RoundState, maxWrongGuesses: int, e: Event, rest: seq<Event>, timedOutInRead: bool)
    requires WellFormed(s) && (timedOutInRead ==> s.finished)
    requires timedOutInRead || KeepsGuessing(s, maxWrongGuesses)
    ensures RunGuessLoop(s, maxWrongGuesses, [e] + rest, timedOutInRead)
         == RunGuessLoop(Step(s, e), maxWrongGuesses, rest, e == TimerFinished)
  {
    assert ([e] + rest)[1..] == rest;
  }

  /** A line that arrives after the timer fired is still read by the
      timed-out round, and changes nothing in it. */
  lemma LineAfterTimeoutIsRead(s: RoundState, maxWrongGuesses: int, text: string, rest: seq<Event>)
    requires WellFormed(s) && KeepsGuessing(s, maxWrongGuesses)
    ensures var o := RunGuessLoop(s, maxWrongGuesses, [TimerFinished, Line(text)] + rest, false);
      o.round == RoundSpec.TimeUp(s) && o.unread == rest
  {
    var t := RoundSpec.TimeUp(s);
    LoopUnfold(s, maxWrongGuesses, TimerFinished, [Line(text)] + rest, false);
    assert [TimerFinished, Line(text)] + rest == [TimerFinished] + ([Line(text)] + rest);
    LoopUnfold(t, maxWrongGuesses, Line(text), rest, true);
    assert RunGuessLoop(t, maxWrongGuesses, rest, false) == LoopOutcome(t, if rest == [] then [] else rest);
  }

  /** The loop reads its input from the front: what it leaves is a suffix. */
  lemma {:induction false} LoopLeavesSuffix(s: RoundState, maxWrongGuesses: int, events: seq<Event>, timedOutInRead: bool)
    requires WellFormed(s) && (timedOutInRead ==> s.finished)
    ensures var o := RunGuessLoop(s, maxWrongGuesses, events, timedOutInRead);
      |o.unread| <= |events| && o.unread == events[|events| - |o.unread|..]
    decreases |events|
  {
    if events != [] && (timedOutInRead || KeepsGuessing(s, maxWrongGuesses)) {
      LoopLeavesSuffix(Step(s, events[0]), maxWrongGuesses, events[1..], events[0] == TimerFinished);
    }
  }

  /** A finished round comes out of the loop exactly as it went in. */
  lemma {:induction false} LoopLeavesFinishedRound(s: RoundState, maxWrongGuesses: int, events: seq<Event>, timedOutInRead: bool)
    requires WellFormed(s) && s.finished
    ensures RunGuessLoop(s, maxWrongGuesses, events, timedOutInRead).round == s
    decreases |events|
  {
    if events != [] && timedOutInRead {
      LoopLeavesFinishedRound(Step(s, events[0]), maxWrongGuesses, events[1..], events[0] == TimerFinished);
    }
  }

  /** The loop keeps the round invariant. */
  lemma {:induction false} LoopKeepsConsistent(s: RoundState, maxWrongGuesses: int, events: seq<Event>, timedOutInRead: bool)
    requires Consistent(s) && (timedOutInRead ==> s.finished)
    ensures Consistent(RunGuessLoop(s, maxWrongGuesses, events, timedOutInRead).round)
    decreases |events|
  {
    if events != [] && (timedOutInRead || KeepsGuessing(s, maxWrongGuesses)) {
      match events[0] {
        case TimerFinished => TimeUpOnlyFinishes(s);
        case Line(text) => if text != "" { GuessKeepsConsistent(s, text[0]); }
      }
      LoopKeepsConsistent(Step(s, events[0]), maxWrongGuesses, events[1..], events[0] == TimerFinished);
    }
  }

  /** Each pass adds at most one miss, so a loop that starts within the limit
      ends within it; and the count never goes down. */
  lemma {:induction false} LoopBoundsMisses(s: RoundState, maxWrongGuesses: int, events: seq<Event>, timedOutInRead: bool)
    requires WellFormed(s) && (timedOutInRead ==> s.finished)
    requires s.wrongGuesses <= maxWrongGuesses
    ensures s.wrongGuesses <= RunGuessLoop(s, maxWrongGuesses, events, timedOutInRead).round.wrongGuesses <= maxWrongGuesses
    decreases |events|
  {
    if events != [] && (timedOutInRead || KeepsGuessing(s, maxWrongGuesses)) {
      LoopBoundsMisses(Step(s, events[0]), maxWrongGuesses, events[1..], events[0] == TimerFinished);
    }
  }

  /** The input with its blank lines taken out. */
  function NonBlank(events: seq<Event>): (r: seq<Event>)
    ensures Line("") !in r
    ensures |r| <= |events|
  {
    if events == [] then []
    else if events[0] == Line("") then NonBlank(events[1..])
    else [events[0]] + NonBlank(events[1..])
  }

  /** Blank lines consume no guess: the round ends the same with or without
      them. */
  lemma {:induction false} BlankLinesChangeNothing(s: RoundState, maxWrongGuesses: int, events: seq<Event>, timedOutInRead: bool)
    requires WellFormed(s) && (timedOutInRead ==> s.finished)
    ensures RunGuessLoop(s, maxWrongGuesses, NonBlank(events), timedOutInRead).round
         == RunGuessLoop(s, maxWrongGuesses, events, timedOutInRead).round
    decreases |events|
  {
    if events == [] {
    } else if s.finished {
      LoopLeavesFinishedRound(s, maxWrongGuesses, events, timedOutInRead);
      LoopLeavesFinishedRound(s, maxWrongGuesses, NonBlank(events), timedOutInRead);
    } else if KeepsGuessing(s, maxWrongGuesses) {
      BlankLinesChangeNothing(Step(s, events[0]), maxWrongGuesses, events[1..], events[0] == TimerFinished);
      if events[0] != Line("") {
        assert ([events[0]] + NonBlank(events[1..]))[1..] == NonBlank(events[1..]);
      }
    } else {
      if NonBlank(events) != [] && events[0] != Line("") {
        assert NonBlank(events)[0] == events[0];
      }
    }
  }

  /** A round the loop leaves won is finished and its mask spells the word;
      a round it leaves neither finished nor out of misses had no input left. */
  lemma LoopOutcomeOfFreshRound(word: string, rules: GameRules, events: seq<Event>)
    requires rules.maxWrongGuesses >= 0
    ensures var o := RunGuessLoop(NewRound(word), rules.maxWrongGuesses, events, false);
      && (o.round.won ==> o.round.finished && o.round.revealed == word)
      && o.round.wrongGuesses <= rules.maxWrongGuesses
      && (!o.round.finished && o.round.wrongGuesses < rules.maxWrongGuesses ==> o.unread == [])
  {
    LoopKeepsConsistent(NewRound(word), rules.maxWrongGuesses, events, false);
    LoopBoundsMisses(NewRound(word), rules.maxWrongGuesses, events, false);
  }

  // ---------------------------------------------------------------------
  // Rounds and the total
  // ---------------------------------------------------------------------

  /** The values the seconds-left cell can hold when a round's loop ends:
      the round time it starts with, or a tick's max(remaining, 0), where
      remaining counts down from the round time by one per tick. */
  predicate PossibleSecondsLeft(rules: GameRules, v: int)
  {
    v == rules.roundTimeSeconds || v == 0 || (0 <= v && v < rules.roundTimeSeconds)
  }

  /** The points of a round that the loop left in state s, with secondsLeft
      on the clock when the loop ended. */
  function PointsOf(rules: GameRules, s: RoundState, secondsLeft: int): (r: int)
  {
    RoundPoints(rules, s.won, secondsLeft, s.wrongGuesses)
  }

  /** The total over the rounds drawn by `draws`, with `secondsLeft` the
      clock of each, all reading one input stream in turn. */
  function GameTotal(rules: GameRules, bank: WordBank, draws: seq<nat>, secondsLeft: seq<int>, events: seq<Event>): (total: int)
    requires |secondsLeft| == |draws|
    requires forall r :: 0 <= r < |draws| ==> draws[r] < |bank.words|
    ensures total >= 0
    decreases |draws|
  {
    if draws == [] then 0
    else
      var o := RunGuessLoop(NewRound(NextWord(bank, draws[0])), rules.maxWrongGuesses, events, false);
      PointsOf(rules, o.round, secondsLeft[0]) + GameTotal(rules, bank, draws[1..], secondsLeft[1..], o.unread)
  }

  /** playRounds: `count` rounds in sequence; returns the final total.
      draws[r] is the word bank's random draw for round r and secondsLeft[r]
      the clock when round r's loop ended. */
  method PlayRounds(rules: GameRules, bank: WordBank, count: int, draws: seq<nat>, secondsLeft: seq<int>, events: seq<Event>)
    returns (total: int)
    requires |draws| == |secondsLeft| == if count < 0 then 0 else count
    requires forall r :: 0 <= r < |draws| ==> draws[r] < |bank.words|
    requires forall r :: 0 <= r < |secondsLeft| ==> PossibleSecondsLeft(rules, secondsLeft[r])
    ensures total == GameTotal(rules, bank, draws, secondsLeft, events)
    ensures total >= 0
  {
    var scoreboard := new Scoreboard();
    var unread := events;
    var r := 0;
    while r < count
      invariant 0 <= r <= |draws|
      invariant r < count ==> r < |draws|
      invariant scoreboard.totalScore >= 0
      invariant scoreboard.totalScore + GameTotal(rules, bank, draws[r..], secondsLeft[r..], unread)
             == GameTotal(rules, bank, draws, secondsLeft, events)
    {
      var word := NextWord(bank, draws[r]);
      var round := new Round(word);
      ghost var o := RunGuessLoop(NewRound(word), rules.maxWrongGuesses, unread, false);
      ghost var rest := GameTotal(rules, bank, draws[r + 1..], secondsLeft[r + 1..], o.unread);
      assert draws[r..][1..] == draws[r + 1..] && secondsLeft[r..][1..] == secondsLeft[r + 1..];
      assert GameTotal(rules, bank, draws[r..], secondsLeft[r..], unread) == PointsOf(rules, o.round, secondsLeft[r]) + rest;
      unread := PlayGuessLoop(round, rules.maxWrongGuesses, unread);
      var points := RoundPoints(rules, round.IsWon(), secondsLeft[r], round.WrongGuesses());
      assert points == PointsOf(rules, o.round, secondsLeft[r]);
      scoreboard.Add(points);
      r := r + 1;
    }
    total := scoreboard.TotalScore();
  }

  // ---------------------------------------------------------------------
  // Worked rounds with the standard rules and the word "cat"
  //
  // The four scenarios are CatWonQuickly, CatWonAfterFourMisses,
  // CatTimedOut and CatOutOfGuesses. The lemmas before them (CatFresh,
  // CatGuessC, CatGuessA, CatGuessT, CatLoopMiss, CatLoopMisses,
  // CatCompleted) and the function Lines are steps of those four proofs,
  // not properties of their own.
  // ---------------------------------------------------------------------

  lemma CatFresh()
    ensures NewRound("cat") == RoundState("cat", "___", 0, false, false)
  {
  }

  lemma CatGuessC(wrong: nat)
    ensures Guess(RoundState("cat", "___", wrong, false, false), 'c') == RoundState("cat", "c__", wrong, false, false)
  {
    var s := RoundState("cat", "___", wrong, false, false);
    assert Reveals("cat", s.revealed, 'c') by { assert "cat"[0] == 'c'; }
    assert RevealAll("cat", s.revealed, 'c') == "c__";
  }

  lemma CatGuessA(wrong: nat)
    ensures Guess(RoundState("cat", "c__", wrong, false, false), 'a') == RoundState("cat", "ca_", wrong, false, false)
  {
    var s := RoundState("cat", "c__", wrong, false, false);
    assert Reveals("cat", s.revealed, 'a') by { assert "cat"[1] == 'a'; }
    assert RevealAll("cat", s.revealed, 'a') == "ca_";
  }

  lemma CatGuessT(wrong: nat)
    ensures Guess(RoundState("cat", "ca_", wrong, false, false), 't') == RoundState("cat", "cat", wrong, true, true)
  {
    var s := RoundState("cat", "ca_", wrong, false, false);
    assert Reveals("cat", s.revealed, 't') by { assert "cat"[2] == 't'; }
    assert RevealAll("cat", s.revealed, 't') == "cat";
  }

  /** A miss on "cat" with nothing uncovered yet costs one wrong guess. */
  lemma CatLoopMiss(wrong: nat, c: char, rest: seq<Event>)
    requires wrong < 5 && c !in "cat"
    ensures RunGuessLoop(RoundState("cat", "___", wrong, false, false), 5, [Line([c])] + rest, false)
         == RunGuessLoop(RoundState("cat", "___", wrong + 1, false, false), 5, rest, false)
  {
    var s := RoundState("cat", "___", wrong, false, false);
    assert s.revealed != s.word by { assert s.revealed[0] != s.word[0]; }
    GuessAbsentLetter(s, c);
    LoopUnfold(s, 5, Line([c]), rest, false);
  }

  /** One line per character: the player typing the letters of cs in turn. */
  function Lines(cs: string): (r: seq<Event>)
    ensures |r| == |cs|
  {
    if cs == [] then [] else [Line([cs[0]])] + Lines(cs[1..])
  }

  /** Misses on "cat" with nothing uncovered each cost one wrong guess. */
  lemma {:induction false} CatLoopMisses(wrong: nat, misses: string, rest: seq<Event>)
    requires wrong + |misses| <= 5
    requires forall i :: 0 <= i < |misses| ==> misses[i] !in "cat"
    ensures RunGuessLoop(RoundState("cat", "___", wrong, false, false), 5, Lines(misses) + rest, false)
         == RunGuessLoop(RoundState("cat", "___", wrong + |misses|, false, false), 5, rest, false)
    decreases |misses|
  {
    if misses != [] {
      assert Lines(misses) + rest == [Line([misses[0]])] + (Lines(misses[1..]) + rest);
      CatLoopMiss(wrong, misses[0], Lines(misses[1..]) + rest);
      CatLoopMisses(wrong + 1, misses[1..], rest);
    } else {
      assert Lines(misses) + rest == rest;
    }
  }

  /** "c", "a", "t" complete "cat" from nothing uncovered, with the misses
      made so far kept. */
  lemma CatCompleted(wrong: nat)
    requires wrong < 5
    ensures RunGuessLoop(RoundState("cat", "___", wrong, false, false), 5, [Line("c"), Line("a"), Line("t")], false)
         == LoopOutcome(RoundState("cat", "cat", wrong, true, true), [])
  {
    var s0 := RoundState("cat", "___", wrong, false, false);
    var s1 := RoundState("cat", "c__", wrong, false, false);
    var s2 := RoundState("cat", "ca_", wrong, false, false);
    var s3 := RoundState("cat", "cat", wrong, true, true);
    assert [Line("c"), Line("a"), Line("t")] == [Line("c")] + [Line("a"), Line("t")];
    assert RunGuessLoop(s0, 5, [Line("c")] + [Line("a"), Line("t")], false) == RunGuessLoop(s1, 5, [Line("a"), Line("t")], false) by {
      CatGuessC(wrong);
      LoopUnfold(s0, 5, Line("c"), [Line("a"), Line("t")], false);
    }
    assert [Line("a"), Line("t")] == [Line("a")] + [Line("t")];
    assert RunGuessLoop(s1, 5, [Line("a")] + [Line("t")], false) == RunGuessLoop(s2, 5, [Line("t")], false) by {
      CatGuessA(wrong);
      LoopUnfold(s1, 5, Line("a"), [Line("t")], false);
    }
    assert [Line("t")] == [Line("t")] + [];
    assert RunGuessLoop(s2, 5, [Line("t")] + [], false) == RunGuessLoop(s3, 5, [], false) by {
      CatGuessT(wrong);
      LoopUnfold(s2, 5, Line("t"), [], false);
    }
  }

  /** Standard rules, word "cat": "c", "a", "t" with 20 seconds left win
      without a miss and earn 90 points. */
  lemma CatWonQuickly()
    ensures var o := RunGuessLoop(NewRound("cat"), StandardRules().maxWrongGuesses, [Line("c"), Line("a"), Line("t")], false);
      o.round.won && o.round.wrongGuesses == 0 && PointsOf(StandardRules(), o.round, 20) == 90
  {
    assert StandardRules().maxWrongGuesses == 5;
    CatFresh();
    CatCompleted(0);
  }

  /** Standard rules, word "cat": four misses, then "c", "a", "t" with 5
      seconds left win with 4 wrong guesses and earn 40 points. */
  lemma CatWonAfterFourMisses()
    ensures var o := RunGuessLoop(NewRound("cat"), StandardRules().maxWrongGuesses, Lines("xyzw") + Lines("cat"), false);
      o.round.won && o.round.wrongGuesses == 4 && PointsOf(StandardRules(), o.round, 5) == 40
  {
    assert StandardRules().maxWrongGuesses == 5;
    assert NewRound("cat") == RoundState("cat", "___", 0, false, false) by { CatFresh(); }
    CatLoopMisses(0, "xyzw", Lines("cat"));
    assert Lines("cat") == [Line("c"), Line("a"), Line("t")];
    CatCompleted(4);
  }

  /** Standard rules, word "cat": after "c" the timer fires while the loop
      waits for the next line. The round is finished and not won; the next
      line, "a", is still read by this round and changes nothing; only "t"
      is left for the next round; the round earns nothing. */
  lemma CatTimedOut()
    ensures var o := RunGuessLoop(NewRound("cat"), StandardRules().maxWrongGuesses, [Line("c"), TimerFinished, Line("a"), Line("t")], false);
      o.round == RoundState("cat", "c__", 0, true, false) && o.unread == [Line("t")]
      && PointsOf(StandardRules(), o.round, 0) == 0
  {
    assert StandardRules().maxWrongGuesses == 5;
    var s0 := RoundState("cat", "___", 0, false, false);
    var s1 := RoundState("cat", "c__", 0, false, false);
    var rest := [Line("t")];
    assert NewRound("cat") == s0 by { CatFresh(); }
    assert [Line("c"), TimerFinished, Line("a"), Line("t")] == [Line("c")] + ([TimerFinished, Line("a")] + rest);
    assert RunGuessLoop(s0, 5, [Line("c")] + ([TimerFinished, Line("a")] + rest), false)
        == RunGuessLoop(s1, 5, [TimerFinished, Line("a")] + rest, false) by {
      CatGuessC(0);
      LoopUnfold(s0, 5, Line("c"), [TimerFinished, Line("a")] + rest, false);
    }
    LineAfterTimeoutIsRead(s1, 5, "a", rest);
  }

  /** Standard rules, word "cat": five misses reach the limit; the loop stops
      with the round neither finished nor won, "c", "a", "t" unread, and the
      round earns nothing. */
  lemma CatOutOfGuesses()
    ensures var o := RunGuessLoop(NewRound("cat"), StandardRules().maxWrongGuesses, Lines("vwxyz") + Lines("cat"), false);
      !o.round.finished && !o.round.won && o.round.wrongGuesses == 5
      && o.unread == Lines("cat") && PointsOf(StandardRules(), o.round, 10) == 0
  {
    assert StandardRules().maxWrongGuesses == 5;
    assert NewRound("cat") == RoundState("cat", "___", 0, false, false) by { CatFresh(); }
    CatLoopMisses(0, "vwxyz", Lines("cat"));
  }
}
