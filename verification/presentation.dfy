/**
 What the screen derives from the game state: the target name in the header,
 the country behind each flag button, which flags take part in the feedback
 animation, which spin the animation uses, and what the footer says. Only the
 choice between cases is modelled; the floating-point sizes of the effects
 are not.
 */
module Presentation {
  import opened Shuffling
  import opened GameState

  /** The outcome the feedback animation and the footer react to. */
  datatype Feedback = Correct | Incorrect | Neutral

  /** The case selection shared by the spin, scale and axis effects: a correct guess wins over an incorrect one. */
  function FeedbackOf(s: Game): (f: Feedback)
    ensures f == Correct <==> s.correctGuess
    ensures f == Incorrect <==> !s.correctGuess && s.incorrectGuess
  {
    if s.correctGuess then Correct
    else if s.incorrectGuess then Incorrect
    else Neutral
  }

  /** The rotation of the animated flag, in whole degrees: a full turn one way or the other, or none. */
  function SpinDegrees(s: Game): (d: int)
    ensures d == 360 <==> s.correctGuess
    ensures d == -360 <==> !s.correctGuess && s.incorrectGuess
    ensures d == 0 <==> !s.correctGuess && !s.incorrectGuess
  {
    match FeedbackOf(s)
    case Correct => 360
    case Incorrect => -360
    case Neutral => 0
  }

  /** The flag that spins and scales: the target after a correct guess, the chosen flag after a wrong one. */
  function AnimateSelection(s: Game, choice: int): (b: bool)
    ensures s.correctGuess && !s.incorrectGuess ==> (b <==> choice == s.correctChoice)
    ensures s.incorrectGuess && !s.correctGuess ==> (b <==> choice == s.usersChoice)
    ensures !s.correctGuess && !s.incorrectGuess ==> !b
  {
    (s.correctGuess && choice == s.correctChoice) || (s.incorrectGuess && choice == s.usersChoice)
  }

  /** The flags that fade: every flag except the target, and only after a correct guess. */
  function AnimateUnselected(s: Game, choice: int): (b: bool)
    ensures s.correctGuess ==> (b <==> choice != s.correctChoice)
    ensures !s.correctGuess ==> !b
    ensures b && !s.incorrectGuess ==> !AnimateSelection(s, choice)
  {
    s.correctGuess && choice != s.correctChoice
  }

  /** The positions among the three flags that `AnimateSelection` picks out. */
  function SelectedFlags(s: Game): set<int> {
    set n | 0 <= n < FlagCount && AnimateSelection(s, n)
  }

  /** The positions among the three flags that `AnimateUnselected` picks out. */
  function UnselectedFlags(s: Game): set<int> {
    set n | 0 <= n < FlagCount && AnimateUnselected(s, n)
  }

  /** The country the player is asked to find. */
  function TargetName(s: Game): (name: string)
    requires 0 <= s.correctChoice < |s.countries|
    ensures name in s.countries
  {
    s.countries[s.correctChoice]
  }

  /** The countries behind the three flag buttons, left to right. */
  function ShownFlags(s: Game): (shown: seq<string>)
    requires FlagCount <= |s.countries|
    ensures |shown| == FlagCount
    ensures forall n :: 0 <= n < FlagCount ==> shown[n] == s.countries[n]
  {
    s.countries[..FlagCount]
  }

  /** The two lines under the flags. */
  datatype Footer =
    | WellDone
    | Oops(chosen: string)
    | ScoreLine(score: int, correct: int, wrong: int)

  /**
   The footer: praise after a correct guess, the name of the wrongly chosen
   country after a wrong one, and otherwise the score with both counters.
   Naming the chosen country is the only place the recorded choice is used
   as an index.
   */
  function FooterOf(s: Game): (f: Footer)
    requires !s.correctGuess && s.incorrectGuess ==> 0 <= s.usersChoice < |s.countries|
    ensures f.WellDone? <==> s.correctGuess
    ensures f.Oops? <==> !s.correctGuess && s.incorrectGuess
    ensures f.Oops? ==> f.chosen in s.countries
    ensures f.ScoreLine? ==> f.score == s.currentScore && f.correct == s.correctCount && f.wrong == s.wrongCount
  {
    if s.correctGuess then WellDone
    else if s.incorrectGuess then Oops(s.countries[s.usersChoice])
    else ScoreLine(s.currentScore, s.correctCount, s.wrongCount)
  }

  /**
   Every state satisfying the invariant can be drawn: the header, the flag
   buttons and the footer only index inside the pool. The round on screen is
   three different countries, and the target is one of them.
   */
  lemma RoundIsWellFormed(s: Game, pool: seq<string>)
    requires Inv(s, pool)
    ensures 0 <= s.correctChoice < |s.countries|
    ensures FlagCount <= |s.countries|
    ensures !s.correctGuess && s.incorrectGuess ==> 0 <= s.usersChoice < |s.countries|
    ensures Distinct(ShownFlags(s))
    ensures TargetName(s) == ShownFlags(s)[s.correctChoice]
  {
    PoolInvFacts(s.countries, pool);
    PrefixDistinct(s.countries, FlagCount);
  }

  /** While Idle no flag is animated and the spin is zero. */
  lemma NothingAnimatesWhileIdle(s: Game)
    requires RoundInv(s) && PhaseOf(s) == Idle
    ensures SelectedFlags(s) == {}
    ensures UnselectedFlags(s) == {}
    ensures SpinDegrees(s) == 0
    ensures FooterOf(s) == ScoreLine(s.currentScore, s.correctCount, s.wrongCount)
  {
  }

  /**
   While a round awaits its successor exactly one flag spins, the one the
   player chose; after a correct guess exactly the other two fade, after a
   wrong one none does.
   */
  lemma SelectionWhileAwaiting(s: Game)
    requires RoundInv(s) && PhaseOf(s) == AwaitingNewRound
    ensures SelectedFlags(s) == {s.usersChoice}
    ensures s.correctGuess ==> UnselectedFlags(s) == {0, 1, 2} - {s.correctChoice}
    ensures s.incorrectGuess ==> UnselectedFlags(s) == {}
  {
    var u := s.usersChoice;
    assert AnimateSelection(s, u);
    assert forall n :: n in SelectedFlags(s) ==> n == u;
    if s.correctGuess {
      var others := {0, 1, 2} - {s.correctChoice};
      assert forall n :: n in others ==> AnimateUnselected(s, n);
      assert forall n :: n in UnselectedFlags(s) ==> n in others;
    }
  }

  /**
   The effect of a tap from Idle on the screen: the tapped flag is the one
   animated, it spins forward on a hit and backward on a miss, the others fade
   only on a hit, and the footer praises or names the tapped country.
   */
  lemma ScreenAfterTap(s: Game, number: FlagIndex)
    requires RoundInv(s) && PhaseOf(s) == Idle
    requires FlagCount <= |s.countries|
    ensures SelectedFlags(Tap(s, number)) == {number}
    ensures number == s.correctChoice ==>
              && UnselectedFlags(Tap(s, number)) == {0, 1, 2} - {number}
              && FeedbackOf(Tap(s, number)) == Correct
              && SpinDegrees(Tap(s, number)) == 360
              && FooterOf(Tap(s, number)) == WellDone
    ensures number != s.correctChoice ==>
              && UnselectedFlags(Tap(s, number)) == {}
              && FeedbackOf(Tap(s, number)) == Incorrect
              && SpinDegrees(Tap(s, number)) == -360
              && FooterOf(Tap(s, number)) == Oops(s.countries[number])
  {
    SelectionWhileAwaiting(Tap(s, number));
  }

  /** A new round puts the screen back to Idle: nothing animated and the footer shows the kept score. */
  lemma ScreenAfterNewRound(s: Game, swaps: seq<Transposition>, target: int)
    requires RoundInv(s)
    requires ValidSwaps(swaps, |s.countries|)
    requires 0 <= target < FlagCount
    ensures SelectedFlags(NewRound(s, swaps, target)) == {}
    ensures UnselectedFlags(NewRound(s, swaps, target)) == {}
    ensures SpinDegrees(NewRound(s, swaps, target)) == 0
    ensures FooterOf(NewRound(s, swaps, target)) == ScoreLine(s.currentScore, s.correctCount, s.wrongCount)
  {
    NothingAnimatesWhileIdle(NewRound(s, swaps, target));
  }
}
