/**
 The round and score state of the flag quiz, taken out of its view: the
 shuffled country pool, the target index, the player's last choice, the two
 outcome flags, the input lock and the three score counters. The screen moves
 between two phases: Idle (input unlocked, no outcome shown) and
 AwaitingNewRound (input locked, exactly one outcome shown), by two
 transitions: a tap on one of the three flags, and the delayed start of a new
 round.
 */
module GameState {
  import opened Shuffling

  /** The eleven country names the game is built with, in the order the game lists them. */
  const Pool: seq<string> :=
    ["Estonia", "France", "Germany", "Ireland", "Italy", "Nigeria",
     "Poland", "Russia", "Spain", "UK", "US"]

  /** The three flags on screen are the first three countries of the pool. */
  const FlagCount: int := 3

  /** The position of one of the three flag buttons. */
  type FlagIndex = n: int | 0 <= n < 3

  /** The value `usersChoice` holds while no flag has been chosen. */
  const NoChoice: int := -1

  datatype Game = Game(
    countries: seq<string>,
    correctChoice: int,
    usersChoice: int,
    correctGuess: bool,
    incorrectGuess: bool,
    animationRunning: bool,
    currentScore: int,
    correctCount: int,
    wrongCount: int)

  /** The two phases of a round. */
  datatype Phase = Idle | AwaitingNewRound

  function PhaseOf(s: Game): Phase {
    if s.animationRunning then AwaitingNewRound else Idle
  }

  /**
   What holds in every state the game can reach, given the list of names it
   was built with: the pool is a reordering of that list, the target is one
   of the three flags, the score is the difference of the counters, and the
   lock is set exactly while one outcome is shown for a recorded choice.
   */
  ghost predicate Inv(s: Game, pool: seq<string>) {
    PoolInv(s.countries, pool) && RoundInv(s)
  }

  /**
   `countries` is a reordering of `pool`, a list of distinct names with at
   least one per flag; `PoolInvFacts` shows `countries` is such a list too.
   */
  ghost predicate PoolInv(countries: seq<string>, pool: seq<string>) {
    IsPermutationOf(countries, pool) && ValidPool(pool)
  }

  /** The target, the choice, the outcome flags, the lock and the score agree with each other. */
  predicate RoundInv(s: Game) {
    && 0 <= s.correctChoice < FlagCount
    && s.correctCount >= 0
    && s.wrongCount >= 0
    && s.currentScore == s.correctCount - s.wrongCount
    && !(s.correctGuess && s.incorrectGuess)
    && (s.animationRunning <==> s.correctGuess || s.incorrectGuess)
    && (s.animationRunning ==> 0 <= s.usersChoice < FlagCount)
    && (!s.animationRunning ==> s.usersChoice == NoChoice)
    && (s.correctGuess ==> s.usersChoice == s.correctChoice)
    && (s.incorrectGuess ==> s.usersChoice != s.correctChoice)
  }

  /** A list of names a game can be built with: at least one name per flag, no name twice. */
  ghost predicate ValidPool(pool: seq<string>) {
    FlagCount <= |pool| && Distinct(pool)
  }

  /** A reordering of a valid pool has the pool's length and repeats no name. */
  lemma PoolInvFacts(countries: seq<string>, pool: seq<string>)
    requires PoolInv(countries, pool)
    ensures |countries| == |pool|
    ensures FlagCount <= |countries|
    ensures Distinct(countries)
  {
    assert |multiset(countries)| == |multiset(pool)|;
    PermutationKeepsDistinct(pool, countries);
  }

  /** The built-in list is eleven different names. */
  lemma BuiltInPoolIsValid()
    ensures |Pool| == 11
    ensures ValidPool(Pool)
  {
  }

  /**
   The state the game starts in: the pool shuffled by `swaps`, the target
   drawn from 0...2, no choice, no outcome, input unlocked and a zero score.
   The game itself starts from `Init(Pool, swaps, target)`.
   */
  function Init(pool: seq<string>, swaps: seq<Transposition>, target: int): (s: Game)
    requires ValidPool(pool)
    requires ValidSwaps(swaps, |pool|)
    requires 0 <= target < FlagCount
    ensures Inv(s, pool)
    ensures s.correctChoice == target
    ensures PhaseOf(s) == Idle
    ensures s.correctCount == 0 && s.wrongCount == 0 && s.currentScore == 0
  {
    Game(ApplySwaps(pool, swaps), target, NoChoice, false, false, false, 0, 0, 0)
  }

  /**
   Record the player's choice and score it. The choice decides which counter
   moves and which outcome flag is raised; the score is recomputed from the
   counters. The pool, the target and the lock are left alone.
   */
  function FlagTapped(s: Game, number: FlagIndex): (r: Game)
    ensures r.usersChoice == number
    ensures r.correctGuess <==> number == s.correctChoice
    ensures r.incorrectGuess <==> number != s.correctChoice
    ensures number == s.correctChoice ==>
              r.correctCount == s.correctCount + 1 && r.wrongCount == s.wrongCount
    ensures number != s.correctChoice ==>
              r.wrongCount == s.wrongCount + 1 && r.correctCount == s.correctCount
    ensures r.currentScore == r.correctCount - r.wrongCount
    ensures r.countries == s.countries && r.correctChoice == s.correctChoice
    ensures r.animationRunning == s.animationRunning
  {
    var hit := number == s.correctChoice;
    var s1 := s.(usersChoice := number);
    var s2 :=
      if hit then s1.(correctCount := s1.correctCount + 1, correctGuess := true)
      else s1.(wrongCount := s1.wrongCount + 1, correctGuess := false);
    var s3 := s2.(incorrectGuess := !s2.correctGuess);
    s3.(currentScore := s3.correctCount - s3.wrongCount)
  }

  /**
   The action of a flag button. While the lock is set the tap changes
   nothing; otherwise it sets the lock and scores the choice.
   */
  function Tap(s: Game, number: FlagIndex): (r: Game)
    ensures s.animationRunning ==> r == s
    ensures !s.animationRunning ==> r.animationRunning && r.usersChoice == number
    ensures !s.animationRunning && number == s.correctChoice ==>
              && r.correctCount == s.correctCount + 1 && r.wrongCount == s.wrongCount
              && r.correctGuess && !r.incorrectGuess
    ensures !s.animationRunning && number != s.correctChoice ==>
              && r.wrongCount == s.wrongCount + 1 && r.correctCount == s.correctCount
              && r.incorrectGuess && !r.correctGuess
    ensures !s.animationRunning ==> r.currentScore == r.correctCount - r.wrongCount
    ensures !s.animationRunning ==> (r.correctGuess <==> !r.incorrectGuess)
    ensures r.countries == s.countries && r.correctChoice == s.correctChoice
    ensures RoundInv(s) ==> RoundInv(r)
  {
    if s.animationRunning then s
    else FlagTapped(s.(animationRunning := true), number)
  }

  /**
   The delayed start of the next round: the pool is reordered by `swaps`, a
   new target is taken from 0...2, the outcome and the choice are cleared and
   input is unlocked. The score is kept.
   */
  function NewRound(s: Game, swaps: seq<Transposition>, target: int): (r: Game)
    requires ValidSwaps(swaps, |s.countries|)
    requires 0 <= target < FlagCount
    ensures IsPermutationOf(r.countries, s.countries)
    ensures |r.countries| == |s.countries|
    ensures Distinct(s.countries) ==> Distinct(r.countries)
    ensures r.correctChoice == target
    ensures !r.correctGuess && !r.incorrectGuess
    ensures r.usersChoice == NoChoice && !r.animationRunning
    ensures r.correctCount == s.correctCount && r.wrongCount == s.wrongCount
    ensures r.currentScore == s.currentScore
    ensures RoundInv(s) ==> RoundInv(r)
    ensures PhaseOf(r) == Idle
  {
    s.(countries := ApplySwaps(s.countries, swaps),
       correctChoice := target,
       correctGuess := false,
       incorrectGuess := false,
       usersChoice := NoChoice,
       animationRunning := false)
  }

  /** Both transitions keep the invariant. */
  lemma TransitionsKeepInv(s: Game, pool: seq<string>, number: FlagIndex, swaps: seq<Transposition>, target: int)
    requires Inv(s, pool)
    requires ValidSwaps(swaps, |s.countries|) && 0 <= target < FlagCount
    ensures Inv(Tap(s, number), pool)
    ensures Inv(NewRound(s, swaps, target), pool)
  {
  }

  /** A tap moves an Idle game to AwaitingNewRound with exactly one outcome shown. */
  lemma TapFromIdle(s: Game, number: FlagIndex)
    requires RoundInv(s) && PhaseOf(s) == Idle
    ensures PhaseOf(Tap(s, number)) == AwaitingNewRound
    ensures Tap(s, number).correctGuess != Tap(s, number).incorrectGuess
    ensures Tap(s, number).correctCount + Tap(s, number).wrongCount
            == s.correctCount + s.wrongCount + 1
  {
  }

  /** A second tap before the next round is ignored: tapping is idempotent within a round. */
  lemma SecondTapIgnored(s: Game, first: FlagIndex, second: FlagIndex)
    ensures Tap(Tap(s, first), second) == Tap(s, first)
  {
  }

  /**
   Index safety: in every state satisfying the invariant, the target and the
   three flag positions index the pool, and while a wrong choice is shown the
   recorded choice indexes it too.
   */
  lemma IndicesInBounds(s: Game, pool: seq<string>)
    requires Inv(s, pool)
    ensures 0 <= s.correctChoice < |s.countries|
    ensures FlagCount <= |s.countries|
    ensures s.incorrectGuess ==> 0 <= s.usersChoice < |s.countries|
  {
    PoolInvFacts(s.countries, pool);
  }
}
