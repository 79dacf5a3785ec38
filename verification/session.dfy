/**
 A play session: the game started by `Init` and driven by a sequence of
 events, each a tap on a flag or the firing of the new-round timer that a
 tap scheduled. The timer's random choices travel inside its event.
 */
module Session {
  import opened Shuffling
  import opened GameState

  datatype Event =
    | Tapped(number: FlagIndex)
    | RoundTimer(swaps: seq<Transposition>, target: int)

  /** Every timer event carries a reordering of a pool of `n` names and a target in 0...2. */
  predicate ValidEvents(events: seq<Event>, n: nat) {
    forall k :: 0 <= k < |events| && events[k].RoundTimer? ==>
      ValidSwaps(events[k].swaps, n) && 0 <= events[k].target < FlagCount
  }

  function Step(s: Game, e: Event): (r: Game)
    requires e.RoundTimer? ==> ValidSwaps(e.swaps, |s.countries|) && 0 <= e.target < FlagCount
    ensures IsPermutationOf(r.countries, s.countries) && |r.countries| == |s.countries|
    ensures Distinct(s.countries) ==> Distinct(r.countries)
    ensures RoundInv(s) ==> RoundInv(r)
  {
    match e
    case Tapped(n) => Tap(s, n)
    case RoundTimer(swaps, target) => NewRound(s, swaps, target)
  }

  /** The state after the events, applied first to last. */
  function Run(s: Game, events: seq<Event>): (r: Game)
    requires ValidEvents(events, |s.countries|)
    decreases |events|
  {
    if events == [] then s
    else Run(Step(s, events[0]), events[1..])
  }

  /** The number of timer events, that is, of rounds started. */
  function RoundsStarted(events: seq<Event>): nat {
    if events == [] then 0
    else (if events[0].RoundTimer? then 1 else 0) + RoundsStarted(events[1..])
  }

  /** The number of guesses scored so far. */
  function Guesses(s: Game): int {
    s.correctCount + s.wrongCount
  }

  /** Any sequence of taps and new rounds keeps the invariant. */
  lemma {:induction false} RunPreservesInv(s: Game, pool: seq<string>, events: seq<Event>)
    requires Inv(s, pool)
    requires ValidEvents(events, |s.countries|)
    ensures Inv(Run(s, events), pool)
    decreases |events|
  {
    if events != [] {
      var s' := Step(s, events[0]);
      RunPreservesInv(s', pool, events[1..]);
    }
  }

  /**
   Every state a session reaches satisfies the invariant, so the target and
   the chosen flag always index the pool, the score is the difference of the
   counters, and the pool stays a reordering of the names it was built with.
   `GameState.BuiltInPoolIsValid` shows this covers the built-in eleven names.
   */
  lemma {:induction false} ReachableStatesSatisfyInv(
    pool: seq<string>, swaps: seq<Transposition>, target: int, events: seq<Event>)
    requires ValidPool(pool)
    requires ValidSwaps(swaps, |pool|) && 0 <= target < FlagCount
    requires ValidEvents(events, |pool|)
    ensures Inv(Run(Init(pool, swaps, target), events), pool)
  {
    RunPreservesInv(Init(pool, swaps, target), pool, events);
  }

  /**
   The lock admits at most one scored guess per round: over any events the
   number of guesses grows by at most the number of rounds started, plus one
   if input was unlocked at the start. Neither counter ever goes down.
   */
  lemma {:induction false} OneGuessPerRound(s: Game, events: seq<Event>)
    requires ValidEvents(events, |s.countries|)
    ensures Run(s, events).correctCount >= s.correctCount
    ensures Run(s, events).wrongCount >= s.wrongCount
    ensures Guesses(Run(s, events)) - Guesses(s)
            <= RoundsStarted(events) + (if s.animationRunning then 0 else 1)
    decreases |events|
  {
    if events != [] {
      var s' := Step(s, events[0]);
      OneGuessPerRound(s', events[1..]);
    }
  }
}
