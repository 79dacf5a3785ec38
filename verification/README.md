# Guess the Flag: round and score state machine

A Dafny model of the game logic inside the `ContentView` of the GuessTheFlag
quiz. The pool of eleven country names is shuffled, the first three are shown
as flag buttons, and one of those three is the target. Tapping a flag scores
the guess and sets an input lock. After a delay, a new round reshuffles the
pool, picks a new target, clears the outcome and releases the lock.

The model is an immutable `Game` datatype holding the source's state fields,
plus pure transition functions:

- `Tap` is the guarded button action. It calls `FlagTapped`, which scores the choice.
- `NewRound` models `setupForNewRound`.
- `Init` models the initial values of the state fields.

The view derives some values from the state, and the model has them too:

- the header's target name;
- the three flag buttons;
- which flags the feedback animation selects or fades;
- the spin direction;
- the footer.

A session applies a sequence of tap and timer events, starting from `Init`.

Randomness is passed in by the caller:

- A shuffle is a sequence of transpositions. Any permutation is a product of transpositions.
- A target is an integer constrained to 0...2.

Modules:

- `Shuffling` (shuffling.dfy): transpositions, reordering, distinctness.
- `GameState` (game.dfy): the state, the invariant, `Init`, `FlagTapped`, `Tap`, `NewRound`.
  `Init` and the invariant take the list of names as a parameter. The game
  uses the built-in eleven, which `BuiltInPoolIsValid` shows to qualify.
- `Presentation` (presentation.dfy): what the view derives from the state.
- `Session` (session.dfy): event sequences and properties over whole sessions.

The invariant `GameState.Inv(s, pool)` has two parts:

- `PoolInv`: the shown pool is a reordering of the list the game was built
  with, and that list holds at least three names with none repeated.
  `PoolInvFacts` derives that the shown pool then has the same length and no
  repeated name either.
- `RoundInv`: the target is in 0...2 and both counters are non-negative. The
  score equals correct minus wrong. At most one outcome flag is set. The lock
  is set exactly when an outcome is shown. While locked, the choice is in
  0...2; while unlocked, it is -1. A correct outcome means the choice equals
  the target, and an incorrect one means it does not.

Two facts about the program shape the model:

- The buttons are generated for `0 ..< 3` only, so the tap index is the type
  `FlagIndex`. The program has no range check of its own.
- A round shows the first three names of the whole shuffled pool.

## Model

| member | source | states |
|---|---|---|
| GameState.BuiltInPoolIsValid | GuessTheFlag/ContentView.swift:12 | the built-in pool has eleven names, pairwise different, so a game can be built from it |
| GameState.Init | GuessTheFlag/ContentView.swift:12-26 | from any list of at least three distinct names, the starting state satisfies the invariant: the pool is a reordering of the list, the target is exactly the supplied draw from 0...2, there is no choice and no outcome, input is unlocked, and all counters are zero |
| GameState.PoolInvFacts | GuessTheFlag/ContentView.swift:12 | a reordering of a list of distinct names has the same length and repeats no name, so the shuffled pool always has eleven distinct names |
| GameState.FlagTapped | GuessTheFlag/ContentView.swift:154-165 | records the choice; a choice equal to the target adds one to the correct count only and raises the correct flag; any other choice adds one to the wrong count only and raises the incorrect flag; afterwards the score is correct minus wrong; the pool, target and lock are unchanged |
| GameState.Tap | GuessTheFlag/ContentView.swift:63-76 | while locked, a tap returns the state unchanged; otherwise it sets the lock, records the choice, moves exactly one counter by one, and raises exactly one outcome flag, according to whether the choice is the target; it keeps the round invariant |
| GameState.NewRound | GuessTheFlag/ContentView.swift:167-178 | the pool becomes a reordering of itself with the same length, and stays distinct; the target is the supplied one in 0...2; both outcome flags are false; the choice is -1; the lock is clear; counters and score are unchanged |
| GameState.TransitionsKeepInv | GuessTheFlag/ContentView.swift:154-178 | a tap and a new round each preserve the full invariant for any pool |
| GameState.TapFromIdle | GuessTheFlag/ContentView.swift:63-66 | a tap from the unlocked phase always locks, shows exactly one outcome, and adds exactly one guess |
| GameState.SecondTapIgnored | GuessTheFlag/ContentView.swift:63-86 | a second tap before the new round has no effect |
| GameState.IndicesInBounds | GuessTheFlag/ContentView.swift:54-99 | under the invariant, the target, the three button positions and the recorded wrong choice all index the pool |
| Shuffling.Swap | GuessTheFlag/ContentView.swift:168 | exchanges two positions and leaves the rest unchanged; the result is a reordering that is distinct exactly when the input is |
| Shuffling.ApplySwaps | GuessTheFlag/ContentView.swift:168 | any sequence of transpositions yields a reordering of the same length, which is distinct exactly when the input is |
| Shuffling.PermutationKeepsDistinct | GuessTheFlag/ContentView.swift:12 | any reordering of a list of distinct names is distinct, and the converse holds too |
| Presentation.FeedbackOf | GuessTheFlag/ContentView.swift:118-144 | the effect case is "correct" exactly when the correct flag is set; it is "incorrect" exactly when only the incorrect flag is set; otherwise it is neutral |
| Presentation.SpinDegrees | GuessTheFlag/ContentView.swift:128-135 | the spin is 360 exactly when the guess was correct; it is -360 exactly when only the incorrect flag is set; it is 0 exactly when no outcome is shown |
| Presentation.AnimateSelection | GuessTheFlag/ContentView.swift:147 | after a correct guess, exactly the target flag is selected; after a wrong guess, exactly the chosen flag is selected; with no outcome shown, no flag is selected |
| Presentation.AnimateUnselected | GuessTheFlag/ContentView.swift:151 | after a correct guess, exactly the flags other than the target fade, and a fading flag is never the selected one; otherwise no flag fades |
| Presentation.TargetName | GuessTheFlag/ContentView.swift:54 | the header's country is a name from the pool |
| Presentation.ShownFlags | GuessTheFlag/ContentView.swift:78 | the three buttons show the first three names of the pool, in order |
| Presentation.FooterOf | GuessTheFlag/ContentView.swift:90-109 | the footer shows praise exactly when the guess was correct; it names a pool country exactly when only the incorrect flag is set; otherwise it shows the score with both counters |
| Presentation.RoundIsWellFormed | GuessTheFlag/ContentView.swift:51-99 | under the invariant, every index the view uses is in bounds; the three shown countries are pairwise distinct; the target name is one of them |
| Presentation.NothingAnimatesWhileIdle | GuessTheFlag/ContentView.swift:146-152 | while unlocked, no flag is selected or faded, the spin is 0, and the footer shows the score |
| Presentation.SelectionWhileAwaiting | GuessTheFlag/ContentView.swift:146-152 | while locked, exactly one flag is selected, the chosen one; after a correct guess exactly the other two fade, and after a wrong guess none does |
| Presentation.ScreenAfterTap | GuessTheFlag/ContentView.swift:128-165 | after a tap from the unlocked phase, the tapped flag is the only one selected; a hit selects the correct effect case, spins +360, fades the other two and shows praise; a miss selects the incorrect effect case, spins -360, fades nothing and names the tapped country |
| Presentation.ScreenAfterNewRound | GuessTheFlag/ContentView.swift:167-178 | after a new round, nothing is animated, the spin is 0, and the footer shows the kept score and counters |
| Session.Step | GuessTheFlag/ContentView.swift:63-76 | a tap or timer event reorders the pool without changing its length or losing distinctness, and keeps the round invariant |
| Session.RunPreservesInv | GuessTheFlag/ContentView.swift:154-178 | every sequence of taps and new rounds preserves the invariant |
| Session.ReachableStatesSatisfyInv | GuessTheFlag/ContentView.swift:12-26 | every state reachable from the initial state satisfies the invariant for the pool the game was built with; so the score is always correct minus wrong, and the indices the view uses are always in bounds |
| Session.OneGuessPerRound | GuessTheFlag/ContentView.swift:63-86 | neither counter ever decreases; the number of scored guesses grows by at most the number of rounds started, plus one if input was unlocked at the start |

## Left out

- View composition, which is rendering only: `body`, `gameBackground`, the
  header and footer layout, `FlagImage` and `ContentView_Previews`. The model
  keeps only the values these read: the target name, the three shown names
  and the footer case.
- The floating-point effect values: `scaleAmount`, `opacityAmount`,
  `spinAxis`, `computedScaleEffect`, `computedOpacity` and
  `computedSpinAxis`. Only the case selection they share (`FeedbackOf`) is
  modelled, plus the whole-degree spin.
- The randomness of `shuffled()`, `shuffle()` and `Int.random(in: 0 ... 2)`.
  It becomes caller-supplied transpositions and a target constrained to
  0...2.
- Animation timing and scheduling: `withAnimation` and the 2-second
  `DispatchQueue.main.asyncAfter`. The delayed callback is the separate
  transition `NewRound`. A `Session` may fire a timer event at any point,
  not only after an accepted tap. The invariants are proved for this larger
  set of event orders.
- GameState.FlagTapped: Swift's `Int` is 64 bits and `+= 1` traps on
  overflow. The counters here are unbounded, because overflow would need
  2^63 taps.
