# Memory game rule engine, in Dafny

This project models the rule engine of a browser memory ("concentration") card game. It
is the logic under the DOM calls of `js/app.js`. A deck of paired cards is shuffled in
place with a Fisher–Yates loop. The player clicks cards: the first click opens a card, and
the second click counts a move and compares the two faces. Equal faces stay matched.
Different faces are hidden again. A star rating of 3, 2 or 1 follows the move count with
thresholds 10 and 20. When 16 cards are matched, the timer stops and the win dialog
reports the moves and the stars. Restarting shuffles the deck, hides every card and
zeroes the counters.

Files and modules:

- `shuffle.dfy`, module `Shuffle`: `shuffle` as a method over an array. It is specified
  by `ShuffleSteps`, which gives the deck after each turn of the loop, given the slot
  each turn picks (`Picks` turns the draws into those slots). Each turn is a `Swap`,
  the three-line exchange of js/app.js:225-227. `Shuffled` is the whole loop as a
  function of the deck and the draws. Lemmas prove that every
  swap stays in bounds and that the result is a permutation.
- `score.dfy`, module `Score`: the star rating (`StarsFor`) and the three star icons
  that show it (`StarDisplay`).
- `rules.dfy`, module `Rules`: cards and their states, plus the state the click handler
  works on (`Play`: deck, pending card, moves, matched count). `Click` gives what one
  click does to that state, `Restart` gives what a restart leaves, and `Inv` is the
  invariant the handler keeps. Module `RulesScenarios` holds two worked click sequences.
- `game.dfy`, module `MemoryGame`: class `Game`. Its fields are the page's globals
  `cards`, `prevCard`, `moves`, `starsCount` and `matchedCardsCount`, plus the star icons,
  the timer's running flag and the win reports shown since the last restart. It has the handlers
  `OnCardClick`, `RestartGame`, `UpdateScorePanel`, `OpenCard`, `MatchCards` and
  `IncorrectGuess`, and the loop `CleanCardsClassList`. Each handler is proved against
  `Rules`: `OnCardClick` ends with `State() == Click(old(State()), i)`, and `RestartGame`
  ends with `State() == Restart(old(cards[..]), draws)`. Both keep `Valid()`.

Modelling choices:

- A card's DOM class list becomes a `CardState`: `Hidden` means neither `open` nor
  `match`, then `Open` and `Matched`. `cardsAreMatched` compares the face's icon class,
  modelled as a `Symbol` string.
- `prevCard` is the pending card's slot in the deck array (`Option<nat>`). The array is
  reordered only by `restartGame`, which also clears `prevCard`.
- `Math.random()` becomes a caller-supplied sequence of draws, each a real in [0, 1).
  The model computes `Math.floor(draw * currentIndex)` itself, with the product taken as
  an exact real, so the bound on the swap index is proved for exact arithmetic rather
  than assumed. Double rounding is not modelled (see `Shuffle.RandomIndex` under
  "## Left out").
- The animations are taken as finished at once. `openCard` makes the card `Open`, and on
  a mismatch `incorrectGuess` hides both cards in the same step.
- The easytimer library is reduced to a flag. `timer.reset()` sets it running, and
  `timer.stop()` clears it. The SweetAlert dialog becomes an entry appended to
  `winAlerts`, carrying the moves and the stars it reports.

Points where the code's behaviour is easy to misread:

- `prevCard` is cleared in the same handler call that compares the two cards
  (js/app.js:100), so nothing blocks clicks between the comparison and the next click.
- The second card of a pair never goes through `openCard`. It goes straight from hidden
  to matched, or back to hidden (js/app.js:92-98).
- The win fires when the matched count equals the constant 16 (js/app.js:172),
  whatever the size of the deck. No explicit guard rejects clicks after the win. On a
  16-card deck every card is then matched, so every click is ignored anyway:
  `WonGameIgnoresClicks` proves this.
- The rating thresholds are 10 and 20 moves (js/app.js:117-123).

## Model

| member | source | states |
|---|---|---|
| Shuffle.RandomIndex | js/app.js:223 | `Math.floor(Math.random() * currentIndex)`, with the product taken exactly, is always a slot below `currentIndex`, so every swap is in bounds |
| Shuffle.Picks | js/app.js:222-224 | the draws give one slot per loop turn, and the slot of turn `k + 1` is below the `n - k` slots still left |
| Shuffle.Swap | js/app.js:225-227 | the exchange keeps the length, puts each of the two slots' old values in the other, and leaves every other slot unchanged |
| Shuffle.Shuffled | js/app.js:219-231 | the whole loop, one turn per element with the slots the draws pick, keeps the length and is a permutation of the deck |
| Shuffle.ShuffleSteps | js/app.js:222-228 | after any number of loop turns the array still has its original length |
| Shuffle.ShufflePermutes | js/app.js:219-231 | every prefix of the loop, and so the returned array, is a permutation of the input (same multiset) |
| Shuffle.ShuffleSettles | js/app.js:222-228 | once a turn has written slot `currentIndex`, no later turn touches that slot or any above it |
| Shuffle.ShuffledSlot | js/app.js:223-227 | slot `length - k` of the result holds the element that turn `k` picked from the slots below it |
| Shuffle.ShuffleStepsKeepOrder | js/app.js:222-228 | picks that always take the last remaining slot leave the array unchanged |
| Shuffle.Shuffle | js/app.js:219-231 | the in-place loop consumes exactly one draw per element, ends equal to `Shuffled` of the old contents, and is a permutation of them |
| Score.StarsFor | js/app.js:115-123 | the rating is always between 1 and 3 |
| Score.StarThresholds | js/app.js:117-123 | 3 stars exactly when moves <= 10, 2 exactly when 10 < moves <= 20, 1 exactly when moves > 20 |
| Score.StarsNonIncreasing | js/app.js:115-123 | more moves never give more stars |
| Score.StarDisplay | js/app.js:125-131 | three icons, none left unstyled, full stars all before bordered ones |
| Score.StarDisplayCounts | js/app.js:125-131 | exactly `starsCount` full stars and `3 - starsCount` bordered ones |
| Rules.CardIsOpenedOrMatched | js/app.js:139-141 | true exactly when the card is not hidden (it is open or matched), so only hidden cards get past the click guard |
| Rules.CardsAreMatched | js/app.js:186-191 | true exactly when the two cards are equal once cleaned, i.e. their faces agree whatever their states; in particular a card matches itself |
| Rules.Clean | js/app.js:237-241 | the cleaned card keeps its face, is hidden, and passes the click guard again |
| Rules.CardsAreMatchedSymmetric | js/app.js:186-191 | the face comparison does not depend on which card was opened first |
| Rules.CleanAll | js/app.js:237-254 | cleaning a deck keeps every face and its place and leaves every card hidden |
| Rules.Click | js/app.js:77-102 | one click keeps the pending slot in range and the deck size, and raises the matched count by 0 or 2 |
| Rules.ClickIgnoresOpenOrMatched | js/app.js:84-86 | a click on an open or matched card (`cardIsOpenedOrMatched`, line 140) changes no card, no pending card, no moves and no count |
| Rules.ClickFirstCard | js/app.js:88-90 | with no pending card, the clicked card opens and becomes pending; every other card, the moves and the count are unchanged |
| Rules.ClickSecondCard | js/app.js:91-101 | with a pending card, a click counts exactly one move and clears the pending card. Equal faces turn both cards matched and add 2 to the count. Different faces hide both and keep the count. Every other card is unchanged |
| Rules.ClickKeepsSymbols | js/app.js:77-102 | a click never changes which face lies in which slot |
| Rules.ClickPreservesInv | js/app.js:77-102 | a click keeps the invariant: the only open card is the pending one, the count equals the number of matched cards and is even, and every face has an even number of matched cards |
| Rules.MatchedIsTerminal | js/app.js:84-86 | a matched card stays matched whatever is clicked |
| Rules.WonGameIgnoresClicks | js/app.js:170-177 | on a 16-card deck the count equals the win condition exactly when every card is matched, and from then on every click is ignored |
| Rules.Restart | js/app.js:47-71 | after a restart the invariant holds, every card is hidden, the multiset of faces is that of the old deck, and the pending card, moves and count are cleared |
| Rules.ShuffleKeepsSymbols | js/app.js:52 | shuffling the cards moves their faces exactly as shuffling the faces alone would |
| Rules.Run | js/app.js:77-102 | any sequence of clicks keeps the pending slot in range and the deck size |
| Rules.RunPreservesInv | js/app.js:77-102 | along any sequence of clicks the invariant holds, moves and count never decrease, and matched cards stay matched |
| RulesScenarios.TwoPairsInTwoMoves | js/app.js:77-102 | on deck A B B A, clicking slots 0, 3, 1, 2 matches everything in 2 moves with count 4 |
| RulesScenarios.MismatchThenMatch | js/app.js:91-101 | on deck A B A B, slots 0 then 1 leave every card hidden after 1 move; then slots 0 then 2 match them in the second move |
| MemoryGame.CleanCardsClassList | js/app.js:248-254 | the in-place loop leaves the deck equal to `CleanAll` of the old deck |
| MemoryGame.Game.constructor | js/app.js:16-27 | the page as loaded: cards in markup order, nothing pending, 0 moves, count 0, timer not running; the 3 full star icons are assumed from the page markup. `Valid()` first holds after `RestartGame` |
| MemoryGame.Game.UpdateScorePanel | js/app.js:108-132 | sets `starsCount` to the rating for the moves and the icons to `StarDisplay(starsCount)` |
| MemoryGame.Game.OpenCard | js/app.js:147-157 | the card becomes open and nothing else changes |
| MemoryGame.Game.MatchCards | js/app.js:164-178 | both cards become matched and the count grows by 2. Exactly when the count then equals 16, the timer stops and one win report with the current moves and stars is added |
| MemoryGame.Game.IncorrectGuess | js/app.js:199-212 | both cards end hidden and nothing else changes |
| MemoryGame.Game.OnCardClick | js/app.js:77-102 | the state changes exactly as `Click` says, `Valid()` is kept, and the win report is added exactly when this click brings the count to 16 |
| MemoryGame.Game.RestartGame | js/app.js:47-71 | the state becomes `Restart` of the old deck with the given draws, the timer runs, the panel shows 3 stars, no win report remains, and `Valid()` holds |

## Left out

- DOM querying, building the `deck` element and wiring event listeners (js/app.js:14-33,
  50-63). The `tagName` filter of `onCardClick` (js/app.js:80-82) is left out too: a click
  reaches the model only as the slot of a card.
- Animation classes and `animationend` callbacks (js/app.js:5-9, 147-157, 199-212). The
  model makes `openCard` and `incorrectGuess` take effect at once, so it does not capture
  the events that can arrive before an animation ends. In the source, `open` is added
  only in the `animationend` callback (js/app.js:151). A second click on the same card
  before that event passes the guard at js/app.js:84, takes the second-card branch,
  finds `cardsAreMatched(c, c)` true and calls `matchCards(c, c)`: the count grows by 2
  while only one card is matched, so the count no longer equals the number of matched
  cards and the win at 16 can fire early. During a mismatch,
  `incorrectGuess` adds `incorrect` to both cards without cleaning them first
  (js/app.js:210-211). The first card keeps the `open` it got when its animation ended,
  so the guard turns it away. The second card never went through `openCard` and carries
  only `incorrect` until the `animationend` callback on it cleans both cards
  (js/app.js:202-203, 209). So the second card can be clicked and opened again in
  between. The model's
  invariant (`Rules.Inv`: the count equals the number of matched cards) and its win
  condition hold only under the event order in which every animation ends before the
  next click.
- MemoryGame.Game.IncorrectGuess: the transient `incorrect` class is not modelled. The two
  cards are hidden at once rather than when the animation ends, so the state between the
  two phases is not captured.
- MemoryGame.Game.OpenCard: the card is open at once rather than after its animation.
- The easytimer library (js/app.js:27-40, 48, 174-175): only whether it runs is modelled.
  Elapsed time and the time string in the win dialog are left out.
- The SweetAlert dialog and its "play again" callback (js/app.js:262-275): the model
  records the report. The restart it triggers is a separate call to `RestartGame`.
- The moves counter text on the panel (js/app.js:109), which is display only.
- The uniformity of `Math.random` and of the resulting shuffle: the draws are inputs.
- Shuffle.RandomIndex: the product `draw * currentIndex` is an exact real, not rounded
  to a double before `Math.floor` as at js/app.js:223. For some draws the source
  therefore picks a slot one higher than the model: the draw 0.5714285714285714 with
  `currentIndex` 7 gives 4 in JavaScript, since the product rounds to 4.0, and 3 in
  the model. For such draws the array the source leaves is not `Shuffled(old, draws)`.
  Every slot below `currentIndex` is still reachable by some draw, so the permutation
  and bound properties stated over picks still describe the source. That the bound
  also holds under double rounding (a draw is at most 1 - 2^-53, which keeps the
  rounded product below any `currentIndex` up to 2^53) is argued, not proved.
