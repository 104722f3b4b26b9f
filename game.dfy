/** The page's module-level state and its handlers: restartGame, onCardClick,
    updateScorePanel, openCard, matchCards, incorrectGuess and cleanCardsClassList.
    The globals `cards`, `prevCard`, `moves`, `starsCount` and `matchedCardsCount`
    become fields of `Game`; the three star icons are an array of icon states; the
    external timer and the win dialog are a running flag and the list of win reports
    shown since the last restart. */
module MemoryGame {
  import opened Rules
  import opened Score
  import Shuffle

  /** What the win dialog reports: the moves made and the stars earned. */
  datatype WinReport = WinReport(moves: nat, stars: nat)

  /** cleanCardsClassList: every card of the deck loses its state classes, in place. */
  method CleanCardsClassList(deck: array<Card>)
    modifies deck
    ensures deck[..] == CleanAll(old(deck[..]))
  {
    for i := 0 to deck.Length
      invariant forall k :: 0 <= k < i ==> deck[k] == Clean(old(deck[k]))
      invariant forall k :: i <= k < deck.Length ==> deck[k] == old(deck[k])
    {
      deck[i] := Clean(deck[i]);
    }
  }

  class Game {
    var cards: array<Card>
    var prevCard: Option<nat>
    var moves: nat
    var starsCount: nat
    var matchedCardsCount: nat
    var stars: array<StarIcon>
    var timerRunning: bool
    var winAlerts: seq<WinReport>

    /** The rule state the click handler works on. */
    ghost function State(): Play
      reads this, cards
    {
      Play(cards[..], prevCard, moves, matchedCardsCount)
    }

    /** The game between two events: the rules' invariant holds, the panel shows the
        stars the moves earn, the timer runs until the win condition, and the win
        dialog has been shown once since the restart if and only if it was reached. */
    ghost predicate Valid()
      reads this, cards, stars
    {
      stars.Length == MaxStars
      && Inv(State())
      && starsCount == StarsFor(moves)
      && stars[..] == StarDisplay(starsCount)
      && timerRunning == (matchedCardsCount < WinCondition)
      && |winAlerts| == (if matchedCardsCount < WinCondition then 0 else 1)
    }

    /** The page as loaded, before restartGame runs on DOMContentLoaded: the cards in
        their markup order and state, and a timer not yet started. The three full star
        icons are taken from the page markup, which is not part of this model. `Valid()`
        does not hold yet (the timer is off while the count is 0); it first holds after
        `RestartGame`, which is also where the click listener is attached. */
    constructor (deck: seq<Card>)
      ensures cards[..] == deck && fresh(cards) && fresh(stars)
      ensures prevCard == None && moves == 0 && starsCount == MaxStars && matchedCardsCount == 0
      ensures stars[..] == StarDisplay(MaxStars)
      ensures !timerRunning && winAlerts == []
    {
      cards := new Card[|deck|](k requires 0 <= k < |deck| => deck[k]);
      prevCard := None;
      moves := 0;
      starsCount := MaxStars;
      matchedCardsCount := 0;
      stars := new StarIcon[MaxStars](k requires 0 <= k < MaxStars => Star);
      timerRunning := false;
      winAlerts := [];
    }

    /** updateScorePanel: derives the star rating from `moves`, clears every icon and
        shows `starsCount` full stars followed by bordered ones. */
    method UpdateScorePanel(moves: nat)
      requires stars.Length == MaxStars
      modifies this`starsCount, stars
      ensures starsCount == StarsFor(moves)
      ensures stars[..] == StarDisplay(starsCount)
    {
      for i := 0 to stars.Length
        invariant forall k :: 0 <= k < i ==> stars[k] == Unstyled
      {
        stars[i] := Unstyled;
      }
      starsCount := StarsFor(moves);
      var i := 0;
      while i < starsCount
        invariant starsCount == StarsFor(moves) && 0 <= i <= starsCount
        invariant forall k :: 0 <= k < i ==> stars[k] == Star
        invariant forall k :: i <= k < MaxStars ==> stars[k] == Unstyled
      {
        stars[i] := Star;
        i := i + 1;
      }
      while i < MaxStars
        invariant starsCount == StarsFor(moves) && starsCount <= i <= MaxStars
        invariant forall k :: 0 <= k < starsCount ==> stars[k] == Star
        invariant forall k :: starsCount <= k < i ==> stars[k] == StarBorder
      {
        stars[i] := StarBorder;
        i := i + 1;
      }
    }

    /** openCard, with its animation taken as finished: the card becomes open. */
    method OpenCard(i: nat)
      requires i < cards.Length
      modifies cards
      ensures cards[..] == SetState(old(cards[..]), i, Open)
    {
      cards[i] := cards[i].(state := Open);
    }

    /** matchCards: both cards become matched and the count grows by two; reaching
        the win condition stops the timer and shows the win dialog with the current
        moves and stars. */
    method MatchCards(prev: nat, card: nat)
      requires prev < cards.Length && card < cards.Length
      modifies cards, this`matchedCardsCount, this`timerRunning, this`winAlerts
      ensures cards[..] == SetState(SetState(old(cards[..]), prev, Matched), card, Matched)
      ensures matchedCardsCount == old(matchedCardsCount) + 2
      ensures matchedCardsCount == WinCondition ==>
        !timerRunning && winAlerts == old(winAlerts) + [WinReport(moves, starsCount)]
      ensures matchedCardsCount != WinCondition ==>
        timerRunning == old(timerRunning) && winAlerts == old(winAlerts)
    {
      cards[prev] := cards[prev].(state := Matched);
      cards[card] := cards[card].(state := Matched);
      matchedCardsCount := matchedCardsCount + 2;
      if matchedCardsCount == WinCondition {
        timerRunning := false;
        winAlerts := winAlerts + [WinReport(moves, starsCount)];
      }
    }

    /** incorrectGuess, with its animation taken as finished: both cards are cleaned
        back to hidden. */
    method IncorrectGuess(prev: nat, card: nat)
      requires prev < cards.Length && card < cards.Length
      modifies cards
      ensures cards[..] == SetState(SetState(old(cards[..]), prev, Hidden), card, Hidden)
    {
      cards[prev] := Clean(cards[prev]);
      cards[card] := Clean(cards[card]);
    }

    /** onCardClick on the card in slot `i`: follows the rules' Click, keeps the panel
        in step with the moves, and shows the win dialog exactly when this click's
        match brings the count to the win condition. */
    method OnCardClick(i: nat)
      requires Valid() && i < cards.Length
      modifies this, cards, stars
      ensures Valid() && cards == old(cards) && stars == old(stars)
      ensures State() == Click(old(State()), i)
      ensures winAlerts == if old(matchedCardsCount) < WinCondition <= matchedCardsCount
                           then old(winAlerts) + [WinReport(moves, starsCount)]
                           else old(winAlerts)
    {
      ghost var before := State();
      ClickPreservesInv(before, i);
      if CardIsOpenedOrMatched(cards[i]) {
        return;
      }
      if prevCard.None? {
        OpenCard(i);
        prevCard := Some(i);
      } else {
        var prev := prevCard.value;
        moves := moves + 1;
        UpdateScorePanel(moves);
        if CardsAreMatched(cards[prev], cards[i]) {
          MatchCards(prev, i);
        } else {
          IncorrectGuess(prev, i);
        }
        prevCard := None;
        assert State() == Click(before, i);
      }
    }

    /** restartGame: restarts the timer, shuffles the deck in place with the given
        Math.random draws, cleans every card, and zeroes the pending card, the moves
        (so three stars) and the matched count. */
    method RestartGame(draws: seq<real>)
      requires stars.Length == MaxStars
      requires Shuffle.IsRandomStream(draws) && cards.Length <= |draws|
      modifies this, cards, stars
      ensures Valid() && cards == old(cards) && stars == old(stars)
      ensures State() == Restart(old(cards[..]), draws)
      ensures starsCount == MaxStars && timerRunning && winAlerts == []
    {
      ghost var deck := cards[..];
      timerRunning := true;
      var _ := Shuffle.Shuffle(cards, draws);
      CleanCardsClassList(cards);
      prevCard := None;
      moves := 0;
      UpdateScorePanel(moves);
      matchedCardsCount := 0;
      winAlerts := [];
      assert State() == Restart(deck, draws);
    }
  }
}
