/** The rules of the game as values: the cards and their states, the state that the
    click handler reads and writes, and what one click does to it. The class in
    game.dfy carries this state in mutable fields and is proved to follow these rules. */
module Rules {
  import Shuffle

  datatype Option<T> = None | Some(value: T)

  /** The icon class that identifies a card's face (`fa-diamond`, `fa-bolt`, ...). */
  type Symbol = string

  /** The state a card's class list encodes: neither `open` nor `match`, `open`, or `match`. */
  datatype CardState = Hidden | Open | Matched

  datatype Card = Card(symbol: Symbol, state: CardState)

  /** The number of matched cards at which the game is won. */
  const WinCondition := 16

  /** cardIsOpenedOrMatched: the card carries `open` or `match`, so exactly the
      hidden cards get past the click guard. */
  predicate CardIsOpenedOrMatched(c: Card)
    ensures CardIsOpenedOrMatched(c) <==> c.state != Hidden
  {
    c.state == Open || c.state == Matched
  }

  /** cardsAreMatched: both faces carry the same icon class. The state classes play
      no part: two cards match exactly when they are equal once cleaned, and in
      particular a card matches itself. */
  predicate CardsAreMatched(a: Card, b: Card)
    ensures CardsAreMatched(a, b) <==> Clean(a) == Clean(b)
    ensures a == b ==> CardsAreMatched(a, b)
  {
    a.symbol == b.symbol
  }

  lemma CardsAreMatchedSymmetric(a: Card, b: Card)
    ensures CardsAreMatched(a, b) <==> CardsAreMatched(b, a)
  {
  }

  /** cleanCardClassList: the card loses its `open`, `match` and `incorrect` classes,
      keeps its face, and can be clicked again. */
  function Clean(c: Card): (r: Card)
    ensures r.symbol == c.symbol && r.state == Hidden
    ensures !CardIsOpenedOrMatched(r)
  {
    c.(state := Hidden)
  }

  /** cleanCardsClassList over a whole deck. */
  function CleanAll(deck: seq<Card>): (r: seq<Card>)
    ensures |r| == |deck|
    ensures forall k :: 0 <= k < |deck| ==> r[k].symbol == deck[k].symbol && r[k].state == Hidden
  {
    seq(|deck|, k requires 0 <= k < |deck| => Clean(deck[k]))
  }

  /** The card faces in deck order. */
  function Symbols(deck: seq<Card>): (r: seq<Symbol>)
    ensures |r| == |deck|
  {
    seq(|deck|, k requires 0 <= k < |deck| => deck[k].symbol)
  }

  function SetState(deck: seq<Card>, i: nat, st: CardState): (r: seq<Card>)
    requires i < |deck|
    ensures |r| == |deck|
  {
    deck[i := deck[i].(state := st)]
  }

  /** 1 if the card is matched, else 0. */
  function MatchedMark(c: Card): nat
  {
    if c.state == Matched then 1 else 0
  }

  /** 1 if the card is matched and shows face `x`, else 0. */
  function MatchedFaceMark(c: Card, x: Symbol): nat
  {
    if c.state == Matched && c.symbol == x then 1 else 0
  }

  /** The number of cards in the `match` state. */
  function CountMatched(deck: seq<Card>): nat
  {
    if deck == [] then 0 else MatchedMark(deck[0]) + CountMatched(deck[1..])
  }

  /** The number of matched cards showing face `x`. */
  function CountMatchedFace(deck: seq<Card>, x: Symbol): nat
  {
    if deck == [] then 0 else MatchedFaceMark(deck[0], x) + CountMatchedFace(deck[1..], x)
  }

  /** Changing one card changes the matched counts by that card's old and new marks. */
  lemma {:induction false} CountMatchedUpdate(deck: seq<Card>, i: nat, c: Card)
    requires i < |deck|
    ensures CountMatched(deck[i := c]) + MatchedMark(deck[i]) == CountMatched(deck) + MatchedMark(c)
    ensures forall x :: CountMatchedFace(deck[i := c], x) + MatchedFaceMark(deck[i], x)
                     == CountMatchedFace(deck, x) + MatchedFaceMark(c, x)
    decreases |deck|
  {
    var updated := deck[i := c];
    if i == 0 {
      assert updated[1..] == deck[1..];
    } else {
      assert updated[0] == deck[0] && updated[1..] == deck[1..][i - 1 := c];
      assert deck[1..][i - 1] == deck[i];
      CountMatchedUpdate(deck[1..], i - 1, c);
    }
  }

  /** A deck without a matched card counts no matched card of any face. */
  lemma {:induction false} CountMatchedNone(deck: seq<Card>)
    requires forall k :: 0 <= k < |deck| ==> deck[k].state != Matched
    ensures CountMatched(deck) == 0
    ensures forall x :: CountMatchedFace(deck, x) == 0
    decreases |deck|
  {
    if deck != [] {
      CountMatchedNone(deck[1..]);
    }
  }

  /** The matched count never exceeds the deck, and reaches it exactly when every card is matched. */
  lemma {:induction false} CountMatchedAll(deck: seq<Card>)
    ensures CountMatched(deck) <= |deck|
    ensures CountMatched(deck) == |deck| <==> forall k :: 0 <= k < |deck| ==> deck[k].state == Matched
    decreases |deck|
  {
    if deck != [] {
      CountMatchedAll(deck[1..]);
      if forall k :: 0 <= k < |deck[1..]| ==> deck[1..][k].state == Matched {
        if deck[0].state == Matched {
          forall k | 0 <= k < |deck| ensures deck[k].state == Matched {
            if k > 0 { assert deck[k] == deck[1..][k - 1]; }
          }
        }
      } else {
        var k :| 0 <= k < |deck[1..]| && deck[1..][k].state != Matched;
        assert deck[k + 1].state != Matched;
      }
    }
  }

  /** The state the click handler works on: the deck, `prevCard` (as a slot of the deck),
      `moves` and `matchedCardsCount`. */
  datatype Play = Play(cards: seq<Card>, prev: Option<nat>, moves: nat, matched: nat)

  predicate WellFormed(p: Play)
  {
    p.prev.Some? ==> p.prev.value < |p.cards|
  }

  /** The invariant the handler keeps: the one open card is the pending one,
      `matchedCardsCount` counts the matched cards and is even, and matched cards
      come in pairs of equal faces. */
  ghost predicate Inv(p: Play)
  {
    WellFormed(p)
    && (forall k :: 0 <= k < |p.cards| ==> (p.cards[k].state == Open <==> p.prev == Some(k)))
    && p.matched == CountMatched(p.cards)
    && p.matched % 2 == 0
    && (forall x :: CountMatchedFace(p.cards, x) % 2 == 0)
  }

  /** onCardClick on the card in slot `i`, with the animations taken as finished. */
  function Click(p: Play, i: nat): (q: Play)
    requires WellFormed(p) && i < |p.cards|
    ensures WellFormed(q) && |q.cards| == |p.cards|
    ensures q.matched == p.matched || q.matched == p.matched + 2
  {
    if CardIsOpenedOrMatched(p.cards[i]) then p
    else match p.prev
      case None =>
        p.(cards := SetState(p.cards, i, Open), prev := Some(i))
      case Some(j) =>
        if CardsAreMatched(p.cards[j], p.cards[i]) then
          p.(cards := SetState(SetState(p.cards, j, Matched), i, Matched),
             prev := None, moves := p.moves + 1, matched := p.matched + 2)
        else
          p.(cards := SetState(SetState(p.cards, j, Hidden), i, Hidden),
             prev := None, moves := p.moves + 1)
  }

  /** The state restartGame leaves: the shuffled deck, every card cleaned, no pending
      card, no moves, no matches. */
  function Restart(deck: seq<Card>, draws: seq<real>): (p: Play)
    requires Shuffle.IsRandomStream(draws) && |deck| <= |draws|
    ensures Inv(p)
    ensures |p.cards| == |deck| && multiset(Symbols(p.cards)) == multiset(Symbols(deck))
    ensures forall k :: 0 <= k < |p.cards| ==> p.cards[k].state == Hidden
    ensures p.prev == None && p.moves == 0 && p.matched == 0
  {
    var shuffled := Shuffle.Shuffled(deck, draws);
    var cleaned := CleanAll(shuffled);
    CountMatchedNone(cleaned);
    assert Symbols(cleaned) == Symbols(shuffled);
    var picks := Shuffle.Picks(draws, |deck|);
    ShuffleKeepsSymbols(deck, picks, |deck|);
    Shuffle.ShufflePermutes(Symbols(deck), picks, |deck|);
    Play(cleaned, None, 0, 0)
  }

  /** Shuffling a deck moves its faces exactly as shuffling the faces alone would. */
  lemma {:induction false} ShuffleKeepsSymbols(deck: seq<Card>, picks: seq<nat>, k: nat)
    requires Shuffle.IsPickSequence(picks, |deck|) && k <= |deck|
    ensures Symbols(Shuffle.ShuffleSteps(deck, picks, k)) == Shuffle.ShuffleSteps(Symbols(deck), picks, k)
    decreases k
  {
    if k > 0 {
      ShuffleKeepsSymbols(deck, picks, k - 1);
      SymbolsOfSwap(Shuffle.ShuffleSteps(deck, picks, k - 1), |deck| - k, picks[k - 1]);
    }
  }

  lemma SymbolsOfSwap(deck: seq<Card>, i: nat, j: nat)
    requires i < |deck| && j < |deck|
    ensures Symbols(Shuffle.Swap(deck, i, j)) == Shuffle.Swap(Symbols(deck), i, j)
  {
  }

  /** A click on an open or matched card changes nothing. */
  lemma ClickIgnoresOpenOrMatched(p: Play, i: nat)
    requires WellFormed(p) && i < |p.cards| && CardIsOpenedOrMatched(p.cards[i])
    ensures Click(p, i) == p
  {
  }

  /** With no pending card, a click opens the card and makes it the pending one; no move is counted. */
  lemma ClickFirstCard(p: Play, i: nat)
    requires WellFormed(p) && i < |p.cards| && !CardIsOpenedOrMatched(p.cards[i]) && p.prev == None
    ensures Click(p, i).cards[i] == Card(p.cards[i].symbol, Open)
    ensures forall k :: 0 <= k < |p.cards| && k != i ==> Click(p, i).cards[k] == p.cards[k]
    ensures Click(p, i).prev == Some(i)
    ensures Click(p, i).moves == p.moves && Click(p, i).matched == p.matched
  {
  }

  /** With a pending card, a click counts exactly one move and clears the pending card;
      equal faces turn both cards matched and add two to the count, different faces
      hide both and leave the count. No other card changes. */
  lemma ClickSecondCard(p: Play, i: nat, j: nat)
    requires Inv(p) && i < |p.cards| && !CardIsOpenedOrMatched(p.cards[i]) && p.prev == Some(j)
    ensures i != j
    ensures Click(p, i).moves == p.moves + 1 && Click(p, i).prev == None
    ensures CardsAreMatched(p.cards[j], p.cards[i]) ==>
      Click(p, i).cards[i].state == Matched && Click(p, i).cards[j].state == Matched
      && Click(p, i).matched == p.matched + 2
    ensures !CardsAreMatched(p.cards[j], p.cards[i]) ==>
      Click(p, i).cards[i].state == Hidden && Click(p, i).cards[j].state == Hidden
      && Click(p, i).matched == p.matched
    ensures forall k :: 0 <= k < |p.cards| && k != i && k != j ==> Click(p, i).cards[k] == p.cards[k]
  {
  }

  /** A click never changes a card's face. */
  lemma ClickKeepsSymbols(p: Play, i: nat)
    requires WellFormed(p) && i < |p.cards|
    ensures Symbols(Click(p, i).cards) == Symbols(p.cards)
  {
  }

  /** Setting two unmatched cards to the same state `st` adds both to the matched
      counts when `st` is Matched, and changes no count otherwise. */
  lemma SetPairCounts(deck: seq<Card>, j: nat, i: nat, st: CardState)
    requires j < |deck| && i < |deck| && j != i
    requires deck[j].state != Matched && deck[i].state != Matched
    ensures CountMatched(SetState(SetState(deck, j, st), i, st))
         == CountMatched(deck) + (if st == Matched then 2 else 0)
    ensures forall x ::
              CountMatchedFace(SetState(SetState(deck, j, st), i, st), x)
              == CountMatchedFace(deck, x) + MatchedFaceMark(deck[j].(state := st), x)
                 + MatchedFaceMark(deck[i].(state := st), x)
  {
    var mid := SetState(deck, j, st);
    CountMatchedUpdate(deck, j, deck[j].(state := st));
    CountMatchedUpdate(mid, i, mid[i].(state := st));
  }

  /** Opening an unmatched card changes no matched count. */
  lemma OpenCounts(deck: seq<Card>, i: nat)
    requires i < |deck| && deck[i].state != Matched
    ensures CountMatched(SetState(deck, i, Open)) == CountMatched(deck)
    ensures forall x :: CountMatchedFace(SetState(deck, i, Open), x) == CountMatchedFace(deck, x)
  {
    CountMatchedUpdate(deck, i, deck[i].(state := Open));
  }

  /** A click keeps the invariant. */
  lemma ClickPreservesInv(p: Play, i: nat)
    requires Inv(p) && i < |p.cards|
    ensures Inv(Click(p, i))
  {
    if !CardIsOpenedOrMatched(p.cards[i]) {
      match p.prev
      case None =>
        OpenCounts(p.cards, i);
      case Some(j) =>
        assert p.cards[j].state == Open;
        var q := Click(p, i);
        var st := if CardsAreMatched(p.cards[j], p.cards[i]) then Matched else Hidden;
        SetPairCounts(p.cards, j, i, st);
        forall x ensures CountMatchedFace(q.cards, x) % 2 == 0 {
          assert CountMatchedFace(q.cards, x) == CountMatchedFace(p.cards, x)
            + MatchedFaceMark(p.cards[j].(state := st), x) + MatchedFaceMark(p.cards[i].(state := st), x);
        }
    }
  }

  /** A matched card stays matched whatever is clicked. */
  lemma MatchedIsTerminal(p: Play, i: nat, k: nat)
    requires Inv(p) && i < |p.cards| && k < |p.cards| && p.cards[k].state == Matched
    ensures Click(p, i).cards[k].state == Matched
  {
  }

  /** On a full deck of 16 cards, the count reaches the win condition exactly when every
      card is matched, and from then on every click is ignored. */
  lemma WonGameIgnoresClicks(p: Play, i: nat)
    requires Inv(p) && |p.cards| == WinCondition && i < |p.cards|
    ensures p.matched == WinCondition <==> forall k :: 0 <= k < |p.cards| ==> p.cards[k].state == Matched
    ensures p.matched == WinCondition ==> Click(p, i) == p
  {
    CountMatchedAll(p.cards);
  }

  /** A run of clicks, one after the other. */
  function Run(p: Play, clicks: seq<nat>): (q: Play)
    requires WellFormed(p) && forall k :: 0 <= k < |clicks| ==> clicks[k] < |p.cards|
    ensures WellFormed(q) && |q.cards| == |p.cards|
    decreases |clicks|
  {
    if clicks == [] then p else Run(Click(p, clicks[0]), clicks[1..])
  }

  /** Along any run the invariant holds, moves and the matched count never go down,
      and cards once matched stay matched. */
  lemma {:induction false} RunPreservesInv(p: Play, clicks: seq<nat>)
    requires Inv(p) && forall k :: 0 <= k < |clicks| ==> clicks[k] < |p.cards|
    ensures Inv(Run(p, clicks))
    ensures p.moves <= Run(p, clicks).moves && p.matched <= Run(p, clicks).matched
    ensures forall k :: 0 <= k < |p.cards| && p.cards[k].state == Matched ==>
      Run(p, clicks).cards[k].state == Matched
    decreases |clicks|
  {
    if clicks != [] {
      var q := Click(p, clicks[0]);
      ClickPreservesInv(p, clicks[0]);
      forall k | 0 <= k < |p.cards| && p.cards[k].state == Matched
        ensures q.cards[k].state == Matched
      {
        MatchedIsTerminal(p, clicks[0], k);
      }
      RunPreservesInv(q, clicks[1..]);
    }
  }
}

module RulesScenarios {
  import opened Rules

  /** A four-card deck A B B A: opening slot 0 then 3 matches, slot 1 then 2 matches;
      two moves, four matched cards, nothing pending. */
  lemma TwoPairsInTwoMoves()
    ensures var deck := [Card("A", Hidden), Card("B", Hidden), Card("B", Hidden), Card("A", Hidden)];
      Run(Play(deck, None, 0, 0), [0, 3, 1, 2])
        == Play([Card("A", Matched), Card("B", Matched), Card("B", Matched), Card("A", Matched)], None, 2, 4)
  {
  }

  /** A four-card deck A B A B: slots 0 and 1 differ, so both are hidden again after
      one move; slot 0 then 2 matches on the second move. */
  lemma MismatchThenMatch()
    ensures var deck := [Card("A", Hidden), Card("B", Hidden), Card("A", Hidden), Card("B", Hidden)];
      Run(Play(deck, None, 0, 0), [0, 1]) == Play(deck, None, 1, 0)
      && Run(Play(deck, None, 0, 0), [0, 1, 0, 2])
        == Play([Card("A", Matched), Card("B", Hidden), Card("A", Matched), Card("B", Hidden)], None, 2, 2)
  {
  }
}
