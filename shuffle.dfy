/** The deck shuffle: an in-place Fisher–Yates shuffle driven by Math.random.
    The random source is a caller-supplied stream of draws, each a real in [0, 1)
    as Math.random returns; the model proves the rest (bounds, permutation). */
module Shuffle {

  /** The draws a caller may supply: every one lies in [0, 1), as Math.random's do. */
  predicate IsRandomStream(draws: seq<real>)
  {
    forall k :: 0 <= k < |draws| ==> 0.0 <= draws[k] < 1.0
  }

  lemma ProductBelowBound(x: real, bound: nat)
    requires 0.0 <= x < 1.0 && 0 < bound
    ensures 0.0 <= x * bound as real < bound as real
  {
    assert bound as real - x * bound as real == (1.0 - x) * bound as real;
  }

  /** Math.floor(x * bound): the slot picked by one draw x when `bound` slots remain.
      The product is taken exactly; the source rounds it to a double first. */
  function RandomIndex(x: real, bound: nat): (r: nat)
    requires 0.0 <= x < 1.0 && 0 < bound
    ensures r < bound
  {
    ProductBelowBound(x, bound);
    (x * bound as real).Floor
  }

  /** Exchange of two slots of a sequence. */
  function Swap<T>(s: seq<T>, i: nat, j: nat): (r: seq<T>)
    requires i < |s| && j < |s|
    ensures |r| == |s| && r[i] == s[j] && r[j] == s[i]
    ensures forall k :: 0 <= k < |s| && k != i && k != j ==> r[k] == s[k]
  {
    seq(|s|, k requires 0 <= k < |s| => if k == i then s[j] else if k == j then s[i] else s[k])
  }

  /** Swapping is writing each slot with the other's old value, in either order. */
  lemma SwapIsUpdate<T>(s: seq<T>, i: nat, j: nat)
    requires i < |s| && j < |s|
    ensures Swap(s, i, j) == s[i := s[j]][j := s[i]]
  {
  }

  lemma SwapPermutes<T>(s: seq<T>, i: nat, j: nat)
    requires i < |s| && j < |s|
    ensures multiset(Swap(s, i, j)) == multiset(s)
  {
    SwapIsUpdate(s, i, j);
  }

  /** The slots a run of the loop over `n` elements picks: in turn `k + 1`, draw `k`
      chooses among the `n - k` slots still below `currentIndex`. */
  function Picks(draws: seq<real>, n: nat): (picks: seq<nat>)
    requires IsRandomStream(draws) && n <= |draws|
    ensures IsPickSequence(picks, n)
    ensures forall k :: 0 <= k < n ==> picks[k] == RandomIndex(draws[k], n - k)
  {
    seq(n, k requires 0 <= k < n => RandomIndex(draws[k], n - k))
  }

  /** One pick per element, each below the number of slots left in its turn. */
  predicate IsPickSequence(picks: seq<nat>, n: nat)
  {
    |picks| == n && forall k :: 0 <= k < n ==> picks[k] < n - k
  }

  /** The deck after the first `k` turns of the shuffle loop. Turn `k` swaps slot
      `|s| - k` (the decremented `currentIndex`) with the slot `picks[k - 1]` below it. */
  function ShuffleSteps<T>(s: seq<T>, picks: seq<nat>, k: nat): (r: seq<T>)
    requires IsPickSequence(picks, |s|) && k <= |s|
    ensures |r| == |s|
    decreases k
  {
    if k == 0 then s
    else Swap(ShuffleSteps(s, picks, k - 1), |s| - k, picks[k - 1])
  }

  /** The deck after the whole loop: one turn per element. */
  function Shuffled<T>(s: seq<T>, draws: seq<real>): (r: seq<T>)
    requires IsRandomStream(draws) && |s| <= |draws|
    ensures |r| == |s|
    ensures multiset(r) == multiset(s)
  {
    ShufflePermutes(s, Picks(draws, |s|), |s|);
    ShuffleSteps(s, Picks(draws, |s|), |s|)
  }

  /** One turn of the loop only exchanges two elements. */
  lemma ShuffleStepPermutes<T>(s: seq<T>, picks: seq<nat>, k: nat)
    requires IsPickSequence(picks, |s|) && 0 < k <= |s|
    ensures multiset(ShuffleSteps(s, picks, k)) == multiset(ShuffleSteps(s, picks, k - 1))
  {
    SwapPermutes(ShuffleSteps(s, picks, k - 1), |s| - k, picks[k - 1]);
  }

  /** Every prefix of the loop only rearranges the deck: no element is lost or duplicated. */
  lemma {:induction false} ShufflePermutes<T>(s: seq<T>, picks: seq<nat>, k: nat)
    requires IsPickSequence(picks, |s|) && k <= |s|
    ensures multiset(ShuffleSteps(s, picks, k)) == multiset(s)
    decreases k
  {
    if k > 0 {
      ShufflePermutes(s, picks, k - 1);
      ShuffleStepPermutes(s, picks, k);
    }
  }

  /** Once turn `k` has filled slot `|s| - k`, no later turn touches slots at or above it. */
  lemma {:induction false} ShuffleSettles<T>(s: seq<T>, picks: seq<nat>, k: nat, m: nat)
    requires IsPickSequence(picks, |s|) && k <= m <= |s|
    ensures forall t :: |s| - k <= t < |s| ==> ShuffleSteps(s, picks, m)[t] == ShuffleSteps(s, picks, k)[t]
    decreases m
  {
    if m > k {
      ShuffleSettles(s, picks, k, m - 1);
      assert ShuffleSteps(s, picks, m) == Swap(ShuffleSteps(s, picks, m - 1), |s| - m, picks[m - 1]);
    }
  }

  /** Slot `|s| - k` of the shuffled deck holds the element that turn `k` picked. */
  lemma ShuffledSlot<T>(s: seq<T>, picks: seq<nat>, k: nat)
    requires IsPickSequence(picks, |s|) && 0 < k <= |s|
    ensures ShuffleSteps(s, picks, |s|)[|s| - k] == ShuffleSteps(s, picks, k - 1)[picks[k - 1]]
  {
    ShuffleSettles(s, picks, k, |s|);
  }

  /** Picks that always take the last remaining slot leave the deck as it was. */
  lemma {:induction false} ShuffleStepsKeepOrder<T>(s: seq<T>, picks: seq<nat>, k: nat)
    requires IsPickSequence(picks, |s|) && k <= |s|
    requires forall t :: 0 <= t < k ==> picks[t] == |s| - t - 1
    ensures ShuffleSteps(s, picks, k) == s
    decreases k
  {
    if k > 0 {
      ShuffleStepsKeepOrder(s, picks, k - 1);
    }
  }

  /** shuffle(array): swaps `array[currentIndex]` with a randomly picked slot below the
      old `currentIndex`, while `currentIndex` counts down from the length to 0. Returns
      how many draws it consumed: exactly one per element. */
  method Shuffle<T>(a: array<T>, draws: seq<real>) returns (used: nat)
    requires IsRandomStream(draws) && a.Length <= |draws|
    modifies a
    ensures used == a.Length
    ensures a[..] == Shuffled(old(a[..]), draws)
    ensures multiset(a[..]) == multiset(old(a[..]))
  {
    ghost var picks := Picks(draws, a.Length);
    var currentIndex := a.Length;
    used := 0;
    while currentIndex != 0
      invariant 0 <= currentIndex <= a.Length
      invariant used == a.Length - currentIndex
      invariant a[..] == ShuffleSteps(old(a[..]), picks, used)
      decreases currentIndex
    {
      ghost var before := a[..];
      var randomIndex := RandomIndex(draws[used], currentIndex);
      assert randomIndex == picks[used];
      used := used + 1;
      currentIndex := currentIndex - 1;
      var temporaryValue := a[currentIndex];
      a[currentIndex] := a[randomIndex];
      a[randomIndex] := temporaryValue;
      assert a[..] == before[currentIndex := before[randomIndex]][randomIndex := before[currentIndex]];
      SwapIsUpdate(before, currentIndex, randomIndex);
    }
    ShufflePermutes(old(a[..]), picks, a.Length);
  }
}
