/**
 * Scratchcards: points per card, and the copies every card wins of the cards after it.
 */
module Scratchcards {
  import opened Wrappers

  /** A card: its winning numbers and the numbers on it. */
  type Card = (set<int>, set<int>)

  /** How many of the card's numbers are winning numbers (`len(win & mine)`). */
  function Matches(card: Card): nat { |card.0 * card.1| }

  function Pow2(n: nat): (r: nat)
    ensures r >= 1
  {
    if n == 0 then 1 else 2 * Pow2(n - 1)
  }

  /**
   * `int(2 ** (n - 1))`: for no matches Python computes 0.5 and truncates it to 0, so the
   * value is 2^n halved with the remainder dropped.
   */
  function Points(n: nat): nat { Pow2(n) / 2 }

  /** No match scores nothing; n matches score 2^(n-1): one point doubled per further match. */
  lemma PointsValue(n: nat)
    ensures n == 0 ==> Points(n) == 0
    ensures n > 0 ==> Points(n) == Pow2(n - 1)
    ensures n > 0 ==> Points(n + 1) == 2 * Points(n)
  {
  }

  /** `calc_points`: one score per card, in card order. */
  function CalcPoints(cards: seq<Card>): (r: seq<nat>)
    ensures |r| == |cards|
    ensures forall i :: 0 <= i < |r| ==> (r[i] == 0 <==> Matches(cards[i]) == 0)
    ensures forall i :: 0 <= i < |r| && Matches(cards[i]) > 0 ==> r[i] == Pow2(Matches(cards[i]) - 1)
  {
    seq(|cards|, i requires 0 <= i < |cards| => Points(Matches(cards[i])))
  }

  function MatchCounts(cards: seq<Card>): (ms: seq<nat>)
    ensures |ms| == |cards| && forall i :: 0 <= i < |cards| ==> ms[i] == Matches(cards[i])
  {
    seq(|cards|, i requires 0 <= i < |cards| => Matches(cards[i]))
  }

  /**
   * The number of copies of card k each card t (t < k) hands out, where `ms[t]` is card t's
   * match count: card t gives one copy per copy it holds to each of the `ms[t]` cards after it.
   * The sum runs over the cards before index i.
   */
  function Won(ms: seq<nat>, i: nat, k: nat): nat
    requires i <= |ms| && k < |ms|
    decreases i, 0
  {
    if i == 0 then 0
    else Won(ms, i - 1, k) + (if i - 1 < k <= i - 1 + ms[i - 1] then CopyCount(ms, i - 1) else 0)
  }

  /** The copies card k ends with: the original one plus every copy won from earlier cards. */
  function CopyCount(ms: seq<nat>, k: nat): nat
    requires k < |ms|
    decreases k, 1
  {
    1 + Won(ms, k, k)
  }

  /** The copy count of every card. */
  function Copies(ms: seq<nat>): (r: seq<nat>)
    ensures |r| == |ms| && forall k :: 0 <= k < |ms| ==> r[k] == CopyCount(ms, k)
  {
    seq(|ms|, k requires 0 <= k < |ms| => CopyCount(ms, k))
  }

  /** Some card wins copies past the last card: the case `card_wins` indexes out of range. */
  predicate Overflows(ms: seq<nat>)
  {
    exists t :: 0 <= t < |ms| && t + ms[t] >= |ms|
  }

  datatype CardError = IndexOutOfRange

  /** Cards at or after k win nothing for card k: card k's count is final once it is reached. */
  lemma {:induction false} WonSettled(ms: seq<nat>, i: nat, k: nat)
    requires k <= i <= |ms| && k < |ms|
    ensures Won(ms, i, k) == Won(ms, k, k)
    decreases i
  {
    if i > k {
      WonSettled(ms, i - 1, k);
    }
  }

  /** Counts never decrease as more cards hand out their copies. */
  lemma {:induction false} WonMonotone(ms: seq<nat>, i: nat, j: nat, k: nat)
    requires i <= j <= |ms| && k < |ms|
    ensures Won(ms, i, k) <= Won(ms, j, k)
    decreases j
  {
    if j > i {
      WonMonotone(ms, i, j - 1, k);
    }
  }

  /** Every card keeps its original copy, and the first card wins nothing. */
  lemma CopyCountFacts(ms: seq<nat>, k: nat)
    requires k < |ms|
    ensures CopyCount(ms, k) >= 1
    ensures k == 0 ==> CopyCount(ms, k) == 1
  {
  }

  /** The example deck: match counts 4, 2, 2, 1, 0, 0 give 1, 2, 4, 8, 14 and 1 copies. */
  lemma Example()
    ensures Copies([4, 2, 2, 1, 0, 0]) == [1, 2, 4, 8, 14, 1]
  {
    var ms: seq<nat> := [4, 2, 2, 1, 0, 0];
    assert CopyCount(ms, 0) == 1;
    assert Won(ms, 1, 1) == 1;
    assert CopyCount(ms, 1) == 2;
    assert Won(ms, 2, 2) == 3;
    assert CopyCount(ms, 2) == 4;
    assert Won(ms, 2, 3) == 3;
    assert Won(ms, 3, 3) == 7;
    assert CopyCount(ms, 3) == 8;
    assert Won(ms, 2, 4) == 1;
    assert Won(ms, 3, 4) == 5;
    assert Won(ms, 4, 4) == 13;
    assert CopyCount(ms, 4) == 14;
    assert Won(ms, 5, 5) == 0;
    assert CopyCount(ms, 5) == 1;
  }

  /**
   * `card_wins`: every card starts with one copy; card i then adds its copy count to each of
   * the next `Matches(cards[i])` cards, in place. Indexing past the last card fails.
   */
  method CardWins(cards: seq<Card>) returns (r: Result<seq<nat>, CardError>)
    ensures r.Err? <==> Overflows(MatchCounts(cards))
    ensures r.Ok? ==> r.value == Copies(MatchCounts(cards))
  {
    ghost var ms := MatchCounts(cards);
    var n := |cards|;
    var copies := new nat[n](_ => 1);
    for i := 0 to n
      invariant forall k :: 0 <= k < n ==> copies[k] == 1 + Won(ms, i, k)
      invariant forall t :: 0 <= t < i ==> t + ms[t] < n
    {
      var ok := HandOut(copies, i, |cards[i].0 * cards[i].1|, ms);
      if !ok {
        return Err(IndexOutOfRange);
      }
    }
    forall k | 0 <= k < n
      ensures copies[k] == CopyCount(ms, k)
    {
      WonSettled(ms, n, k);
    }
    r := Ok(copies[..]);
  }

  /**
   * The inner loop of `card_wins`: card i, holding its final count, adds it to each of the
   * next m cards; it fails on the first index past the end.
   */
  method HandOut(copies: array<nat>, i: nat, m: nat, ghost ms: seq<nat>) returns (ok: bool)
    requires copies.Length == |ms| && i < |ms| && m == ms[i]
    requires forall k :: 0 <= k < |ms| ==> copies[k] == 1 + Won(ms, i, k)
    modifies copies
    ensures ok <==> i + m < |ms|
    ensures ok ==> forall k :: 0 <= k < |ms| ==> copies[k] == 1 + Won(ms, i + 1, k)
  {
    var n := copies.Length;
    WonSettled(ms, i, i);
    for j := 1 to m + 1
      invariant i + j <= n
      invariant copies[i] == CopyCount(ms, i)
      invariant forall k :: 0 <= k < n ==>
        copies[k] == 1 + Won(ms, i, k) + (if i < k < i + j then CopyCount(ms, i) else 0)
    {
      if i + j >= n {
        return false;
      }
      copies[i + j] := copies[i + j] + copies[i];
    }
    forall k | 0 <= k < n
      ensures copies[k] == 1 + Won(ms, i + 1, k)
    {
      assert Won(ms, i + 1, k) == Won(ms, i, k) + (if i < k <= i + m then CopyCount(ms, i) else 0);
    }
    return true;
  }
}
