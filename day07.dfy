/**
 * Camel Cards: the type of a hand from its card counts, the base-13 value of its cards, the
 * joker rule, and the winnings of a list of (hand, bid) pairs ranked by strength.
 */
module CamelCards {
  import opened Wrappers
  import opened Text

  /** The card ranks, weakest first. */
  const Cards: string := "23456789TJQKA"
  /** The ranks of the joker game: J is the weakest card. */
  const JCards: string := "J23456789TQKA"

  /** 13^5, the weight of the type: `len(CARDS) ** 5`. */
  const TypeWeight: nat := 371293

  // ---------------------------------------------------------------------------------------
  // Counting cards

  /** The (card, count) entries of a count dictionary, in first-appearance order. */
  type Tally = seq<(char, nat)>

  predicate DistinctKeys(t: Tally)
  {
    forall i, j :: 0 <= i < j < |t| ==> t[i].0 != t[j].0
  }

  function KeysOf(t: Tally): (r: seq<char>)
    ensures |r| == |t| && forall i :: 0 <= i < |t| ==> r[i] == t[i].0
  {
    seq(|t|, i requires 0 <= i < |t| => t[i].0)
  }

  /** `d[c] = d.get(c, 0) + 1` on an insertion-ordered dictionary. */
  function Bump(t: Tally, c: char): Tally
  {
    match IndexOf(KeysOf(t), c)
    case None => t + [(c, 1)]
    case Some(i) => t[i := (c, t[i].1 + 1)]
  }

  /**
   * A new card becomes the last key with count 1; a known card's count goes up by one;
   * nothing else changes.
   */
  lemma BumpKeys(t: Tally, c: char)
    requires DistinctKeys(t)
    ensures DistinctKeys(Bump(t, c))
    ensures c !in KeysOf(t) ==> Bump(t, c) == t + [(c, 1)]
    ensures c in KeysOf(t) ==> |Bump(t, c)| == |t|
    ensures forall i :: 0 <= i < |t| ==> Bump(t, c)[i].0 == t[i].0
    ensures forall i :: 0 <= i < |t| ==> Bump(t, c)[i].1 == t[i].1 + (if t[i].0 == c then 1 else 0)
  {
    match IndexOf(KeysOf(t), c)
    case None =>
    case Some(i) =>
      assert t[i].0 == c;
  }

  /** The count dictionary of a hand, built card by card. */
  function TallyOf(hand: string): Tally
  {
    if hand == [] then [] else Bump(TallyOf(hand[..|hand| - 1]), hand[|hand| - 1])
  }

  /**
   * The dictionary holds each card of the hand once, keys in first-appearance order, each
   * with its number of occurrences.
   */
  lemma {:induction false} TallyCounts(hand: string)
    ensures DistinctKeys(TallyOf(hand))
    ensures forall x :: x in KeysOf(TallyOf(hand)) <==> x in hand
    ensures forall i :: 0 <= i < |TallyOf(hand)| ==> TallyOf(hand)[i].1 == CountChar(hand, TallyOf(hand)[i].0)
  {
    if hand != [] {
      var front := hand[..|hand| - 1];
      var c := hand[|hand| - 1];
      TallyCounts(front);
      var t := TallyOf(front);
      BumpKeys(t, c);
      var r := TallyOf(hand);
      assert hand == front + [c];
      forall x ensures x in KeysOf(r) <==> x in hand {
        if x in KeysOf(r) {
          var i :| 0 <= i < |r| && KeysOf(r)[i] == x;
          if i < |t| { assert KeysOf(t)[i] == x; }
        }
        if x in front {
          var i :| 0 <= i < |t| && KeysOf(t)[i] == x;
          assert KeysOf(r)[i] == x;
        }
        if x == c && c in KeysOf(t) {
          var i :| 0 <= i < |t| && KeysOf(t)[i] == x;
          assert KeysOf(r)[i] == x;
        }
        if x == c && c !in KeysOf(t) {
          assert KeysOf(r)[|t|] == x;
        }
      }
      forall i | 0 <= i < |r| ensures r[i].1 == CountChar(hand, r[i].0) {
        if i >= |t| {
          CountCharZero(front, c);
        }
      }
    }
  }

  function Values(t: Tally): (r: seq<nat>)
    ensures |r| == |t| && forall i :: 0 <= i < |t| ==> r[i] == t[i].1
  {
    seq(|t|, i requires 0 <= i < |t| => t[i].1)
  }

  function Sum(s: seq<nat>): nat
  {
    if s == [] then 0 else s[0] + Sum(s[1..])
  }

  lemma {:induction false} SumUpdate(s: seq<nat>, i: nat, v: nat)
    requires i < |s|
    ensures Sum(s[i := v]) + s[i] == Sum(s) + v
  {
    if i > 0 {
      SumUpdate(s[1..], i - 1, v);
      assert s[i := v][1..] == s[1..][i - 1 := v];
    }
  }

  lemma {:induction false} SumAppend(s: seq<nat>, x: nat)
    ensures Sum(s + [x]) == Sum(s) + x
  {
    if s != [] {
      SumAppend(s[1..], x);
      assert (s + [x])[1..] == s[1..] + [x];
    }
  }

  lemma BumpSum(t: Tally, c: char)
    ensures Sum(Values(Bump(t, c))) == Sum(Values(t)) + 1
    ensures (forall i :: 0 <= i < |t| ==> t[i].1 >= 1) ==> forall i :: 0 <= i < |Bump(t, c)| ==> Bump(t, c)[i].1 >= 1
  {
    match IndexOf(KeysOf(t), c)
    case None =>
      assert Values(Bump(t, c)) == Values(t) + [1];
      SumAppend(Values(t), 1);
    case Some(i) =>
      assert Values(Bump(t, c)) == Values(t)[i := t[i].1 + 1];
      SumUpdate(Values(t), i, t[i].1 + 1);
  }

  /** The counts add up to the number of cards, and no count is zero. */
  lemma {:induction false} TallySum(hand: string)
    ensures Sum(Values(TallyOf(hand))) == |hand|
    ensures forall i :: 0 <= i < |TallyOf(hand)| ==> TallyOf(hand)[i].1 >= 1
  {
    if hand != [] {
      TallySum(hand[..|hand| - 1]);
      BumpSum(TallyOf(hand[..|hand| - 1]), hand[|hand| - 1]);
    }
  }

  // ---------------------------------------------------------------------------------------
  // Sorting the counts, largest first

  predicate Descending(s: seq<nat>)
  {
    forall i, j :: 0 <= i < j < |s| ==> s[i] >= s[j]
  }

  function InsertDesc(x: nat, s: seq<nat>): seq<nat>
  {
    if s == [] || x >= s[0] then [x] + s else [s[0]] + InsertDesc(x, s[1..])
  }

  /** Inserting into a descending run keeps it descending. */
  lemma {:induction false} InsertDescOrdered(x: nat, s: seq<nat>)
    requires Descending(s)
    ensures |InsertDesc(x, s)| == |s| + 1
    ensures InsertDesc(x, s)[0] == x || (s != [] && InsertDesc(x, s)[0] == s[0])
    ensures Descending(InsertDesc(x, s))
  {
    if s != [] && x < s[0] {
      var rest := InsertDesc(x, s[1..]);
      InsertDescOrdered(x, s[1..]);
      assert rest[0] <= s[0];
      assert forall i :: 0 < i < |rest| ==> rest[i] <= rest[0];
    }
  }

  /** Inserting adds exactly x, to the elements and to the total. */
  lemma {:induction false} InsertDescCount(x: nat, s: seq<nat>)
    ensures multiset(InsertDesc(x, s)) == multiset(s) + multiset{x}
    ensures Sum(InsertDesc(x, s)) == Sum(s) + x
  {
    if s != [] && x < s[0] {
      var rest := InsertDesc(x, s[1..]);
      InsertDescCount(x, s[1..]);
      assert s == [s[0]] + s[1..];
      assert ([s[0]] + rest)[1..] == rest;
    }
  }

  /** `sorted(values, reverse=True)`. */
  function SortDesc(s: seq<nat>): seq<nat>
  {
    if s == [] then [] else InsertDesc(s[0], SortDesc(s[1..]))
  }

  /** Sorting gives a descending permutation with the same total. */
  lemma {:induction false} SortDescFacts(s: seq<nat>)
    ensures Descending(SortDesc(s)) && multiset(SortDesc(s)) == multiset(s)
    ensures Sum(SortDesc(s)) == Sum(s)
  {
    if s != [] {
      SortDescFacts(s[1..]);
      InsertDescOrdered(s[0], SortDesc(s[1..]));
      InsertDescCount(s[0], SortDesc(s[1..]));
      assert s == [s[0]] + s[1..];
    }
  }

  /** The sorted card counts of a hand. */
  function Shape(hand: string): seq<nat>
  {
    SortDesc(Values(TallyOf(hand)))
  }

  /** The type value of a shape, or None for a shape `type_strength` rejects. */
  function Classify(values: seq<nat>): Option<nat>
  {
    if values == [5] then Some(50)
    else if values == [4, 1] then Some(41)
    else if values == [3, 2] then Some(32)
    else if values == [3, 1, 1] then Some(31)
    else if values == [2, 2, 1] then Some(22)
    else if values == [2, 1, 1, 1] then Some(21)
    else if values == [1, 1, 1, 1, 1] then Some(11)
    else None
  }

  /** The type of a hand: five of a kind 50 down to high card 11. */
  function TypeOf(hand: string): Option<nat>
  {
    Classify(Shape(hand))
  }

  /** `type_strength`: count the cards into a dictionary, then classify the sorted counts. */
  method TypeStrength(hand: string) returns (r: Option<nat>)
    ensures r == TypeOf(hand)
  {
    var counts: Tally := [];
    for i := 0 to |hand|
      invariant counts == TallyOf(hand[..i])
    {
      assert hand[..i + 1][..i] == hand[..i];
      counts := Bump(counts, hand[i]);
    }
    assert hand[..|hand|] == hand;
    r := Classify(SortDesc(Values(counts)));
  }

  lemma {:induction false} SumLength(s: seq<nat>)
    requires forall i :: 0 <= i < |s| ==> s[i] >= 1
    ensures Sum(s) >= |s|
  {
    if s != [] {
      SumLength(s[1..]);
    }
  }

  /** The sum of a suffix: its first element plus the sum of the rest. */
  lemma SumFrom(v: seq<nat>, k: nat)
    requires k < |v|
    ensures Sum(v[k..]) == v[k] + Sum(v[k + 1..])
  {
    assert v[k..][1..] == v[k + 1..];
  }

  /** The sum of a run of up to five numbers, written out. */
  lemma SumShort(v: seq<nat>)
    requires 1 <= |v| <= 5
    ensures |v| == 1 ==> Sum(v) == v[0]
    ensures |v| == 2 ==> Sum(v) == v[0] + v[1]
    ensures |v| == 3 ==> Sum(v) == v[0] + v[1] + v[2]
    ensures |v| == 4 ==> Sum(v) == v[0] + v[1] + v[2] + v[3]
    ensures |v| == 5 ==> Sum(v) == v[0] + v[1] + v[2] + v[3] + v[4]
  {
    SumFrom(v, 0);
    if |v| >= 2 { SumFrom(v, 1); }
    if |v| >= 3 { SumFrom(v, 2); }
    if |v| >= 4 { SumFrom(v, 3); }
    if |v| >= 5 { SumFrom(v, 4); }
    assert v[|v|..] == [];
    assert v[0..] == v;
  }

  /** The seven classified shapes are all the partitions of 5. */
  lemma PartitionsOfFive(v: seq<nat>)
    requires Descending(v) && Sum(v) == 5
    requires forall i :: 0 <= i < |v| ==> v[i] >= 1
    ensures Classify(v).Some?
  {
    SumLength(v);
    SumShort(v);
    if |v| >= 2 {
      assert v[0] >= v[1];
    }
    if |v| >= 3 {
      assert v[1] >= v[2];
    }
    if |v| >= 4 {
      assert v[2] >= v[3];
    }
    PartitionCases(v);
  }

  lemma PartitionCases(v: seq<nat>)
    requires 1 <= |v| <= 5 && forall i :: 0 <= i < |v| ==> v[i] >= 1
    requires |v| == 1 ==> v[0] == 5
    requires |v| == 2 ==> v[0] >= v[1] && v[0] + v[1] == 5
    requires |v| == 3 ==> v[0] >= v[1] >= v[2] && v[0] + v[1] + v[2] == 5
    requires |v| == 4 ==> v[0] >= v[1] >= v[2] >= v[3] && v[0] + v[1] + v[2] + v[3] == 5
    requires |v| == 5 ==> v[0] + v[1] + v[2] + v[3] + v[4] == 5
    ensures Classify(v).Some?
  {
    if |v| == 1 {
      assert v == [5];
    } else if |v| == 2 {
      if v[0] == 4 { assert v == [4, 1]; } else { assert v == [3, 2]; }
    } else if |v| == 3 {
      if v[0] == 3 { assert v == [3, 1, 1]; } else { assert v == [2, 2, 1]; }
    } else if |v| == 4 {
      assert v == [2, 1, 1, 1];
    } else {
      assert v == [1, 1, 1, 1, 1];
    }
  }

  /** Every classified shape adds up to 5. */
  lemma ClassifiedFive(v: seq<nat>)
    requires Classify(v).Some?
    ensures Sum(v) == 5
  {
    SumShort(v);
  }

  /** Every classified shape has five cards, and every five-card hand has a type. */
  lemma TypeDefined(hand: string)
    ensures TypeOf(hand).Some? <==> |hand| == 5
  {
    var t := Values(TallyOf(hand));
    TallySum(hand);
    var v := SortDesc(t);
    SortDescFacts(t);
    if |hand| == 5 {
      forall i | 0 <= i < |v| ensures v[i] >= 1 {
        assert v[i] in multiset(v);
        assert v[i] in t;
      }
      PartitionsOfFive(v);
    }
    if Classify(v).Some? {
      ClassifiedFive(v);
    }
  }

  // ---------------------------------------------------------------------------------------
  // Card values

  function Pow13(n: nat): (r: nat)
    ensures r >= 1
  {
    if n == 0 then 1 else 13 * Pow13(n - 1)
  }

  /**
   * `sum(rank[c] * 13 ** i for i, c in enumerate(reversed(hand)))`: the base-13 numeral of
   * the card ranks, first card most significant; None for a card outside `ranks`.
   */
  function Numeral(ranks: string, hand: string): (r: Option<nat>)
    requires |ranks| == 13
    ensures r.Some? <==> forall k :: 0 <= k < |hand| ==> hand[k] in ranks
    ensures r.Some? ==> r.value < Pow13(|hand|)
  {
    if hand == [] then Some(0)
    else
      var front := Numeral(ranks, hand[..|hand| - 1]);
      var d := IndexOf(ranks, hand[|hand| - 1]);
      assert forall k :: 0 <= k < |hand| - 1 ==> hand[..|hand| - 1][k] == hand[k];
      if front.None? || d.None? then None else Some(front.value * 13 + d.value)
  }

  /** Equal values of equally long hands mean equal hands. */
  lemma {:induction false} NumeralInjective(ranks: string, a: string, b: string)
    requires |ranks| == 13 && |a| == |b|
    requires Numeral(ranks, a).Some? && Numeral(ranks, b).Some?
    requires Numeral(ranks, a).value == Numeral(ranks, b).value
    ensures a == b
  {
    if a != [] {
      var n := |a|;
      var fa := Numeral(ranks, a[..n - 1]).value;
      var fb := Numeral(ranks, b[..n - 1]).value;
      var da := IndexOf(ranks, a[n - 1]).value;
      var db := IndexOf(ranks, b[n - 1]).value;
      assert fa * 13 + da == fb * 13 + db;
      assert fa == (fa * 13 + da) / 13 && fb == (fb * 13 + db) / 13;
      NumeralInjective(ranks, a[..n - 1], b[..n - 1]);
      assert a == a[..n - 1] + [a[n - 1]];
      assert b == b[..n - 1] + [b[n - 1]];
    }
  }

  function CardStrength(hand: string): Option<nat> { Numeral(Cards, hand) }

  function JCardStrength(hand: string): Option<nat> { Numeral(JCards, hand) }

  /** The joker ranks put J below every other card. */
  lemma JokerWeakest(c: char)
    requires c in JCards && c != 'J'
    ensures IndexOf(JCards, 'J') == Some(0) && IndexOf(JCards, c).value > 0
  {
  }

  /** `hand_strength`: the type outweighs every card value. */
  function HandStrength(hand: string): Option<nat>
  {
    var t := TypeOf(hand);
    var c := CardStrength(hand);
    if t.None? || c.None? then None else Some(t.value * TypeWeight + c.value)
  }

  /** Between five-card hands, a higher type always outranks a lower one. */
  lemma TypeOutranks(a: string, b: string)
    requires |a| == 5 && |b| == 5
    requires HandStrength(a).Some? && HandStrength(b).Some?
    requires TypeOf(a).value > TypeOf(b).value
    ensures HandStrength(a).value > HandStrength(b).value
  {
    assert Pow13(5) == TypeWeight;
  }

  /** No two different five-card hands have the same strength. */
  lemma HandStrengthInjective(a: string, b: string)
    requires |a| == 5 && |b| == 5
    requires HandStrength(a).Some? && HandStrength(b).Some?
    requires HandStrength(a).value == HandStrength(b).value
    ensures a == b
  {
    assert Pow13(5) == TypeWeight;
    WeightedUnique(TypeOf(a).value, CardStrength(a).value, TypeOf(b).value, CardStrength(b).value);
    NumeralInjective(Cards, a, b);
  }

  lemma WeightedUnique(ta: nat, ca: nat, tb: nat, cb: nat)
    requires ca < TypeWeight && cb < TypeWeight && ta * TypeWeight + ca == tb * TypeWeight + cb
    ensures ca == cb
  {
    assert ta == (ta * TypeWeight + ca) / TypeWeight && tb == (tb * TypeWeight + cb) / TypeWeight;
  }

  // ---------------------------------------------------------------------------------------
  // Jokers

  /**
   * The index of the first non-J entry with the largest count (`max` keeps the first of equal
   * maxima), or None when every entry is J.
   */
  function BestIndex(t: Tally): (r: Option<nat>)
    ensures r.None? <==> forall k :: 0 <= k < |t| ==> t[k].0 == 'J'
    ensures r.Some? ==> r.value < |t| && t[r.value].0 != 'J'
    ensures r.Some? ==> forall k :: 0 <= k < |t| && t[k].0 != 'J' ==> t[k].1 <= t[r.value].1
    ensures r.Some? ==> forall k :: 0 <= k < r.value && t[k].0 != 'J' ==> t[k].1 < t[r.value].1
  {
    if t == [] then None
    else
      var b := BestIndex(t[..|t| - 1]);
      var n := |t| - 1;
      assert forall k :: 0 <= k < n ==> t[..n][k] == t[k];
      if t[n].0 == 'J' then b
      else if b.None? || t[n].1 > t[b.value].1 then Some(n)
      else b
  }

  /** The card the jokers stand for: the most frequent other card, or J itself. */
  function JokerFor(hand: string): char
  {
    match BestIndex(TallyOf(hand))
    case None => 'J'
    case Some(i) => TallyOf(hand)[i].0
  }

  /** `hand.replace("J", c)`. */
  function ReplaceJ(hand: string, c: char): (r: string)
    ensures |r| == |hand|
    ensures forall k :: 0 <= k < |hand| ==> r[k] == if hand[k] == 'J' then c else hand[k]
  {
    seq(|hand|, k requires 0 <= k < |hand| => if hand[k] == 'J' then c else hand[k])
  }

  /** `jtype_strength`. */
  function JTypeOf(hand: string): Option<nat>
  {
    TypeOf(ReplaceJ(hand, JokerFor(hand)))
  }

  /**
   * A hand of jokers only stays as it is. Otherwise every J becomes a card of the hand other
   * than J that occurs at least as often as any other such card, and more often than every
   * such card seen before it.
   */
  lemma JokerChoice(hand: string)
    ensures (forall k :: 0 <= k < |hand| ==> hand[k] == 'J') ==> ReplaceJ(hand, JokerFor(hand)) == hand
    ensures (exists k :: 0 <= k < |hand| && hand[k] != 'J') ==>
      var c := JokerFor(hand);
      && c != 'J' && c in hand
      && (forall k :: 0 <= k < |hand| && hand[k] != 'J' ==> CountChar(hand, hand[k]) <= CountChar(hand, c))
      && (forall k ::
            (0 <= k < |hand| && hand[k] != 'J' && hand[k] != c && CountChar(hand, hand[k]) == CountChar(hand, c))
            ==> c in hand[..k])
  {
    TallyCounts(hand);
    if forall k :: 0 <= k < |hand| ==> hand[k] == 'J' {
      OnlyJokers(hand);
    } else {
      var k0 :| 0 <= k0 < |hand| && hand[k0] != 'J';
      JokerMostFrequent(hand, k0);
    }
  }

  lemma OnlyJokers(hand: string)
    requires forall k :: 0 <= k < |hand| ==> hand[k] == 'J'
    requires forall x :: x in KeysOf(TallyOf(hand)) <==> x in hand
    ensures JokerFor(hand) == 'J'
  {
    var t := TallyOf(hand);
    forall k | 0 <= k < |t| ensures t[k].0 == 'J' {
      assert KeysOf(t)[k] == t[k].0;
      assert t[k].0 in hand;
    }
  }

  lemma JokerMostFrequent(hand: string, k0: nat)
    requires k0 < |hand| && hand[k0] != 'J'
    requires DistinctKeys(TallyOf(hand))
    requires forall x :: x in KeysOf(TallyOf(hand)) <==> x in hand
    requires forall i :: 0 <= i < |TallyOf(hand)| ==> TallyOf(hand)[i].1 == CountChar(hand, TallyOf(hand)[i].0)
    ensures BestIndex(TallyOf(hand)).Some?
    ensures var c := JokerFor(hand);
      && c != 'J' && c in hand
      && (forall k :: 0 <= k < |hand| && hand[k] != 'J' ==> CountChar(hand, hand[k]) <= CountChar(hand, c))
      && (forall k ::
            (0 <= k < |hand| && hand[k] != 'J' && hand[k] != c && CountChar(hand, hand[k]) == CountChar(hand, c))
            ==> c in hand[..k])
  {
    var t := TallyOf(hand);
    assert hand[k0] in KeysOf(t);
    var i :| 0 <= i < |t| && KeysOf(t)[i] == hand[k0];
    assert t[i].0 != 'J';
    var b := BestIndex(t).value;
    var c := t[b].0;
    assert KeysOf(t)[b] == c;
    forall k | 0 <= k < |hand| && hand[k] != 'J'
      ensures CountChar(hand, hand[k]) <= CountChar(hand, c)
    {
      assert hand[k] in KeysOf(t);
      var j :| 0 <= j < |t| && KeysOf(t)[j] == hand[k];
    }
    forall k | 0 <= k < |hand| && hand[k] != 'J' && hand[k] != c && CountChar(hand, hand[k]) == CountChar(hand, c)
      ensures c in hand[..k]
    {
      assert hand[k] in KeysOf(t);
      var j :| 0 <= j < |t| && KeysOf(t)[j] == hand[k];
      assert j != b;
      assert j > b;
      FirstAppearance(hand, b, j);
    }
  }

  /** Earlier dictionary keys appear earlier in the hand. */
  lemma {:induction false} FirstAppearance(hand: string, b: nat, j: nat)
    requires b < j < |TallyOf(hand)|
    ensures forall k :: 0 <= k < |hand| && hand[k] == TallyOf(hand)[j].0 ==> TallyOf(hand)[b].0 in hand[..k]
  {
    var front := hand[..|hand| - 1];
    var c := hand[|hand| - 1];
    var t := TallyOf(front);
    var r := TallyOf(hand);
    TallyCounts(front);
    BumpKeys(t, c);
    assert hand == front + [c];
    assert KeysOf(t)[b] == t[b].0;
    forall k | 0 <= k < |hand| && hand[k] == r[j].0
      ensures r[b].0 in hand[..k]
    {
      if j < |t| {
        if k < |front| {
          FirstAppearance(front, b, j);
          assert front[..k] == hand[..k];
        } else {
          assert hand[..k] == front;
        }
      } else {
        assert c !in front;
        assert k >= |front| by {
          assert forall m :: 0 <= m < |front| ==> front[m] != c;
        }
        assert hand[..k] == front;
      }
    }
  }

  /** `jtype_strength`, calling `type_strength` on the hand with its jokers replaced. */
  method JTypeStrength(hand: string) returns (r: Option<nat>)
    ensures r == JTypeOf(hand)
  {
    r := TypeStrength(ReplaceJ(hand, JokerFor(hand)));
  }

  /** `jhand_strength`. */
  function JHandStrength(hand: string): Option<nat>
  {
    var t := JTypeOf(hand);
    var c := JCardStrength(hand);
    if t.None? || c.None? then None else Some(t.value * TypeWeight + c.value)
  }

  /** Jokers keep a hand's length, so every five-card hand of known cards has a joker strength. */
  lemma JHandDefined(hand: string)
    requires |hand| == 5 && forall k :: 0 <= k < 5 ==> hand[k] in JCards
    ensures JHandStrength(hand).Some?
  {
    TypeDefined(ReplaceJ(hand, JokerFor(hand)));
  }

  // ---------------------------------------------------------------------------------------
  // Winnings

  /** A hand's strength paired with its bid. */
  type Entry = (nat, int)

  function Strength(hand: string, jokers: bool): Option<nat>
  {
    if jokers then JHandStrength(hand) else HandStrength(hand)
  }

  /** The sort keys of all hands, or None when some hand has no strength (it raises). */
  function Keyed(hands: seq<(string, int)>, jokers: bool): Option<seq<Entry>>
  {
    if forall i :: 0 <= i < |hands| ==> Strength(hands[i].0, jokers).Some? then
      Some(seq(|hands|, i requires 0 <= i < |hands| && Strength(hands[i].0, jokers).Some? =>
        (Strength(hands[i].0, jokers).value, hands[i].1)))
    else None
  }

  predicate Ascending(s: seq<Entry>)
  {
    forall i, j :: 0 <= i < j < |s| ==> s[i].0 <= s[j].0
  }

  /** Insert after every entry of no greater strength, as a stable sort does. */
  function InsertEntry(s: seq<Entry>, x: Entry): seq<Entry>
  {
    if s == [] || s[|s| - 1].0 <= x.0 then s + [x]
    else InsertEntry(s[..|s| - 1], x) + [s[|s| - 1]]
  }

  lemma {:induction false} InsertEntryOrdered(s: seq<Entry>, x: Entry)
    requires Ascending(s)
    ensures |InsertEntry(s, x)| == |s| + 1
    ensures InsertEntry(s, x)[|s|] == x || (s != [] && InsertEntry(s, x)[|s|] == s[|s| - 1])
    ensures Ascending(InsertEntry(s, x))
  {
    if s != [] && s[|s| - 1].0 > x.0 {
      var n := |s| - 1;
      var rest := InsertEntry(s[..n], x);
      PrefixOrdered(s, n);
      InsertEntryOrdered(s[..n], x);
      assert rest[n].0 <= s[n].0;
      assert forall i :: 0 <= i < n ==> rest[i].0 <= rest[n].0;
    }
  }

  lemma {:induction false} InsertEntryCount(s: seq<Entry>, x: Entry)
    ensures multiset(InsertEntry(s, x)) == multiset(s) + multiset{x}
  {
    if s != [] && s[|s| - 1].0 > x.0 {
      var n := |s| - 1;
      InsertEntryCount(s[..n], x);
      assert s == s[..n] + [s[n]];
    }
  }

  /** `sorted(hands, key=strength)`. */
  function SortByStrength(s: seq<Entry>): seq<Entry>
  {
    if s == [] then [] else InsertEntry(SortByStrength(s[..|s| - 1]), s[|s| - 1])
  }

  /** Sorting gives an ascending permutation that keeps hands of equal strength in their order. */
  lemma {:induction false} SortByStrengthFacts(s: seq<Entry>)
    ensures Ascending(SortByStrength(s)) && multiset(SortByStrength(s)) == multiset(s)
    ensures KeepsTies(s, SortByStrength(s))
  {
    if s != [] {
      var n := |s| - 1;
      SortByStrengthFacts(s[..n]);
      InsertEntryOrdered(SortByStrength(s[..n]), s[n]);
      InsertEntryCount(SortByStrength(s[..n]), s[n]);
      assert s == s[..n] + [s[n]];
    }
    SortStable(s);
  }

  /** The entries of strength `v`, in the order they come in `s`. */
  function WithKey(s: seq<Entry>, v: nat): seq<Entry>
  {
    if s == [] then []
    else WithKey(s[..|s| - 1], v) + (if s[|s| - 1].0 == v then [s[|s| - 1]] else [])
  }

  /** `b` lists the entries of every strength in the order `a` lists them. */
  ghost predicate KeepsTies(a: seq<Entry>, b: seq<Entry>)
  {
    forall v :: WithKey(b, v) == WithKey(a, v)
  }

  /** Inserting `x` adds it after the entries of its own strength and leaves the others alone. */
  lemma {:induction false} InsertEntryWithKey(s: seq<Entry>, x: Entry, v: nat)
    ensures WithKey(InsertEntry(s, x), v) == WithKey(s, v) + (if x.0 == v then [x] else [])
  {
    var r := InsertEntry(s, x);
    if s == [] || s[|s| - 1].0 <= x.0 {
      assert r[..|r| - 1] == s;
    } else {
      var n := |s| - 1;
      InsertEntryWithKey(s[..n], x, v);
      assert r[..|r| - 1] == InsertEntry(s[..n], x);
    }
  }

  /** `sorted` is stable: the entries of each strength keep their input order. */
  lemma {:induction false} SortStable(s: seq<Entry>)
    ensures KeepsTies(s, SortByStrength(s))
  {
    if s != [] {
      var n := |s| - 1;
      SortStable(s[..n]);
      forall v: nat ensures WithKey(SortByStrength(s), v) == WithKey(s, v) {
        InsertEntryWithKey(SortByStrength(s[..n]), s[n], v);
      }
    }
  }

  lemma {:induction false} WithKeyFrom(s: seq<Entry>, v: nat)
    ensures forall e :: e in WithKey(s, v) ==> e in s && e.0 == v
  {
    if s != [] {
      WithKeyFrom(s[..|s| - 1], v);
      assert forall e :: e in s[..|s| - 1] ==> e in s;
    }
  }

  /**
   * An ascending order that keeps ties in a given order is unique: whatever order `sorted`
   * picks for each strength, the result is fixed once ties are kept.
   */
  lemma {:induction false} StableUnique(a: seq<Entry>, b: seq<Entry>)
    requires Ascending(a) && Ascending(b) && KeepsTies(a, b)
    ensures a == b
    decreases |a| + |b|
  {
    if a == [] || b == [] {
      EmptyTies(a, b);
    } else {
      var n, m := |a| - 1, |b| - 1;
      LastTie(a, b);
      OtherTies(a, b);
      PrefixOrdered(a, n);
      PrefixOrdered(b, m);
      StableUnique(a[..n], b[..m]);
      assert a == a[..n] + [a[n]] && b == b[..m] + [b[m]];
    }
  }

  /** Two ascending orders that keep the same ties end with the same entry. */
  lemma LastTie(a: seq<Entry>, b: seq<Entry>)
    requires Ascending(a) && Ascending(b) && a != [] && b != []
    requires KeepsTies(a, b)
    ensures a[|a| - 1] == b[|b| - 1]
    ensures WithKey(a[..|a| - 1], a[|a| - 1].0) == WithKey(b[..|b| - 1], a[|a| - 1].0)
  {
    var n, m := |a| - 1, |b| - 1;
    var x, y := a[n], b[m];
    LastsAgree(a, b);
    LastsAgree(b, a);
    assert WithKey(a, x.0) == WithKey(a[..n], x.0) + [x];
    assert WithKey(b, x.0) == WithKey(b[..m], x.0) + [y];
    SnocInjective(WithKey(a[..n], x.0), x, WithKey(b[..m], x.0), y);
  }

  /** With the last entries equal and dropped, the ties of every strength still agree. */
  lemma OtherTies(a: seq<Entry>, b: seq<Entry>)
    requires a != [] && b != [] && a[|a| - 1] == b[|b| - 1]
    requires KeepsTies(a, b)
    requires WithKey(a[..|a| - 1], a[|a| - 1].0) == WithKey(b[..|b| - 1], a[|a| - 1].0)
    ensures KeepsTies(a[..|a| - 1], b[..|b| - 1])
  {
    var a', b' := a[..|a| - 1], b[..|b| - 1];
    forall v ensures WithKey(b', v) == WithKey(a', v) {
      if v != a[|a| - 1].0 {
        assert WithKey(a, v) == WithKey(a', v);
        assert WithKey(b, v) == WithKey(b', v);
      }
    }
  }

  lemma SnocInjective<T>(p: seq<T>, x: T, q: seq<T>, y: T)
    requires p + [x] == q + [y]
    ensures p == q && x == y
  {
    assert p == (p + [x])[..|p|];
    assert q == (q + [y])[..|q|];
  }

  /** Only no entries keep the ties of no entries. */
  lemma EmptyTies(a: seq<Entry>, b: seq<Entry>)
    requires KeepsTies(a, b)
    ensures a == [] <==> b == []
  {
    if a != [] {
      assert WithKey(a, a[|a| - 1].0) != [];
    }
    if b != [] {
      assert WithKey(b, b[|b| - 1].0) != [];
    }
  }

  /** The last entry of an ascending `a` is no weaker than the last of `b` when they keep the same ties. */
  lemma LastsAgree(a: seq<Entry>, b: seq<Entry>)
    requires Ascending(a) && a != [] && b != [] && KeepsTies(a, b)
    ensures b[|b| - 1].0 <= a[|a| - 1].0
  {
    var y := b[|b| - 1];
    assert y in WithKey(b, y.0);
    WithKeyFrom(a, y.0);
    assert y in a;
  }

  /** Each bid times its rank, rank 1 first. */
  function RankedSum(s: seq<Entry>): int
  {
    if s == [] then 0 else RankedSum(s[..|s| - 1]) + |s| * s[|s| - 1].1
  }

  /**
   * `calc_winnings` (or `calc_jwinnings` with jokers): the ranked bid sum over the hands in
   * ascending order of strength; None when some hand raises.
   */
  function Winnings(hands: seq<(string, int)>, jokers: bool): (r: Option<int>)
    ensures r.Some? <==> forall i :: 0 <= i < |hands| ==> Strength(hands[i].0, jokers).Some?
    ensures r.Some? ==> exists order ::
      (Ascending(order) && multiset(order) == multiset(Keyed(hands, jokers).value) && r.value == RankedSum(order))
    ensures r.Some? ==> exists order ::
      (Ascending(order) && KeepsTies(Keyed(hands, jokers).value, order) && r.value == RankedSum(order))
  {
    match Keyed(hands, jokers)
    case None => None
    case Some(keys) => SortByStrengthFacts(keys); Some(RankedSum(SortByStrength(keys)))
  }

  /**
   * Hands of equal strength are ranked in input order, as the stable `sorted` ranks them: the
   * winnings are the ranked sum of the one ascending order that keeps ties in input order.
   */
  lemma WinningsStable(hands: seq<(string, int)>, jokers: bool, order: seq<Entry>)
    requires Winnings(hands, jokers).Some?
    requires Ascending(order) && KeepsTies(Keyed(hands, jokers).value, order)
    ensures Winnings(hands, jokers).value == RankedSum(order)
  {
    var keys := Keyed(hands, jokers).value;
    SortByStrengthFacts(keys);
    StableUnique(SortByStrength(keys), order);
  }

  /** Two hands of equal strength bidding 5 and then 7 rank 1 and 2: 1 * 5 + 2 * 7. */
  lemma TiedBids(v: nat)
    ensures RankedSum(SortByStrength([(v, 5), (v, 7)])) == 19
  {
    var s := [(v, 5), (v, 7)];
    assert s[..1] == [(v, 5)] && [(v, 5)][..0] == [];
    assert SortByStrength([(v, 5)]) == InsertEntry([], (v, 5)) == [(v, 5)];
    assert SortByStrength(s) == InsertEntry([(v, 5)], (v, 7)) == s;
    assert RankedSum(s) == RankedSum(s[..1]) + 2 * 7;
    assert RankedSum([(v, 5)]) == RankedSum([(v, 5)][..0]) + 5;
  }

  predicate StrictlyAscending(s: seq<Entry>)
  {
    forall i, j :: 0 <= i < j < |s| ==> s[i].0 < s[j].0
  }

  /** An ascending order of entries with distinct strengths is unique. */
  lemma {:induction false} AscendingUnique(a: seq<Entry>, b: seq<Entry>)
    requires StrictlyAscending(a) && Ascending(b) && multiset(a) == multiset(b)
    ensures a == b
    decreases |a|
  {
    SameLength(a, b);
    if a != [] {
      var n := |a| - 1;
      LastsEqual(a, b);
      Drop(a, b);
      AscendingUnique(a[..n], b[..n]);
      LastSplit(a);
      LastSplit(b);
    }
  }

  lemma SameLength(a: seq<Entry>, b: seq<Entry>)
    requires multiset(a) == multiset(b)
    ensures |a| == |b|
  {
    assert |a| == |multiset(a)| == |multiset(b)| == |b|;
  }

  lemma LastsEqual(a: seq<Entry>, b: seq<Entry>)
    requires StrictlyAscending(a) && Ascending(b) && multiset(a) == multiset(b)
    requires a != [] && |a| == |b|
    ensures a[|a| - 1] == b[|b| - 1]
  {
    var n := |a| - 1;
    var x := a[n];
    var y := b[n];
    assert x in multiset(b) by { assert x in multiset(a); }
    assert y in multiset(a) by { assert y in multiset(b); }
    NoneAbove(b, x);
    LastIsLargest(a, y);
  }

  lemma Drop(a: seq<Entry>, b: seq<Entry>)
    requires StrictlyAscending(a) && Ascending(b) && multiset(a) == multiset(b)
    requires a != [] && |a| == |b| && a[|a| - 1] == b[|b| - 1]
    ensures StrictlyAscending(a[..|a| - 1]) && Ascending(b[..|b| - 1])
    ensures multiset(a[..|a| - 1]) == multiset(b[..|b| - 1])
  {
    LastSplit(a);
    LastSplit(b);
    var x := a[|a| - 1];
    assert multiset(a[..|a| - 1]) == multiset(a) - multiset{x};
    assert multiset(b[..|b| - 1]) == multiset(b) - multiset{x};
    PrefixOrdered(a, |a| - 1);
    PrefixOrdered(b, |b| - 1);
  }

  lemma PrefixOrdered(s: seq<Entry>, n: nat)
    requires n <= |s|
    ensures StrictlyAscending(s) ==> StrictlyAscending(s[..n])
    ensures Ascending(s) ==> Ascending(s[..n])
  {
    assert forall i :: 0 <= i < n ==> s[..n][i] == s[i];
  }

  lemma LastSplit(s: seq<Entry>)
    requires s != []
    ensures s == s[..|s| - 1] + [s[|s| - 1]]
    ensures multiset(s) == multiset(s[..|s| - 1]) + multiset{s[|s| - 1]}
  {
    assert s == s[..|s| - 1] + [s[|s| - 1]];
  }

  lemma NoneAbove(b: seq<Entry>, e: Entry)
    requires Ascending(b) && e in b
    ensures e.0 <= b[|b| - 1].0
  {
  }

  lemma LastIsLargest(a: seq<Entry>, e: Entry)
    requires StrictlyAscending(a) && e in a && e.0 >= a[|a| - 1].0
    ensures e == a[|a| - 1]
  {
    var i :| 0 <= i < |a| && a[i] == e;
    assert !(i < |a| - 1 && a[i].0 < a[|a| - 1].0);
  }

  /**
   * When no two hands tie, the winnings do not depend on the order the hands are listed in.
   */
  lemma WinningsOrderFree(hands: seq<(string, int)>, other: seq<(string, int)>, jokers: bool)
    requires Keyed(hands, jokers).Some? && Keyed(other, jokers).Some?
    requires multiset(Keyed(hands, jokers).value) == multiset(Keyed(other, jokers).value)
    requires StrictlyAscending(SortByStrength(Keyed(hands, jokers).value))
    ensures Winnings(hands, jokers) == Winnings(other, jokers)
  {
    SortByStrengthFacts(Keyed(hands, jokers).value);
    SortByStrengthFacts(Keyed(other, jokers).value);
    AscendingUnique(SortByStrength(Keyed(hands, jokers).value), SortByStrength(Keyed(other, jokers).value));
  }
}
