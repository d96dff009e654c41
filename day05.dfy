/**
 * Seed-to-location remapping (day05): closed integer intervals pushed through a chain of
 * named stages, each stage holding affine rules (dest, src, length).
 */
module Almanac {
  import opened Wrappers

  /** A closed range `[lo, hi]` of integers, the source's `(lo, hi)` tuple. */
  datatype Interval = Interval(lo: int, hi: int)

  /** One remapping rule: `[src, src+length-1]` is moved to start at `dest`. */
  datatype Rule = Rule(dest: int, src: int, length: int)

  /** A pending job of the worklist: an interval waiting at a named stage. */
  datatype Job = Job(stage: string, interval: Interval)

  datatype AlmanacError =
    | UnknownStage(name: string)  // `src_to_dest_name[src_name]` raised KeyError
    | MissingRules(name: string)  // `src_to_ranges[src_name]` raised KeyError
    | NoSeeds                     // `min` of an empty sequence
    | OutOfFuel                   // the model's bound on worklist iterations was reached

  predicate WellFormed(a: Interval) { a.lo <= a.hi }

  predicate Contains(a: Interval, x: int) { a.lo <= x <= a.hi }

  predicate Within(b: Interval, a: Interval) { a.lo <= b.lo && b.hi <= a.hi }

  /** The number of integers in `a`. */
  function Count(a: Interval): nat { if a.lo <= a.hi then a.hi - a.lo + 1 else 0 }

  function TotalCount(s: seq<Interval>): nat
  {
    if s == [] then 0 else TotalCount(s[..|s| - 1]) + Count(s[|s| - 1])
  }

  /** How many of the intervals of `s` contain `x`. */
  function Occurrences(s: seq<Interval>, x: int): nat
  {
    if s == [] then 0 else Occurrences(s[..|s| - 1], x) + (if Contains(s[|s| - 1], x) then 1 else 0)
  }

  function Indicator(a: Interval, x: int): nat { if Contains(a, x) then 1 else 0 }

  function Min(x: int, y: int): int { if x <= y then x else y }
  function Max(x: int, y: int): int { if x <= y then y else x }

  /** The second and third of the four endpoints once sorted: `sorted(a + b)[1:3]`. */
  function SortedMiddle(a: Interval, b: Interval): Interval
  {
    var p, bigP := Min(a.lo, a.hi), Max(a.lo, a.hi);
    var q, bigQ := Min(b.lo, b.hi), Max(b.lo, b.hi);
    Interval(Min(Max(p, q), Min(bigP, bigQ)), Max(Min(bigP, bigQ), Max(p, q)))
  }

  /** How many of `p, bigP, q, bigQ` equal `v`. */
  function Tally(p: int, bigP: int, q: int, bigQ: int, v: int): nat
  {
    (if p == v then 1 else 0) + (if bigP == v then 1 else 0) + (if q == v then 1 else 0) + (if bigQ == v then 1 else 0)
  }

  /** `w, x, y, z` are the four values `p, bigP, q, bigQ` in ascending order. */
  ghost predicate IsSortedOf(p: int, bigP: int, q: int, bigQ: int, w: int, x: int, y: int, z: int)
  {
    w <= x <= y <= z && forall v :: Tally(p, bigP, q, bigQ, v) == Tally(w, x, y, z, v)
  }

  /** `SortedMiddle` really is the middle of the sorted endpoints. */
  lemma SortedMiddleIsMiddle(a: Interval, b: Interval)
    ensures IsSortedOf(a.lo, a.hi, b.lo, b.hi, Min(Min(a.lo, a.hi), Min(b.lo, b.hi)), SortedMiddle(a, b).lo,
                       SortedMiddle(a, b).hi, Max(Max(a.lo, a.hi), Max(b.lo, b.hi)))
  {
    if a.lo <= a.hi {
      if b.lo <= b.hi {
        MiddleOfFour(a.lo, a.hi, b.lo, b.hi);
      } else {
        MiddleOfFour(a.lo, a.hi, b.hi, b.lo);
      }
    } else {
      if b.lo <= b.hi {
        MiddleOfFour(a.hi, a.lo, b.lo, b.hi);
      } else {
        MiddleOfFour(a.hi, a.lo, b.hi, b.lo);
      }
    }
  }

  lemma MiddleOfFour(p: int, bigP: int, q: int, bigQ: int)
    requires p <= bigP && q <= bigQ
    ensures IsSortedOf(p, bigP, q, bigQ, Min(p, q), Min(Max(p, q), Min(bigP, bigQ)), Max(Min(bigP, bigQ), Max(p, q)),
                       Max(bigP, bigQ))
  {
  }

  /** `intersect_intervals`: `None` when the intervals are apart, else the sorted middle. */
  function IntersectIntervals(a: Interval, b: Interval): (r: Option<Interval>)
    ensures r.None? <==> a.hi < b.lo || b.hi < a.lo
    ensures r.Some? ==> r.value == SortedMiddle(a, b)
    ensures WellFormed(a) && WellFormed(b) && r.Some? ==>
      r.value == Interval(Max(a.lo, b.lo), Min(a.hi, b.hi)) && WellFormed(r.value) &&
      Within(r.value, a) && Within(r.value, b)
    ensures WellFormed(a) && WellFormed(b) ==>
      forall x :: (Contains(a, x) && Contains(b, x)) <==> (r.Some? && Contains(r.value, x))
  {
    if a.hi < b.lo || b.hi < a.lo then None else Some(SortedMiddle(a, b))
  }

  /** `subtract_intervals`: what is left of `a` on either side of `b`, left piece first. */
  function SubtractIntervals(a: Interval, b: Interval): (r: seq<Interval>)
    ensures |r| <= 2
    ensures forall k :: 0 <= k < |r| ==> WellFormed(r[k])
    ensures forall k :: 0 <= k < |r| ==> r[k] == Interval(a.lo, b.lo - 1) || r[k] == Interval(b.hi + 1, a.hi)
    ensures |r| == 2 ==> r[0] == Interval(a.lo, b.lo - 1) && r[1] == Interval(b.hi + 1, a.hi)
    ensures a.lo <= b.lo - 1 <==> Interval(a.lo, b.lo - 1) in r
    ensures b.hi + 1 <= a.hi <==> Interval(b.hi + 1, a.hi) in r
  {
    var left := if a.lo <= b.lo - 1 then [Interval(a.lo, b.lo - 1)] else [];
    var right := if b.hi + 1 <= a.hi then [Interval(b.hi + 1, a.hi)] else [];
    left + right
  }

  /** `range_to_interval`: the `length` integers from `start` on. */
  function RangeToInterval(start: int, length: int): (r: Interval)
    ensures r.lo == start
    ensures forall x :: Contains(r, x) <==> start <= x < start + length
    ensures Count(r) == if length > 0 then length else 0
    ensures WellFormed(r) <==> length > 0
  {
    Interval(start, start + length - 1)
  }

  /** Adding `delta` to both endpoints, as `dest - src + x` does. */
  function Shift(a: Interval, delta: int): (r: Interval)
    ensures Count(r) == Count(a) && (WellFormed(r) <==> WellFormed(a))
    ensures forall x :: Contains(r, x + delta) <==> Contains(a, x)
  {
    Interval(a.lo + delta, a.hi + delta)
  }

  function Source(rule: Rule): Interval { RangeToInterval(rule.src, rule.length) }

  function Delta(rule: Rule): int { rule.dest - rule.src }

  predicate PositiveRules(rules: seq<Rule>) { forall k :: 0 <= k < |rules| ==> rules[k].length > 0 }

  /** The point-wise meaning of one stage: the first rule whose source holds `x` moves it. */
  function StagePoint(rules: seq<Rule>, x: int): int
  {
    if rules == [] then x
    else if Contains(Source(rules[0]), x) then x + Delta(rules[0])
    else StagePoint(rules[1..], x)
  }

  lemma {:induction false} StagePointAtRule(rules: seq<Rule>, t: nat, x: int)
    requires t < |rules| && Contains(Source(rules[t]), x)
    requires forall r :: 0 <= r < t ==> !Contains(Source(rules[r]), x)
    ensures StagePoint(rules, x) == x + Delta(rules[t])
  {
    if t > 0 {
      assert !Contains(Source(rules[0]), x);
      StagePointAtRule(rules[1..], t - 1, x);
    }
  }

  lemma {:induction false} StagePointUnmatched(rules: seq<Rule>, x: int)
    requires forall r :: 0 <= r < |rules| ==> !Contains(Source(rules[r]), x)
    ensures StagePoint(rules, x) == x
  {
    if rules != [] {
      assert !Contains(Source(rules[0]), x);
      StagePointUnmatched(rules[1..], x);
    }
  }

  lemma {:induction false} TotalCountConcat(a: seq<Interval>, b: seq<Interval>)
    ensures TotalCount(a + b) == TotalCount(a) + TotalCount(b)
  {
    if b != [] {
      assert (a + b)[..|a + b| - 1] == a + b[..|b| - 1];
      TotalCountConcat(a, b[..|b| - 1]);
    } else {
      assert a + b == a;
    }
  }

  lemma {:induction false} OccurrencesConcat(a: seq<Interval>, b: seq<Interval>, x: int)
    ensures Occurrences(a + b, x) == Occurrences(a, x) + Occurrences(b, x)
  {
    if b != [] {
      assert (a + b)[..|a + b| - 1] == a + b[..|b| - 1];
      OccurrencesConcat(a, b[..|b| - 1], x);
    } else {
      assert a + b == a;
    }
  }

  lemma OccurrencesSingle(a: Interval, x: int)
    ensures Occurrences([a], x) == Indicator(a, x)
  {
    assert [a][..0] == [];
  }

  lemma TotalCountSingle(a: Interval)
    ensures TotalCount([a]) == Count(a)
  {
    assert [a][..0] == [];
  }

  lemma OccurrencesPair(a: Interval, b: Interval, x: int)
    ensures Occurrences([a, b], x) == Indicator(a, x) + Indicator(b, x)
  {
    assert [a, b][..1] == [a];
    OccurrencesSingle(a, x);
  }

  lemma TotalCountPair(a: Interval, b: Interval)
    ensures TotalCount([a, b]) == Count(a) + Count(b)
  {
    assert [a, b][..1] == [a];
    TotalCountSingle(a);
  }

  /**
   * For `b` inside `a`, the pieces `subtract_intervals(a, b)` hold exactly the integers of `a`
   * that are not in `b`, each once, so their counts add up to that of `a`.
   */
  lemma SubtractComplements(a: Interval, b: Interval)
    requires WellFormed(b) && Within(b, a)
    ensures forall x :: Indicator(b, x) + Occurrences(SubtractIntervals(a, b), x) == Indicator(a, x)
    ensures Count(b) + TotalCount(SubtractIntervals(a, b)) == Count(a)
    ensures forall k :: 0 <= k < |SubtractIntervals(a, b)| ==> Within(SubtractIntervals(a, b)[k], a)
  {
    var left, right := Interval(a.lo, b.lo - 1), Interval(b.hi + 1, a.hi);
    if a.lo <= b.lo - 1 && b.hi + 1 <= a.hi {
      assert SubtractIntervals(a, b) == [left, right];
      SubtractBoth(a, b);
    } else if a.lo <= b.lo - 1 {
      assert SubtractIntervals(a, b) == [left];
      SubtractLeft(a, b);
    } else if b.hi + 1 <= a.hi {
      assert SubtractIntervals(a, b) == [right];
      SubtractRight(a, b);
    } else {
      assert SubtractIntervals(a, b) == [];
    }
  }

  lemma SubtractBoth(a: Interval, b: Interval)
    requires WellFormed(b) && a.lo < b.lo && b.hi < a.hi
    ensures var r := [Interval(a.lo, b.lo - 1), Interval(b.hi + 1, a.hi)];
      && (forall x :: Indicator(b, x) + Occurrences(r, x) == Indicator(a, x))
      && Count(b) + TotalCount(r) == Count(a)
  {
    var left, right := Interval(a.lo, b.lo - 1), Interval(b.hi + 1, a.hi);
    forall x ensures Indicator(b, x) + Occurrences([left, right], x) == Indicator(a, x) {
      OccurrencesPair(left, right, x);
    }
    TotalCountPair(left, right);
  }

  lemma SubtractLeft(a: Interval, b: Interval)
    requires WellFormed(b) && a.lo < b.lo && b.hi == a.hi
    ensures var r := [Interval(a.lo, b.lo - 1)];
      && (forall x :: Indicator(b, x) + Occurrences(r, x) == Indicator(a, x))
      && Count(b) + TotalCount(r) == Count(a)
  {
    var left := Interval(a.lo, b.lo - 1);
    forall x ensures Indicator(b, x) + Occurrences([left], x) == Indicator(a, x) {
      OccurrencesSingle(left, x);
    }
    TotalCountSingle(left);
  }

  lemma SubtractRight(a: Interval, b: Interval)
    requires WellFormed(b) && a.lo == b.lo && b.hi < a.hi
    ensures var r := [Interval(b.hi + 1, a.hi)];
      && (forall x :: Indicator(b, x) + Occurrences(r, x) == Indicator(a, x))
      && Count(b) + TotalCount(r) == Count(a)
  {
    var right := Interval(b.hi + 1, a.hi);
    forall x ensures Indicator(b, x) + Occurrences([right], x) == Indicator(a, x) {
      OccurrencesSingle(right, x);
    }
    TotalCountSingle(right);
  }

  /** Splitting one piece `u` against a rule's source: the claimed part and the remainders. */
  lemma SplitPartitions(u: Interval, target: Interval, inter: Interval)
    requires WellFormed(u) && WellFormed(target) && IntersectIntervals(u, target) == Some(inter)
    ensures forall x :: Indicator(inter, x) + Occurrences(SubtractIntervals(u, inter), x) == Indicator(u, x)
    ensures Count(inter) + TotalCount(SubtractIntervals(u, inter)) == Count(u)
    ensures forall k :: 0 <= k < |SubtractIntervals(u, inter)| ==>
      Within(SubtractIntervals(u, inter)[k], u) &&
      (SubtractIntervals(u, inter)[k].hi < target.lo || target.hi < SubtractIntervals(u, inter)[k].lo)
  {
    SubtractComplements(u, inter);
  }

  predicate AllWellFormed(s: seq<Interval>) { forall k :: 0 <= k < |s| ==> WellFormed(s[k]) }

  predicate Apart(a: Interval, b: Interval) { a.hi < b.lo || b.hi < a.lo }

  /** No piece of `s` meets the source of any of the first `t` rules. */
  predicate Unclaimed(s: seq<Interval>, rules: seq<Rule>, t: nat)
    requires t <= |rules|
  {
    forall k, r :: 0 <= k < |s| && 0 <= r < t ==> Apart(s[k], Source(rules[r]))
  }

  /** The pieces of `origins` and `unmapped` together hold every integer of `iv` exactly once. */
  ghost predicate Partition(origins: seq<Interval>, unmapped: seq<Interval>, iv: Interval)
  {
    forall x :: Occurrences(origins, x) + Occurrences(unmapped, x) == Indicator(iv, x)
  }

  /**
   * Each mapped piece is its origin shifted by the rule `ruleOf[k] < t` that claimed it;
   * the origin lies in that rule's source and misses every earlier rule's source.
   */
  ghost predicate Claimed(rules: seq<Rule>, t: nat, mapped: seq<Interval>, origins: seq<Interval>, ruleOf: seq<nat>)
    requires t <= |rules|
  {
    && |origins| == |mapped| == |ruleOf|
    && AllWellFormed(origins) && AllWellFormed(mapped)
    && forall k :: 0 <= k < |mapped| ==>
      (&& ruleOf[k] < t
       && mapped[k] == Shift(origins[k], Delta(rules[ruleOf[k]]))
       && Within(origins[k], Source(rules[ruleOf[k]]))
       && Unclaimed([origins[k]], rules, ruleOf[k]))
  }

  /** What holds of one popped job after the first `t` rules of its stage. */
  ghost predicate RulesApplied(rules: seq<Rule>, t: nat, iv: Interval, mapped: seq<Interval>,
                               origins: seq<Interval>, ruleOf: seq<nat>, unmapped: seq<Interval>)
    requires t <= |rules|
  {
    && AllWellFormed(unmapped)
    && Claimed(rules, t, mapped, origins, ruleOf)
    && TotalCount(origins) + TotalCount(unmapped) == Count(iv)
    && Partition(origins, unmapped, iv)
    && Unclaimed(unmapped, rules, t)
  }

  lemma ClaimedAppend(rules: seq<Rule>, t: nat, mapped: seq<Interval>, origins: seq<Interval>,
                      ruleOf: seq<nat>, inter: Interval)
    requires t < |rules| && Claimed(rules, t + 1, mapped, origins, ruleOf)
    requires WellFormed(inter) && Within(inter, Source(rules[t])) && Unclaimed([inter], rules, t)
    ensures Claimed(rules, t + 1, mapped + [Shift(inter, Delta(rules[t]))], origins + [inter], ruleOf + [t])
  {
  }

  lemma UnclaimedParts(a: seq<Interval>, b: seq<Interval>, rules: seq<Rule>, t: nat)
    requires t <= |rules|
    ensures Unclaimed(a + b, rules, t) <==> Unclaimed(a, rules, t) && Unclaimed(b, rules, t)
  {
    if Unclaimed(a + b, rules, t) {
      forall k, r | 0 <= k < |b| && 0 <= r < t ensures Apart(b[k], Source(rules[r])) {
        assert (a + b)[|a| + k] == b[k];
      }
      forall k, r | 0 <= k < |a| && 0 <= r < t ensures Apart(a[k], Source(rules[r])) {
        assert (a + b)[k] == a[k];
      }
    }
  }

  lemma SplitStep(origins: seq<Interval>, piece: Interval, rest: seq<Interval>, iv: Interval,
                  target: Interval, inter: Interval)
    requires Partition(origins, [piece] + rest, iv)
    requires TotalCount(origins) + TotalCount([piece] + rest) == Count(iv)
    requires WellFormed(piece) && WellFormed(target) && IntersectIntervals(piece, target) == Some(inter)
    ensures Partition(origins + [inter], rest + SubtractIntervals(piece, inter), iv)
    ensures TotalCount(origins + [inter]) + TotalCount(rest + SubtractIntervals(piece, inter)) == Count(iv)
  {
    var pieces := SubtractIntervals(piece, inter);
    SplitPartitions(piece, target, inter);
    forall x ensures Occurrences(origins + [inter], x) + Occurrences(rest + pieces, x) == Indicator(iv, x) {
      OccurrencesConcat(origins, [inter], x);
      OccurrencesConcat(rest, pieces, x);
      OccurrencesConcat([piece], rest, x);
      OccurrencesSingle(inter, x);
      OccurrencesSingle(piece, x);
    }
    TotalCountConcat(origins, [inter]);
    TotalCountConcat(rest, pieces);
    TotalCountConcat([piece], rest);
    TotalCountSingle(inter);
    TotalCountSingle(piece);
  }

  lemma RotateStep(origins: seq<Interval>, piece: Interval, rest: seq<Interval>, iv: Interval)
    requires Partition(origins, [piece] + rest, iv)
    requires TotalCount(origins) + TotalCount([piece] + rest) == Count(iv)
    ensures Partition(origins, rest + [piece], iv)
    ensures TotalCount(origins) + TotalCount(rest + [piece]) == Count(iv)
  {
    forall x ensures Occurrences(origins, x) + Occurrences(rest + [piece], x) == Indicator(iv, x) {
      OccurrencesConcat(rest, [piece], x);
      OccurrencesConcat([piece], rest, x);
    }
    TotalCountConcat(rest, [piece]);
    TotalCountConcat([piece], rest);
  }

  /** The state of the inner loop of one rule after its first `q` pops. */
  ghost predicate RuleLoop(rules: seq<Rule>, t: nat, iv: Interval, unmapped0: seq<Interval>, q: nat,
                           mapped: seq<Interval>, origins: seq<Interval>, ruleOf: seq<nat>,
                           unmapped: seq<Interval>, added: seq<Interval>)
    requires t < |rules|
  {
    && q <= |unmapped0|
    && unmapped == unmapped0[q..] + added
    && AllWellFormed(unmapped)
    && Claimed(rules, t + 1, mapped, origins, ruleOf)
    && TotalCount(origins) + TotalCount(unmapped) == Count(iv)
    && Partition(origins, unmapped, iv)
    && Unclaimed(unmapped, rules, t)
    && Unclaimed(added, rules, t + 1)
  }

  lemma RuleLoopStart(rules: seq<Rule>, t: nat, iv: Interval, mapped: seq<Interval>, origins: seq<Interval>,
                      ruleOf: seq<nat>, unmapped: seq<Interval>)
    requires t < |rules| && RulesApplied(rules, t, iv, mapped, origins, ruleOf, unmapped)
    ensures RuleLoop(rules, t, iv, unmapped, 0, mapped, origins, ruleOf, unmapped, [])
  {
    assert unmapped[0..] + [] == unmapped;
  }

  lemma RuleLoopEnd(rules: seq<Rule>, t: nat, iv: Interval, unmapped0: seq<Interval>, mapped: seq<Interval>,
                    origins: seq<Interval>, ruleOf: seq<nat>, unmapped: seq<Interval>, added: seq<Interval>)
    requires t < |rules| && RuleLoop(rules, t, iv, unmapped0, |unmapped0|, mapped, origins, ruleOf, unmapped, added)
    ensures RulesApplied(rules, t + 1, iv, mapped, origins, ruleOf, unmapped)
  {
    assert unmapped0[|unmapped0|..] == [];
    assert unmapped == added;
  }

  /** Popping a piece that meets the rule's source keeps the loop state. */
  lemma RuleLoopSplit(rules: seq<Rule>, t: nat, iv: Interval, unmapped0: seq<Interval>, q: nat,
                      mapped: seq<Interval>, origins: seq<Interval>, ruleOf: seq<nat>,
                      unmapped: seq<Interval>, added: seq<Interval>, inter: Interval)
    requires t < |rules| && PositiveRules(rules) && q < |unmapped0|
    requires RuleLoop(rules, t, iv, unmapped0, q, mapped, origins, ruleOf, unmapped, added)
    requires |unmapped| > 0 && IntersectIntervals(unmapped[0], Source(rules[t])) == Some(inter)
    ensures RuleLoop(rules, t, iv, unmapped0, q + 1, mapped + [Shift(inter, Delta(rules[t]))], origins + [inter],
                     ruleOf + [t], unmapped[1..] + SubtractIntervals(unmapped[0], inter),
                     added + SubtractIntervals(unmapped[0], inter))
  {
    var piece, rest := unmapped[0], unmapped[1..];
    var pieces := SubtractIntervals(piece, inter);
    assert rest == unmapped0[q + 1..] + added;
    assert unmapped == [piece] + rest;
    SplitStep(origins, piece, rest, iv, Source(rules[t]), inter);
    SplitUnclaimed(rules, t, piece, inter, rest, added);
    ClaimedAppend(rules, t, mapped, origins, ruleOf, inter);
    AllWellFormedConcat(rest, pieces);
    assert unmapped0[q + 1..] + (added + pieces) == rest + pieces;
  }

  lemma AllWellFormedConcat(a: seq<Interval>, b: seq<Interval>)
    requires AllWellFormed(a) && AllWellFormed(b)
    ensures AllWellFormed(a + b)
  {
  }

  /** The claimed part and the remainders of a split piece miss the sources they must miss. */
  lemma SplitUnclaimed(rules: seq<Rule>, t: nat, piece: Interval, inter: Interval, rest: seq<Interval>,
                       added: seq<Interval>)
    requires t < |rules| && PositiveRules(rules) && WellFormed(piece)
    requires IntersectIntervals(piece, Source(rules[t])) == Some(inter)
    requires Unclaimed([piece] + rest, rules, t) && Unclaimed(added, rules, t + 1)
    ensures WellFormed(inter) && Within(inter, Source(rules[t])) && Unclaimed([inter], rules, t)
    ensures Unclaimed(rest + SubtractIntervals(piece, inter), rules, t)
    ensures Unclaimed(added + SubtractIntervals(piece, inter), rules, t + 1)
  {
    var pieces := SubtractIntervals(piece, inter);
    UnclaimedParts([piece], rest, rules, t);
    SplitPieceUnclaimed(rules, t, piece, inter);
    UnclaimedParts(rest, pieces, rules, t);
    UnclaimedParts(added, pieces, rules, t + 1);
  }

  /** Pieces inside an unclaimed interval are unclaimed. */
  lemma UnclaimedWithin(s: seq<Interval>, u: Interval, rules: seq<Rule>, t: nat)
    requires t <= |rules| && Unclaimed([u], rules, t)
    requires forall k :: 0 <= k < |s| ==> Within(s[k], u)
    ensures Unclaimed(s, rules, t)
  {
    forall k, r | 0 <= k < |s| && 0 <= r < t ensures Apart(s[k], Source(rules[r])) {
      assert Apart([u][0], Source(rules[r]));
    }
  }

  lemma SplitPieceUnclaimed(rules: seq<Rule>, t: nat, piece: Interval, inter: Interval)
    requires t < |rules| && PositiveRules(rules) && WellFormed(piece)
    requires IntersectIntervals(piece, Source(rules[t])) == Some(inter)
    requires Unclaimed([piece], rules, t)
    ensures WellFormed(inter) && Within(inter, Source(rules[t])) && Unclaimed([inter], rules, t)
    ensures Unclaimed(SubtractIntervals(piece, inter), rules, t + 1)
  {
    var pieces := SubtractIntervals(piece, inter);
    SplitPartitions(piece, Source(rules[t]), inter);
    UnclaimedWithin([inter], piece, rules, t);
    UnclaimedWithin(pieces, piece, rules, t);
    UnclaimedNext(pieces, rules, t);
  }

  /** Pieces apart from the first `t` sources and from source `t` are apart from the first `t + 1`. */
  lemma UnclaimedNext(s: seq<Interval>, rules: seq<Rule>, t: nat)
    requires t < |rules| && Unclaimed(s, rules, t)
    requires forall k :: 0 <= k < |s| ==> s[k].hi < Source(rules[t]).lo || Source(rules[t]).hi < s[k].lo
    ensures Unclaimed(s, rules, t + 1)
  {
    forall k, r | 0 <= k < |s| && 0 <= r < t + 1 ensures Apart(s[k], Source(rules[r])) {
      if r < t {
        assert Apart(s[k], Source(rules[r]));
      }
    }
  }

  /** Popping a piece that misses the rule's source and pushing it to the back keeps the loop state. */
  lemma RuleLoopRotate(rules: seq<Rule>, t: nat, iv: Interval, unmapped0: seq<Interval>, q: nat,
                       mapped: seq<Interval>, origins: seq<Interval>, ruleOf: seq<nat>,
                       unmapped: seq<Interval>, added: seq<Interval>)
    requires t < |rules| && q < |unmapped0|
    requires RuleLoop(rules, t, iv, unmapped0, q, mapped, origins, ruleOf, unmapped, added)
    requires |unmapped| > 0 && IntersectIntervals(unmapped[0], Source(rules[t])).None?
    ensures RuleLoop(rules, t, iv, unmapped0, q + 1, mapped, origins, ruleOf, unmapped[1..] + [unmapped[0]],
                     added + [unmapped[0]])
  {
    var piece, rest := unmapped[0], unmapped[1..];
    assert rest == unmapped0[q + 1..] + added;
    assert unmapped == [piece] + rest;
    RotateStep(origins, piece, rest, iv);
    UnclaimedParts([piece], rest, rules, t);
    UnclaimedParts(rest, [piece], rules, t);
    UnclaimedParts(added, [piece], rules, t + 1);
    assert Unclaimed([piece], rules, t + 1) by {
      forall r | 0 <= r < t + 1 ensures Apart([piece][0], Source(rules[r])) {
      }
    }
    assert unmapped0[q + 1..] + (added + [piece]) == rest + [piece];
  }

  /** The front of the queue is what is left of the pieces present at the start, so a pop always finds one. */
  lemma QueueStep(unmapped0: seq<Interval>, q: nat, added: seq<Interval>, unmapped: seq<Interval>, pieces: seq<Interval>)
    requires q < |unmapped0| && unmapped == unmapped0[q..] + added
    ensures |unmapped| > 0 && unmapped[1..] + pieces == unmapped0[q + 1..] + (added + pieces)
  {
    assert unmapped[1..] == unmapped0[q + 1..] + added;
  }

  /**
   * One rule of the stage (the inner `for _ in range(len(unmapped_intervals))` loop): each
   * unmapped piece present at the start is popped from the front; its intersection with the
   * rule's source is shifted and pushed as a job, its remainders go to the back; a piece that
   * misses the source goes to the back unchanged. When `good` (the job and the rules are
   * non-empty ranges) the pieces keep their meaning; in any case no piece is lost.
   */
  method ApplyRule(rules: seq<Rule>, t: nat, iv: Interval, mapped0: seq<Interval>, ghost origins0: seq<Interval>,
                   ghost ruleOf0: seq<nat>, unmapped0: seq<Interval>, ghost good: bool)
    returns (mapped: seq<Interval>, unmapped: seq<Interval>, ghost origins: seq<Interval>, ghost ruleOf: seq<nat>)
    requires t < |rules|
    requires good ==> PositiveRules(rules) && RulesApplied(rules, t, iv, mapped0, origins0, ruleOf0, unmapped0)
    ensures good ==> RulesApplied(rules, t + 1, iv, mapped, origins, ruleOf, unmapped)
    ensures |mapped| + |unmapped| >= |mapped0| + |unmapped0|
  {
    var target := Source(rules[t]);
    mapped, unmapped, origins, ruleOf := mapped0, unmapped0, origins0, ruleOf0;
    ghost var added: seq<Interval> := [];
    if good {
      RuleLoopStart(rules, t, iv, mapped, origins, ruleOf, unmapped);
    }
    assert unmapped0[0..] + [] == unmapped0;
    var n := |unmapped|;
    for q := 0 to n
      invariant unmapped == unmapped0[q..] + added
      invariant |mapped| + |unmapped| >= |mapped0| + |unmapped0|
      invariant good ==> RuleLoop(rules, t, iv, unmapped0, q, mapped, origins, ruleOf, unmapped, added)
    {
      QueueStep(unmapped0, q, added, unmapped, []);
      var piece := unmapped[0];
      var intersection := IntersectIntervals(piece, target);
      if intersection.Some? {
        var inter := intersection.value;
        var pieces := SubtractIntervals(piece, inter);
        QueueStep(unmapped0, q, added, unmapped, pieces);
        if good {
          RuleLoopSplit(rules, t, iv, unmapped0, q, mapped, origins, ruleOf, unmapped, added, inter);
        }
        mapped := mapped + [Shift(inter, Delta(rules[t]))];
        origins := origins + [inter];
        ruleOf := ruleOf + [t];
        unmapped := unmapped[1..] + pieces;
        added := added + pieces;
      } else {
        QueueStep(unmapped0, q, added, unmapped, [piece]);
        if good {
          RuleLoopRotate(rules, t, iv, unmapped0, q, mapped, origins, ruleOf, unmapped, added);
        }
        unmapped := unmapped[1..] + [piece];
        added := added + [piece];
      }
    }
    if good {
      RuleLoopEnd(rules, t, iv, unmapped0, mapped, origins, ruleOf, unmapped, added);
    }
  }

  /**
   * What the rule loop of one stage achieves for a job `iv`: every integer of `iv` lies in
   * exactly one claimed part `origins[k]` or one unmapped piece; each claimed part is moved
   * as a whole by the rule `ruleOf[k]`, which is where `StagePoint` sends each of its
   * integers; unmapped integers stay where they are; no integer is lost or duplicated.
   */
  ghost predicate Remapped(rules: seq<Rule>, iv: Interval, mapped: seq<Interval>, unmapped: seq<Interval>,
                           origins: seq<Interval>, ruleOf: seq<nat>)
  {
    && AllWellFormed(mapped) && AllWellFormed(unmapped)
    && TotalCount(mapped) + TotalCount(unmapped) == Count(iv)
    && |origins| == |mapped| == |ruleOf|
    && Partition(origins, unmapped, iv)
    && (forall k :: 0 <= k < |mapped| ==>
         (&& ruleOf[k] < |rules| && mapped[k] == Shift(origins[k], Delta(rules[ruleOf[k]]))
          && forall x :: Contains(origins[k], x) ==> StagePoint(rules, x) == x + Delta(rules[ruleOf[k]])))
    && forall k, x :: 0 <= k < |unmapped| && Contains(unmapped[k], x) ==> StagePoint(rules, x) == x
  }

  /**
   * The rule loop of `to_location` for one popped job. `mapped` are the shifted claimed
   * parts, in the order they are pushed as jobs; `unmapped` are the pieces no rule claimed,
   * which are then forwarded unchanged. The ghost `origins` and `ruleOf` say where each
   * mapped piece came from.
   */
  method ApplyRules(rules: seq<Rule>, iv: Interval)
    returns (mapped: seq<Interval>, unmapped: seq<Interval>, ghost origins: seq<Interval>, ghost ruleOf: seq<nat>)
    ensures WellFormed(iv) && PositiveRules(rules) ==> Remapped(rules, iv, mapped, unmapped, origins, ruleOf)
    ensures |mapped| + |unmapped| >= 1
  {
    ghost var good := WellFormed(iv) && PositiveRules(rules);
    mapped, unmapped, origins, ruleOf := [], [iv], [], [];
    forall x ensures Occurrences(origins, x) + Occurrences(unmapped, x) == Indicator(iv, x) {
      OccurrencesSingle(iv, x);
    }
    TotalCountSingle(iv);
    for t := 0 to |rules|
      invariant good ==> RulesApplied(rules, t, iv, mapped, origins, ruleOf, unmapped)
      invariant |mapped| + |unmapped| >= 1
    {
      mapped, unmapped, origins, ruleOf := ApplyRule(rules, t, iv, mapped, origins, ruleOf, unmapped, good);
    }
    if good {
      RemappedEnd(rules, iv, mapped, unmapped, origins, ruleOf);
    }
  }

  lemma RemappedEnd(rules: seq<Rule>, iv: Interval, mapped: seq<Interval>, unmapped: seq<Interval>,
                    origins: seq<Interval>, ruleOf: seq<nat>)
    requires WellFormed(iv) && PositiveRules(rules)
    requires RulesApplied(rules, |rules|, iv, mapped, origins, ruleOf, unmapped)
    ensures Remapped(rules, iv, mapped, unmapped, origins, ruleOf)
  {
    forall k | 0 <= k < |mapped|
      ensures forall x :: Contains(origins[k], x) ==> StagePoint(rules, x) == x + Delta(rules[ruleOf[k]])
    {
      forall x | Contains(origins[k], x) ensures StagePoint(rules, x) == x + Delta(rules[ruleOf[k]]) {
        forall r | 0 <= r < ruleOf[k] ensures !Contains(Source(rules[r]), x) {
          assert Unclaimed([origins[k]], rules, ruleOf[k]);
          assert Apart([origins[k]][0], Source(rules[r]));
        }
        StagePointAtRule(rules, ruleOf[k], x);
      }
    }
    forall k, x | 0 <= k < |unmapped| && Contains(unmapped[k], x) ensures StagePoint(rules, x) == x {
      StagePointUnmatched(rules, x);
    }
    TotalCountPairwise(mapped, origins);
  }

  /** Sequences whose pieces have equal counts, index by index, have equal totals. */
  lemma {:induction false} TotalCountPairwise(a: seq<Interval>, b: seq<Interval>)
    requires |a| == |b| && forall k :: 0 <= k < |a| ==> Count(a[k]) == Count(b[k])
    ensures TotalCount(a) == TotalCount(b)
  {
    if a != [] {
      TotalCountPairwise(a[..|a| - 1], b[..|b| - 1]);
    }
  }

  // The stage chain and the point-wise meaning of `to_location`.

  const SeedStage := "seed"
  const LocationStage := "location"

  /**
   * The stage every job reaches after `d` hops along `next` from "seed"; `None` once a hop
   * would leave "location" (whose jobs are not forwarded) or a stage `next` does not know.
   */
  function ChainStage(next: map<string, string>, d: nat): Option<string>
  {
    if d == 0 then Some(SeedStage)
    else match ChainStage(next, d - 1)
      case Some(s) => if s != LocationStage && s in next then Some(next[s]) else None
      case None => None
  }

  ghost predicate OnChain(next: map<string, string>, name: string)
  {
    exists d :: ChainStage(next, d) == Some(name)
  }

  /** Where the integer `x` of a seed range stands after the first `d` stages of the chain. */
  function Point(next: map<string, string>, ruleMap: map<string, seq<Rule>>, x: int, d: nat): int
  {
    if d == 0 then x
    else
      var s := ChainStage(next, d - 1);
      if s.Some? && s.value in ruleMap then StagePoint(ruleMap[s.value], Point(next, ruleMap, x, d - 1))
      else Point(next, ruleMap, x, d - 1)
  }

  /** The chain stops at "location": it is reached at one depth only. */
  lemma {:induction false} ChainStopsAtLocation(next: map<string, string>, d1: nat, d2: nat)
    requires ChainStage(next, d1) == Some(LocationStage) && d1 < d2
    ensures ChainStage(next, d2) == None
  {
    if d2 > d1 + 1 {
      ChainStopsAtLocation(next, d1, d2 - 1);
    }
  }

  lemma LocationDepthUnique(next: map<string, string>, d1: nat, d2: nat)
    requires ChainStage(next, d1) == Some(LocationStage) && ChainStage(next, d2) == Some(LocationStage)
    ensures d1 == d2
  {
    if d1 < d2 { ChainStopsAtLocation(next, d1, d2); }
    if d2 < d1 { ChainStopsAtLocation(next, d2, d1); }
  }

  /** `minmax` after one more location job: `(min(iv + minmax), max(iv + minmax))`. */
  function MergeMinMax(minmax: Option<Interval>, iv: Interval): Interval
  {
    match minmax
    case None => Interval(Min(iv.lo, iv.hi), Max(iv.lo, iv.hi))
    case Some(m) => Interval(Min(Min(iv.lo, iv.hi), Min(m.lo, m.hi)), Max(Max(iv.lo, iv.hi), Max(m.lo, m.hi)))
  }

  /** The `minmax` accumulated over the location jobs `s`, in the order they were popped. */
  function Hull(s: seq<Interval>): Option<Interval>
  {
    if s == [] then None else Some(MergeMinMax(Hull(s[..|s| - 1]), s[|s| - 1]))
  }

  /** The hull of well-formed intervals holds each of them and shares its ends with some of them. */
  lemma {:induction false} HullBounds(s: seq<Interval>)
    requires AllWellFormed(s) && s != []
    ensures Hull(s).Some? && WellFormed(Hull(s).value)
    ensures forall k :: 0 <= k < |s| ==> Within(s[k], Hull(s).value)
    ensures exists k :: 0 <= k < |s| && s[k].lo == Hull(s).value.lo
    ensures exists k :: 0 <= k < |s| && s[k].hi == Hull(s).value.hi
  {
    var init, last := s[..|s| - 1], s[|s| - 1];
    if init == [] {
      assert s[0] == last;
    } else {
      HullBounds(init);
      var h := Hull(init).value;
      var i :| 0 <= i < |init| && init[i].lo == h.lo;
      var j :| 0 <= j < |init| && init[j].hi == h.hi;
      assert s[i] == init[i] && s[j] == init[j];
      forall k | 0 <= k < |s| ensures Within(s[k], Hull(s).value) {
        if k < |init| { assert s[k] == init[k]; }
      }
      if last.lo <= h.lo { assert s[|s| - 1].lo == Hull(s).value.lo; } else { assert s[i].lo == Hull(s).value.lo; }
      if h.hi <= last.hi { assert s[|s| - 1].hi == Hull(s).value.hi; } else { assert s[j].hi == Hull(s).value.hi; }
    }
  }

  /** Ghost provenance of a job: its integers are those of `origin` (in seed coordinates) moved by `offset`. */
  datatype Trace = Trace(origin: Interval, offset: int, depth: nat)

  /** The job's stage is the chain's stage at `depth`, and every integer of it started as `x - offset`. */
  ghost predicate Traced(next: map<string, string>, ruleMap: map<string, seq<Rule>>, job: Job, t: Trace)
  {
    && WellFormed(t.origin)
    && job.interval == Shift(t.origin, t.offset)
    && ChainStage(next, t.depth) == Some(job.stage)
    && forall x :: Contains(t.origin, x) ==> Point(next, ruleMap, x, t.depth) == x + t.offset
  }

  function Origins(ts: seq<Trace>): (r: seq<Interval>)
    ensures |r| == |ts| && forall k :: 0 <= k < |ts| ==> r[k] == ts[k].origin
  {
    if ts == [] then [] else Origins(ts[..|ts| - 1]) + [ts[|ts| - 1].origin]
  }

  /**
   * The state of `to_location`'s worklist: each pending and each finished job is traced, their
   * origins together hold every integer of the seed range exactly once, and `minmax` is the hull
   * of the finished (location) jobs.
   */
  ghost predicate Worklist(next: map<string, string>, ruleMap: map<string, seq<Rule>>, seedIv: Interval,
                           jobs: seq<Job>, traces: seq<Trace>, reached: seq<Interval>, done: seq<Trace>,
                           minmax: Option<Interval>)
  {
    && AllTraced(next, ruleMap, jobs, traces)
    && AllTraced(next, ruleMap, JobsAt(LocationStage, reached), done)
    && Covers(seedIv, traces, done)
    && minmax == Hull(reached)
  }

  ghost predicate AllTraced(next: map<string, string>, ruleMap: map<string, seq<Rule>>, jobs: seq<Job>,
                            traces: seq<Trace>)
  {
    |traces| == |jobs| && forall k :: 0 <= k < |jobs| ==> Traced(next, ruleMap, jobs[k], traces[k])
  }

  /** The origins of the pending and of the finished jobs together hold each integer of `seedIv` once. */
  ghost predicate Covers(seedIv: Interval, traces: seq<Trace>, done: seq<Trace>)
  {
    forall x :: Occurrences(Origins(traces), x) + Occurrences(Origins(done), x) == Indicator(seedIv, x)
  }

  /** `m` is the smallest and largest location, after `depth` stages, of the integers of `seedIv`. */
  ghost predicate LocationRange(next: map<string, string>, ruleMap: map<string, seq<Rule>>, seedIv: Interval,
                                depth: nat, m: Interval)
  {
    && ChainStage(next, depth) == Some(LocationStage)
    && (forall x :: Contains(seedIv, x) ==> m.lo <= Point(next, ruleMap, x, depth) <= m.hi)
    && (exists x :: Contains(seedIv, x) && Point(next, ruleMap, x, depth) == m.lo)
    && (exists x :: Contains(seedIv, x) && Point(next, ruleMap, x, depth) == m.hi)
  }

  lemma {:induction false} OccurrencesPositive(s: seq<Interval>, k: nat, x: int)
    requires k < |s| && Contains(s[k], x)
    ensures Occurrences(s, x) >= 1
  {
    if k < |s| - 1 {
      OccurrencesPositive(s[..|s| - 1], k, x);
    }
  }

  lemma {:induction false} OccurrencesWitness(s: seq<Interval>, x: int)
    requires Occurrences(s, x) >= 1
    ensures exists k :: 0 <= k < |s| && Contains(s[k], x)
  {
    if !Contains(s[|s| - 1], x) {
      OccurrencesWitness(s[..|s| - 1], x);
      var k :| 0 <= k < |s| - 1 && Contains(s[..|s| - 1][k], x);
      assert Contains(s[k], x);
    }
  }

  function ShiftAll(s: seq<Interval>, delta: int): (r: seq<Interval>)
    ensures |r| == |s| && forall k :: 0 <= k < |s| ==> r[k] == Shift(s[k], delta)
  {
    if s == [] then [] else ShiftAll(s[..|s| - 1], delta) + [Shift(s[|s| - 1], delta)]
  }

  lemma {:induction false} OccurrencesShiftAll(s: seq<Interval>, delta: int, x: int)
    ensures Occurrences(ShiftAll(s, delta), x) == Occurrences(s, x - delta)
  {
    if s != [] {
      var r := ShiftAll(s, delta);
      assert r[..|r| - 1] == ShiftAll(s[..|s| - 1], delta);
      OccurrencesShiftAll(s[..|s| - 1], delta, x);
    }
  }

  lemma ShiftedBack(s: seq<Interval>, offset: int, x: int)
    ensures Occurrences(ShiftAll(s, -offset), x) == Occurrences(s, x + offset)
  {
    OccurrencesShiftAll(s, -offset, x);
    assert x - -offset == x + offset;
  }

  lemma OriginsConcat(a: seq<Trace>, b: seq<Trace>)
    ensures Origins(a + b) == Origins(a) + Origins(b)
  {
    assert forall k :: 0 <= k < |a + b| ==> Origins(a + b)[k] == (Origins(a) + Origins(b))[k];
  }

  /** The jobs `jobs.append((dest_name, piece))` pushes, one per piece. */
  function JobsAt(stage: string, pieces: seq<Interval>): (r: seq<Job>)
    ensures |r| == |pieces| && forall k :: 0 <= k < |pieces| ==> r[k] == Job(stage, pieces[k])
  {
    seq(|pieces|, k requires 0 <= k < |pieces| => Job(stage, pieces[k]))
  }

  /** The traces of the jobs forwarded from a job traced by `t`: `pieces[k]` came from `sources[k]`. */
  function ForwardTraces(t: Trace, pieces: seq<Interval>, sources: seq<Interval>): (r: seq<Trace>)
    requires |pieces| == |sources|
    ensures |r| == |pieces|
    ensures forall k :: 0 <= k < |pieces| ==>
      r[k] == Trace(Shift(sources[k], -t.offset), t.offset + (pieces[k].lo - sources[k].lo), t.depth + 1)
  {
    seq(|pieces|, k requires 0 <= k < |pieces| =>
      Trace(Shift(sources[k], -t.offset), t.offset + (pieces[k].lo - sources[k].lo), t.depth + 1))
  }

  lemma ForwardOrigins(t: Trace, pieces: seq<Interval>, sources: seq<Interval>)
    requires |pieces| == |sources|
    ensures Origins(ForwardTraces(t, pieces, sources)) == ShiftAll(sources, -t.offset)
  {
    var f := ForwardTraces(t, pieces, sources);
    var o, z := Origins(f), ShiftAll(sources, -t.offset);
    assert |o| == |z|;
    forall k | 0 <= k < |o| ensures o[k] == z[k] {
      assert o[k] == f[k].origin == Shift(sources[k], -t.offset);
    }
    assert o == z;
  }

  /** Jobs forwarded by one stage are traced one hop further down the chain. */
  lemma ForwardTraced(next: map<string, string>, ruleMap: map<string, seq<Rule>>, job: Job, t: Trace,
                      pieces: seq<Interval>, sources: seq<Interval>)
    requires Traced(next, ruleMap, job, t)
    requires job.stage != LocationStage && job.stage in next && job.stage in ruleMap
    requires |pieces| == |sources|
    requires forall k :: 0 <= k < |pieces| ==>
      WellFormed(sources[k]) && pieces[k] == Shift(sources[k], pieces[k].lo - sources[k].lo)
    requires forall k, y :: 0 <= k < |pieces| && Contains(sources[k], y) ==>
      Contains(job.interval, y) && StagePoint(ruleMap[job.stage], y) == y + (pieces[k].lo - sources[k].lo)
    ensures forall k :: 0 <= k < |pieces| ==>
      Traced(next, ruleMap, Job(next[job.stage], pieces[k]), ForwardTraces(t, pieces, sources)[k])
  {
    var r := ForwardTraces(t, pieces, sources);
    forall k | 0 <= k < |pieces| ensures Traced(next, ruleMap, Job(next[job.stage], pieces[k]), r[k]) {
      var delta := pieces[k].lo - sources[k].lo;
      forall x | Contains(r[k].origin, x) ensures Point(next, ruleMap, x, r[k].depth) == x + r[k].offset {
        assert Contains(sources[k], x + t.offset);
        assert Contains(t.origin, x);
      }
    }
  }

  /** Origins of a trace sequence split off its last element, as `Occurrences` unfolds. */
  lemma OccurrencesOriginsLast(ts: seq<Trace>, x: int)
    requires ts != []
    ensures Occurrences(Origins(ts), x) == Occurrences(Origins(ts[..|ts| - 1]), x) + Indicator(ts[|ts| - 1].origin, x)
  {
    assert Origins(ts)[..|ts| - 1] == Origins(ts[..|ts| - 1]);
  }

  /** Popping a location job folds it into `minmax`. */
  lemma LocationStep(next: map<string, string>, ruleMap: map<string, seq<Rule>>, seedIv: Interval,
                     jobs: seq<Job>, traces: seq<Trace>, reached: seq<Interval>, done: seq<Trace>,
                     minmax: Option<Interval>)
    requires Worklist(next, ruleMap, seedIv, jobs, traces, reached, done, minmax)
    requires jobs != [] && jobs[|jobs| - 1].stage == LocationStage
    ensures Worklist(next, ruleMap, seedIv, jobs[..|jobs| - 1], traces[..|traces| - 1],
                     reached + [jobs[|jobs| - 1].interval], done + [traces[|traces| - 1]],
                     Some(MergeMinMax(minmax, jobs[|jobs| - 1].interval)))
  {
    PopTraced(next, ruleMap, jobs, traces);
    FinishTraced(next, ruleMap, reached, done, jobs[|jobs| - 1], traces[|traces| - 1]);
    MoveCovers(seedIv, traces, done);
  }

  /** The jobs left after a pop are still traced. */
  lemma PopTraced(next: map<string, string>, ruleMap: map<string, seq<Rule>>, jobs: seq<Job>, traces: seq<Trace>)
    requires AllTraced(next, ruleMap, jobs, traces) && jobs != []
    ensures AllTraced(next, ruleMap, jobs[..|jobs| - 1], traces[..|traces| - 1])
    ensures Traced(next, ruleMap, jobs[|jobs| - 1], traces[|traces| - 1])
  {
  }

  /** A finished location job joins the traced finished ones. */
  lemma FinishTraced(next: map<string, string>, ruleMap: map<string, seq<Rule>>, reached: seq<Interval>,
                     done: seq<Trace>, job: Job, t: Trace)
    requires AllTraced(next, ruleMap, JobsAt(LocationStage, reached), done)
    requires job.stage == LocationStage && Traced(next, ruleMap, job, t)
    ensures AllTraced(next, ruleMap, JobsAt(LocationStage, reached + [job.interval]), done + [t])
  {
    var r := reached + [job.interval];
    assert forall k :: 0 <= k < |reached| ==> r[k] == reached[k];
  }

  /** Moving the last pending trace to the finished ones keeps the cover. */
  lemma MoveCovers(seedIv: Interval, traces: seq<Trace>, done: seq<Trace>)
    requires Covers(seedIv, traces, done) && traces != []
    ensures Covers(seedIv, traces[..|traces| - 1], done + [traces[|traces| - 1]])
  {
    var done' := done + [traces[|traces| - 1]];
    assert done'[..|done|] == done;
    forall x ensures Occurrences(Origins(traces[..|traces| - 1]), x) + Occurrences(Origins(done'), x)
                     == Indicator(seedIv, x) {
      OccurrencesOriginsLast(traces, x);
      OccurrencesOriginsLast(done', x);
    }
  }

  /** Popping any other job forwards its remapped pieces, traced one stage further. */
  lemma ExpandStep(next: map<string, string>, ruleMap: map<string, seq<Rule>>, seedIv: Interval,
                   jobs: seq<Job>, traces: seq<Trace>, reached: seq<Interval>, done: seq<Trace>,
                   minmax: Option<Interval>, mapped: seq<Interval>, unmapped: seq<Interval>,
                   origins: seq<Interval>, ruleOf: seq<nat>)
    requires Worklist(next, ruleMap, seedIv, jobs, traces, reached, done, minmax)
    requires jobs != [] && jobs[|jobs| - 1].stage != LocationStage
    requires jobs[|jobs| - 1].stage in next && jobs[|jobs| - 1].stage in ruleMap
    requires Remapped(ruleMap[jobs[|jobs| - 1].stage], jobs[|jobs| - 1].interval, mapped, unmapped, origins, ruleOf)
    ensures Worklist(next, ruleMap, seedIv,
                     jobs[..|jobs| - 1] + JobsAt(next[jobs[|jobs| - 1].stage], mapped)
                       + JobsAt(next[jobs[|jobs| - 1].stage], unmapped),
                     traces[..|traces| - 1] + ForwardTraces(traces[|traces| - 1], mapped, origins)
                       + ForwardTraces(traces[|traces| - 1], unmapped, unmapped),
                     reached, done, minmax)
  {
    PopTraced(next, ruleMap, jobs, traces);
    var job, t := jobs[|jobs| - 1], traces[|traces| - 1];
    ExpandTraced(next, ruleMap, jobs[..|jobs| - 1], traces[..|traces| - 1], next[job.stage], mapped, origins, unmapped, t)
      by { PiecesTraced(next, ruleMap, job, t, mapped, unmapped, origins, ruleOf); }
    ExpandCovers(seedIv, traces, done, job.interval, mapped, unmapped, origins);
  }

  /** The mapped and the unmapped pieces of a traced job are traced one stage further. */
  lemma PiecesTraced(next: map<string, string>, ruleMap: map<string, seq<Rule>>, job: Job, t: Trace,
                     mapped: seq<Interval>, unmapped: seq<Interval>, origins: seq<Interval>, ruleOf: seq<nat>)
    requires Traced(next, ruleMap, job, t)
    requires job.stage != LocationStage && job.stage in next && job.stage in ruleMap
    requires Remapped(ruleMap[job.stage], job.interval, mapped, unmapped, origins, ruleOf)
    ensures forall k :: 0 <= k < |mapped| ==>
      Traced(next, ruleMap, Job(next[job.stage], mapped[k]), ForwardTraces(t, mapped, origins)[k])
    ensures forall k :: 0 <= k < |unmapped| ==>
      Traced(next, ruleMap, Job(next[job.stage], unmapped[k]), ForwardTraces(t, unmapped, unmapped)[k])
  {
    forall k, y | 0 <= k < |origins| && Contains(origins[k], y)
      ensures Contains(job.interval, y)
    {
      OccurrencesPositive(origins, k, y);
    }
    forall k, y | 0 <= k < |unmapped| && Contains(unmapped[k], y)
      ensures Contains(job.interval, y)
    {
      OccurrencesPositive(unmapped, k, y);
    }
    SourcesTraced(next, ruleMap, job, t, mapped, origins, ruleOf);
    ForwardTraced(next, ruleMap, job, t, unmapped, unmapped);
  }

  /** Replacing the last pending trace by the traces of its pieces keeps the cover. */
  lemma ExpandCovers(seedIv: Interval, traces: seq<Trace>, done: seq<Trace>, iv: Interval,
                     mapped: seq<Interval>, unmapped: seq<Interval>, origins: seq<Interval>)
    requires Covers(seedIv, traces, done) && traces != [] && |mapped| == |origins|
    requires iv == Shift(traces[|traces| - 1].origin, traces[|traces| - 1].offset)
    requires Partition(origins, unmapped, iv)
    ensures Covers(seedIv, traces[..|traces| - 1] + ForwardTraces(traces[|traces| - 1], mapped, origins)
                             + ForwardTraces(traces[|traces| - 1], unmapped, unmapped), done)
  {
    var t := traces[|traces| - 1];
    var traces' := traces[..|traces| - 1] + ForwardTraces(t, mapped, origins) + ForwardTraces(t, unmapped, unmapped);
    forall x ensures Occurrences(Origins(traces'), x) + Occurrences(Origins(done), x) == Indicator(seedIv, x) {
      assert Occurrences(Origins(traces), x) + Occurrences(Origins(done), x) == Indicator(seedIv, x);
      OccurrencesOriginsLast(traces, x);
      ExpandOccurrences(traces[..|traces| - 1], t, mapped, origins, unmapped, x);
      assert Occurrences(origins, x + t.offset) + Occurrences(unmapped, x + t.offset)
        == Indicator(iv, x + t.offset);
      assert Contains(iv, x + t.offset) <==> Contains(t.origin, x);
    }
  }

  lemma ExpandOccurrences(front: seq<Trace>, t: Trace, mapped: seq<Interval>, origins: seq<Interval>,
                          unmapped: seq<Interval>, x: int)
    requires |mapped| == |origins|
    ensures Occurrences(Origins(front + ForwardTraces(t, mapped, origins) + ForwardTraces(t, unmapped, unmapped)), x)
      == Occurrences(Origins(front), x) + Occurrences(origins, x + t.offset) + Occurrences(unmapped, x + t.offset)
  {
    var all := Origins(front + ForwardTraces(t, mapped, origins) + ForwardTraces(t, unmapped, unmapped));
    var a, b, c := Origins(front), ShiftAll(origins, -t.offset), ShiftAll(unmapped, -t.offset);
    assert all == a + b + c by { ExpandOrigins(front, t, mapped, origins, unmapped); }
    assert Occurrences(a + b + c, x) == Occurrences(a, x) + Occurrences(b, x) + Occurrences(c, x) by {
      OccurrencesThree(a, b, c, x);
    }
    assert Occurrences(b, x) == Occurrences(origins, x + t.offset) by { ShiftedBack(origins, t.offset, x); }
    assert Occurrences(c, x) == Occurrences(unmapped, x + t.offset) by { ShiftedBack(unmapped, t.offset, x); }
  }

  /** The origins of the expanded traces: the front's, then those of both kinds of pieces, moved back. */
  lemma ExpandOrigins(front: seq<Trace>, t: Trace, mapped: seq<Interval>, origins: seq<Interval>,
                      unmapped: seq<Interval>)
    requires |mapped| == |origins|
    ensures Origins(front + ForwardTraces(t, mapped, origins) + ForwardTraces(t, unmapped, unmapped))
      == Origins(front) + ShiftAll(origins, -t.offset) + ShiftAll(unmapped, -t.offset)
  {
    var f1, f2 := ForwardTraces(t, mapped, origins), ForwardTraces(t, unmapped, unmapped);
    OriginsConcat(front + f1, f2);
    OriginsConcat(front, f1);
    ForwardOrigins(t, mapped, origins);
    ForwardOrigins(t, unmapped, unmapped);
  }

  lemma OccurrencesThree(a: seq<Interval>, b: seq<Interval>, c: seq<Interval>, x: int)
    ensures Occurrences(a + b + c, x) == Occurrences(a, x) + Occurrences(b, x) + Occurrences(c, x)
  {
    OccurrencesConcat(a + b, c, x);
    OccurrencesConcat(a, b, x);
  }

  lemma ExpandTraced(next: map<string, string>, ruleMap: map<string, seq<Rule>>, front: seq<Job>,
                     frontTraces: seq<Trace>, dest: string, mapped: seq<Interval>, origins: seq<Interval>,
                     unmapped: seq<Interval>, t: Trace)
    requires |front| == |frontTraces| && |mapped| == |origins|
    requires forall k :: 0 <= k < |front| ==> Traced(next, ruleMap, front[k], frontTraces[k])
    requires forall k :: 0 <= k < |mapped| ==>
      Traced(next, ruleMap, Job(dest, mapped[k]), ForwardTraces(t, mapped, origins)[k])
    requires forall k :: 0 <= k < |unmapped| ==>
      Traced(next, ruleMap, Job(dest, unmapped[k]), ForwardTraces(t, unmapped, unmapped)[k])
    ensures var jobs' := front + JobsAt(dest, mapped) + JobsAt(dest, unmapped);
      var traces' := frontTraces + ForwardTraces(t, mapped, origins) + ForwardTraces(t, unmapped, unmapped);
      |jobs'| == |traces'| && forall k :: 0 <= k < |jobs'| ==> Traced(next, ruleMap, jobs'[k], traces'[k])
  {
    var f1, f2 := ForwardTraces(t, mapped, origins), ForwardTraces(t, unmapped, unmapped);
    var jobs' := front + JobsAt(dest, mapped) + JobsAt(dest, unmapped);
    var traces' := frontTraces + f1 + f2;
    forall k | 0 <= k < |jobs'| ensures Traced(next, ruleMap, jobs'[k], traces'[k]) {
      if k < |front| {
        assert jobs'[k] == front[k] && traces'[k] == frontTraces[k];
      } else if k < |front| + |mapped| {
        assert jobs'[k] == Job(dest, mapped[k - |front|]) && traces'[k] == f1[k - |front|];
      } else {
        assert jobs'[k] == Job(dest, unmapped[k - |front| - |mapped|]);
        assert traces'[k] == f2[k - |front| - |mapped|];
      }
    }
  }

  /** The claimed parts of a stage satisfy `ForwardTraced`'s requirements. */
  lemma SourcesTraced(next: map<string, string>, ruleMap: map<string, seq<Rule>>, job: Job, t: Trace,
                      mapped: seq<Interval>, origins: seq<Interval>, ruleOf: seq<nat>)
    requires Traced(next, ruleMap, job, t)
    requires job.stage != LocationStage && job.stage in next && job.stage in ruleMap
    requires |mapped| == |origins| == |ruleOf| && AllWellFormed(mapped)
    requires forall k :: 0 <= k < |mapped| ==>
      (&& ruleOf[k] < |ruleMap[job.stage]|
       && mapped[k] == Shift(origins[k], Delta(ruleMap[job.stage][ruleOf[k]]))
       && forall x :: Contains(origins[k], x) ==> StagePoint(ruleMap[job.stage], x) == x + Delta(ruleMap[job.stage][ruleOf[k]]))
    requires forall k, y :: 0 <= k < |origins| && Contains(origins[k], y) ==> Contains(job.interval, y)
    ensures forall k :: 0 <= k < |mapped| ==>
      Traced(next, ruleMap, Job(next[job.stage], mapped[k]), ForwardTraces(t, mapped, origins)[k])
  {
    forall k | 0 <= k < |mapped|
      ensures WellFormed(origins[k]) && mapped[k] == Shift(origins[k], mapped[k].lo - origins[k].lo)
    {
      assert WellFormed(mapped[k]);
    }
    ForwardTraced(next, ruleMap, job, t, mapped, origins);
  }

  /** A finished job's integers lie in the seed range and reached location at the chain's one location depth. */
  lemma DoneFacts(next: map<string, string>, ruleMap: map<string, seq<Rule>>, seedIv: Interval,
                  reached: seq<Interval>, done: seq<Trace>, k: nat)
    requires AllTraced(next, ruleMap, JobsAt(LocationStage, reached), done) && Covers(seedIv, [], done)
    requires k < |done|
    ensures WellFormed(reached[k]) && Contains(seedIv, done[k].origin.lo)
    ensures ChainStage(next, done[k].depth) == Some(LocationStage)
    ensures forall x :: Contains(done[k].origin, x) ==>
      Contains(reached[k], Point(next, ruleMap, x, done[k].depth)) && Contains(seedIv, x)
  {
    assert JobsAt(LocationStage, reached)[k] == Job(LocationStage, reached[k]);
    assert Origins(done)[k] == done[k].origin;
    forall x | Contains(done[k].origin, x) ensures Contains(seedIv, x) {
      OccurrencesPositive(Origins(done), k, x);
      assert Occurrences(Origins([]), x) == 0;
    }
  }

  /** Once no job is pending, `minmax` is the range of locations of the seed range. */
  lemma WorklistFinished(next: map<string, string>, ruleMap: map<string, seq<Rule>>, seedIv: Interval,
                         reached: seq<Interval>, done: seq<Trace>, minmax: Option<Interval>)
    requires WellFormed(seedIv) && Worklist(next, ruleMap, seedIv, [], [], reached, done, minmax)
    ensures minmax.Some?
    ensures exists depth :: LocationRange(next, ruleMap, seedIv, depth, minmax.value)
  {
    assert Occurrences(Origins([]), seedIv.lo) == 0;
    assert Occurrences(Origins(done), seedIv.lo) == 1;
    assert done != [];
    forall k | 0 <= k < |reached| ensures WellFormed(reached[k]) {
      DoneFacts(next, ruleMap, seedIv, reached, done, k);
    }
    HullBounds(reached);
    var h := minmax.value;
    var depth := done[0].depth;
    DoneFacts(next, ruleMap, seedIv, reached, done, 0);
    forall x | Contains(seedIv, x) ensures h.lo <= Point(next, ruleMap, x, depth) <= h.hi {
      assert Occurrences(Origins([]), x) == 0;
      OccurrencesWitness(Origins(done), x);
      var k :| 0 <= k < |done| && Contains(Origins(done)[k], x);
      DoneFacts(next, ruleMap, seedIv, reached, done, k);
      LocationDepthUnique(next, depth, done[k].depth);
    }
    var i :| 0 <= i < |reached| && reached[i].lo == h.lo;
    var j :| 0 <= j < |reached| && reached[j].hi == h.hi;
    DoneFacts(next, ruleMap, seedIv, reached, done, i);
    DoneFacts(next, ruleMap, seedIv, reached, done, j);
    LocationDepthUnique(next, depth, done[i].depth);
    LocationDepthUnique(next, depth, done[j].depth);
    assert JobsAt(LocationStage, reached)[i] == Job(LocationStage, reached[i]);
    assert JobsAt(LocationStage, reached)[j] == Job(LocationStage, reached[j]);
    assert Contains(done[i].origin, done[i].origin.lo) && Contains(done[j].origin, done[j].origin.hi);
    assert Contains(seedIv, done[j].origin.hi);
    assert LocationRange(next, ruleMap, seedIv, depth, h);
  }

  lemma WorklistStart(next: map<string, string>, ruleMap: map<string, seq<Rule>>, seedIv: Interval)
    requires WellFormed(seedIv)
    ensures Worklist(next, ruleMap, seedIv, [Job(SeedStage, seedIv)], [Trace(seedIv, 0, 0)], [], [], None)
  {
    forall x ensures Occurrences(Origins([Trace(seedIv, 0, 0)]), x) + Occurrences(Origins([]), x) == Indicator(seedIv, x) {
      assert Origins([Trace(seedIv, 0, 0)]) == [seedIv];
      OccurrencesSingle(seedIv, x);
    }
  }

  /** Every pending job waits at the chain's stage at its depth. */
  predicate Staged(next: map<string, string>, jobs: seq<Job>, depths: seq<nat>)
  {
    |depths| == |jobs| && forall k :: 0 <= k < |jobs| ==> ChainStage(next, depths[k]) == Some(jobs[k].stage)
  }

  /** Forwarding the pieces of a popped job to the next stage keeps every job on the chain. */
  lemma StagedExpand(next: map<string, string>, jobs: seq<Job>, depths: seq<nat>, mapped: seq<Interval>,
                     unmapped: seq<Interval>)
    requires Staged(next, jobs, depths) && jobs != []
    requires jobs[|jobs| - 1].stage != LocationStage && jobs[|jobs| - 1].stage in next
    ensures var dest, d := next[jobs[|jobs| - 1].stage], depths[|depths| - 1] + 1;
            Staged(next, jobs[..|jobs| - 1] + JobsAt(dest, mapped) + JobsAt(dest, unmapped),
                   depths[..|depths| - 1] + Depths(d, |mapped| + |unmapped|))
  {
    var dest, d := next[jobs[|jobs| - 1].stage], depths[|depths| - 1] + 1;
    assert ChainStage(next, d) == Some(dest);
    var jobs' := jobs[..|jobs| - 1] + JobsAt(dest, mapped) + JobsAt(dest, unmapped);
    var depths' := depths[..|depths| - 1] + Depths(d, |mapped| + |unmapped|);
    forall k | 0 <= k < |jobs'| ensures ChainStage(next, depths'[k]) == Some(jobs'[k].stage) {
      if k < |jobs| - 1 {
        assert jobs'[k] == jobs[k] && depths'[k] == depths[k];
      } else if k < |jobs| - 1 + |mapped| {
        assert jobs'[k] == JobsAt(dest, mapped)[k - (|jobs| - 1)];
      } else {
        assert jobs'[k] == JobsAt(dest, unmapped)[k - (|jobs| - 1) - |mapped|];
      }
    }
  }

  function Depths(d: nat, n: nat): (r: seq<nat>)
    ensures |r| == n && forall k :: 0 <= k < n ==> r[k] == d
  {
    seq(n, k => d)
  }

  /** A traced job holds a non-empty range. */
  lemma TracedWellFormed(next: map<string, string>, ruleMap: map<string, seq<Rule>>, job: Job, t: Trace)
    requires Traced(next, ruleMap, job, t)
    ensures WellFormed(job.interval)
  {
  }

  /**
   * `to_location`: pushes the seed range `(start, length)` through the stages, popping jobs from
   * the end of the list, and returns the smallest and largest location reached. Errors are the
   * `KeyError`s of a stage missing from `next` or from `ruleMap`, met on the chain from "seed";
   * `fuel` bounds the number of pops, since a cycle of stages would never reach "location".
   * The range of locations is promised for a non-empty seed range and rules of positive length.
   */
  method ToLocation(next: map<string, string>, ruleMap: map<string, seq<Rule>>, start: int, length: int, fuel: nat)
    returns (r: Result<Interval, AlmanacError>)
    ensures r.Ok? && length > 0 && (forall s :: s in ruleMap ==> PositiveRules(ruleMap[s])) ==>
      exists depth :: LocationRange(next, ruleMap, RangeToInterval(start, length), depth, r.value)
    ensures r.Err? ==> r.error.UnknownStage? || r.error.MissingRules? || r.error.OutOfFuel?
    ensures r.Err? && r.error.UnknownStage? ==>
      OnChain(next, r.error.name) && r.error.name != LocationStage && r.error.name !in next
    ensures r.Err? && r.error.MissingRules? ==>
      OnChain(next, r.error.name) && r.error.name != LocationStage && r.error.name in next && r.error.name !in ruleMap
  {
    ghost var good := length > 0 && forall s :: s in ruleMap ==> PositiveRules(ruleMap[s]);
    var seedIv := RangeToInterval(start, length);
    var jobs := [Job(SeedStage, seedIv)];
    var minmax: Option<Interval> := None;
    ghost var depths: seq<nat> := [0];
    ghost var traces := [Trace(seedIv, 0, 0)];
    ghost var reached: seq<Interval> := [];
    ghost var done: seq<Trace> := [];
    if good {
      WorklistStart(next, ruleMap, seedIv);
    }
    var steps := fuel;
    while jobs != []
      invariant Staged(next, jobs, depths)
      invariant minmax.Some? || jobs != []
      invariant good ==> Worklist(next, ruleMap, seedIv, jobs, traces, reached, done, minmax)
      decreases steps
    {
      if steps == 0 {
        return Err(OutOfFuel);
      }
      steps := steps - 1;
      var job := jobs[|jobs| - 1];
      if job.stage == LocationStage {
        if good {
          assert Traced(next, ruleMap, job, traces[|traces| - 1]);
          LocationStep(next, ruleMap, seedIv, jobs, traces, reached, done, minmax);
          reached, done := reached + [job.interval], done + [traces[|traces| - 1]];
          traces := traces[..|traces| - 1];
        }
        minmax := Some(MergeMinMax(minmax, job.interval));
        jobs, depths := jobs[..|jobs| - 1], depths[..|depths| - 1];
      } else {
        if job.stage !in next {
          assert ChainStage(next, depths[|depths| - 1]) == Some(job.stage);
          return Err(UnknownStage(job.stage));
        }
        var dest := next[job.stage];
        if job.stage !in ruleMap {
          assert ChainStage(next, depths[|depths| - 1]) == Some(job.stage);
          return Err(MissingRules(job.stage));
        }
        if good {
          TracedWellFormed(next, ruleMap, job, traces[|traces| - 1]);
        }
        var mapped, unmapped, origins, ruleOf := ApplyRules(ruleMap[job.stage], job.interval);
        if good {
          ExpandStep(next, ruleMap, seedIv, jobs, traces, reached, done, minmax, mapped, unmapped, origins, ruleOf);
          traces := traces[..|traces| - 1] + ForwardTraces(traces[|traces| - 1], mapped, origins)
            + ForwardTraces(traces[|traces| - 1], unmapped, unmapped);
        }
        StagedExpand(next, jobs, depths, mapped, unmapped);
        depths := depths[..|depths| - 1] + Depths(depths[|depths| - 1] + 1, |mapped| + |unmapped|);
        jobs := jobs[..|jobs| - 1] + JobsAt(dest, mapped) + JobsAt(dest, unmapped);
      }
    }
    if good {
      WorklistFinished(next, ruleMap, seedIv, reached, done, minmax);
    }
    return Ok(minmax.value);
  }

  /** The seed ranges of the second part: consecutive pairs `zip(seeds[::2], seeds[1::2])`. */
  function PairedSeeds(seeds: seq<int>): (r: seq<(int, int)>)
    ensures |r| == |seeds| / 2
    ensures forall i :: 0 <= i < |r| ==> r[i] == (seeds[2 * i], seeds[2 * i + 1])
  {
    if |seeds| < 2 then [] else [(seeds[0], seeds[1])] + PairedSeeds(seeds[2..])
  }

  /** The seed ranges of the first part: each seed alone, `(s, 1)`. */
  function SingleSeeds(seeds: seq<int>): (r: seq<(int, int)>)
    ensures |r| == |seeds| && forall i :: 0 <= i < |r| ==> r[i] == (seeds[i], 1)
  {
    seq(|seeds|, i requires 0 <= i < |seeds| => (seeds[i], 1))
  }

  /** Every integer of every seed range ends at a location no smaller than `m`, and one of them at `m`. */
  ghost predicate LeastLocation(next: map<string, string>, ruleMap: map<string, seq<Rule>>,
                                seedRanges: seq<(int, int)>, m: int)
  {
    exists depth ::
      && ChainStage(next, depth) == Some(LocationStage)
      && (forall i, x :: 0 <= i < |seedRanges| && Contains(RangeToInterval(seedRanges[i].0, seedRanges[i].1), x) ==>
            m <= Point(next, ruleMap, x, depth))
      && (exists i, x :: 0 <= i < |seedRanges| && Contains(RangeToInterval(seedRanges[i].0, seedRanges[i].1), x) &&
            Point(next, ruleMap, x, depth) == m)
  }

  /**
   * `min_location`: the least first component of `to_location` over the seed ranges, in order;
   * the first range whose `to_location` raises makes the whole call raise, and no range at all
   * is `min`'s `ValueError`.
   */
  method MinLocation(next: map<string, string>, ruleMap: map<string, seq<Rule>>, seedRanges: seq<(int, int)>,
                     fuel: nat)
    returns (r: Result<int, AlmanacError>)
    ensures seedRanges == [] <==> r == Err(NoSeeds)
    ensures r.Ok? && (forall i :: 0 <= i < |seedRanges| ==> seedRanges[i].1 > 0) &&
            (forall s :: s in ruleMap ==> PositiveRules(ruleMap[s])) ==>
      LeastLocation(next, ruleMap, seedRanges, r.value)
    ensures r.Err? && r.error.UnknownStage? ==>
      OnChain(next, r.error.name) && r.error.name != LocationStage && r.error.name !in next
    ensures r.Err? && r.error.MissingRules? ==>
      OnChain(next, r.error.name) && r.error.name != LocationStage && r.error.name in next && r.error.name !in ruleMap
  {
    if seedRanges == [] {
      return Err(NoSeeds);
    }
    ghost var good := (forall i :: 0 <= i < |seedRanges| ==> seedRanges[i].1 > 0) &&
                      (forall s :: s in ruleMap ==> PositiveRules(ruleMap[s]));
    var best: int := 0;
    ghost var depth: nat := 0;
    for i := 0 to |seedRanges|
      invariant good && i > 0 ==> ChainStage(next, depth) == Some(LocationStage)
      invariant good && i > 0 ==>
        forall j, x :: 0 <= j < i && Contains(RangeToInterval(seedRanges[j].0, seedRanges[j].1), x)
                       ==> best <= Point(next, ruleMap, x, depth)
      invariant good && i > 0 ==> exists j, x :: (&& 0 <= j < i
                                                  && Contains(RangeToInterval(seedRanges[j].0, seedRanges[j].1), x)
                                                  && Point(next, ruleMap, x, depth) == best)
    {
      var loc := ToLocation(next, ruleMap, seedRanges[i].0, seedRanges[i].1, fuel);
      if loc.Err? {
        return Err(loc.error);
      }
      var m := loc.value;
      if good {
        ghost var d :| LocationRange(next, ruleMap, RangeToInterval(seedRanges[i].0, seedRanges[i].1), d, m);
        if i > 0 {
          LocationDepthUnique(next, depth, d);
        }
        depth := d;
      }
      if i == 0 || m.lo < best {
        best := m.lo;
      }
    }
    return Ok(best);
  }
}
