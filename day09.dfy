/**
 * Mirage maintenance (day09): a history is extended at both ends by building rows of
 * differences until a row has no non-zero entry, then extending the rows from the bottom up.
 */
module Oasis {
  import opened Wrappers

  /** A `deque` of integers: its items, appended at either end in place. */
  class Deque {
    var items: seq<int>

    constructor (items: seq<int>)
      ensures this.items == items
    {
      this.items := items;
    }

    method Append(x: int)
      modifies this
      ensures items == old(items) + [x]
    {
      items := items + [x];
    }

    method AppendLeft(x: int)
      modifies this
      ensures items == [x] + old(items)
    {
      items := [x] + items;
    }
  }

  /** The row below `s`: one entry shorter, each entry the difference of two neighbours. */
  function Deltas(s: seq<int>): (r: seq<int>)
    ensures |r| == if s == [] then 0 else |s| - 1
  {
    if s == [] then [] else seq(|s| - 1, i requires 0 <= i < |s| - 1 => s[i + 1] - s[i])
  }

  /** `any(map(bool, row))`: the scan from the front finds a non-zero entry. */
  predicate AnyNonZero(s: seq<int>)
  {
    NonZeroFrom(s, 0)
  }

  predicate NonZeroFrom(s: seq<int>, i: nat)
    decreases |s| - i
  {
    i < |s| && (s[i] != 0 || NonZeroFrom(s, i + 1))
  }

  /** The scan from `i` finds a non-zero entry exactly when the row holds one at `i` or later. */
  lemma {:induction false} NonZeroFromAt(s: seq<int>, i: nat)
    ensures NonZeroFrom(s, i) <==> exists j :: i <= j < |s| && s[j] != 0
    decreases |s| - i
  {
    if i < |s| {
      NonZeroFromAt(s, i + 1);
    }
  }

  lemma AnyNonZeroAt(s: seq<int>)
    ensures AnyNonZero(s) <==> exists j :: 0 <= j < |s| && s[j] != 0
  {
    NonZeroFromAt(s, 0);
  }

  /**
   * The two values `extrapolate` returns for a row: a row with no non-zero entry gives its own
   * first and last entries; any other row gives its first entry minus the row below's first and
   * its last entry plus the row below's last. `None` is the `IndexError` of an empty row.
   */
  function Ends(s: seq<int>): (r: Option<(int, int)>)
    decreases |s|
  {
    if !AnyNonZero(s) then (if s == [] then None else Some((s[0], s[|s| - 1])))
    else
      var below := Ends(Deltas(s));
      if below.None? then None else Some((s[0] - below.value.0, s[|s| - 1] + below.value.1))
  }

  /** A row with its two extrapolated values added (a row that has none stays as it is). */
  function Extended(s: seq<int>): seq<int>
  {
    match Ends(s)
    case Some(p) => [p.0] + s + [p.1]
    case None => s
  }

  /** The extension is consistent: the row below the extended row is the extended row below. */
  lemma ExtendedDeltas(s: seq<int>)
    requires AnyNonZero(s) && Ends(s).Some?
    ensures Ends(Deltas(s)).Some?
    ensures Deltas(Extended(s)) == Extended(Deltas(s))
  {
    var d := Deltas(s);
    var e := Extended(s);
    var de := Extended(d);
    assert |Deltas(e)| == |de|;
    forall i | 0 <= i < |de| ensures Deltas(e)[i] == de[i] {
      if i == 0 {
      } else if i < |de| - 1 {
        assert e[i] == s[i - 1] && e[i + 1] == s[i];
      } else {
        assert e[i] == s[|s| - 1];
      }
    }
  }

  /** A single non-zero value has an empty row below it, and `extrapolate` fails on it. */
  lemma SingleFails(x: int)
    requires x != 0
    ensures Ends([x]) == None
  {
    assert AnyNonZero([x]) by {
      assert [x][0] != 0;
    }
    assert !AnyNonZero(Deltas([x]));
  }

  /** The `i`-th value of the progression starting at `a` with difference `step`. */
  function Term(a: int, step: int, i: int): int { a + i * step }

  /** A constant row of at least two values is extended by that value at each end. */
  lemma Constant(c: int, m: nat)
    requires m >= 2
    ensures Ends(seq(m, _ => c)).Some? && Ends(seq(m, _ => c)).value.0 == c && Ends(seq(m, _ => c)).value.1 == c
  {
    var s := seq(m, _ => c);
    var d := Deltas(s);
    assert d == seq(m - 1, _ => 0);
    AnyNonZeroAt(d);
    assert Ends(d).Some? && Ends(d).value.0 == 0 && Ends(d).value.1 == 0;
  }

  /** An arithmetic progression of at least three values is extended by one step at each end. */
  lemma Arithmetic(a: int, step: int, n: nat)
    requires n >= 3
    ensures var r := Ends(seq(n, i => Term(a, step, i))); r.Some? && r.value.0 == a - step && r.value.1 == Term(a, step, n)
  {
    var s := seq(n, i => Term(a, step, i));
    var d := Deltas(s);
    assert d == seq(n - 1, _ => step) by {
      forall i | 0 <= i < n - 1 ensures d[i] == step {
        TermNext(a, step, i);
      }
    }
    Constant(step, n - 1);
    TermNext(a, step, n - 1);
    if !AnyNonZero(s) {
      AnyNonZeroAt(s);
      assert s[0] == a && s[1] == a + step;
      assert a == 0 && step == 0;
      assert s[n - 1] == 0;
    }
  }

  lemma TermNext(a: int, step: int, i: int)
    ensures Term(a, step, i + 1) == Term(a, step, i) + step
  {
  }

  /** The rows `sequences` holds after the first loop: each is the row below the one before, and only the last has no non-zero entry. */
  ghost predicate DifferenceTable(rows: seq<seq<int>>)
  {
    && rows != []
    && (forall k :: 0 <= k < |rows| - 1 ==> AnyNonZero(rows[k]) && rows[k + 1] == Deltas(rows[k]))
  }

  datatype ExtrapolateError = EmptyRow  // indexing an empty deque raised IndexError

  /**
   * `extrapolate`: the values before and after the history. Once a row of differences was
   * built, the history itself gains the two values at its ends; on error nothing has changed.
   */
  method Extrapolate(history: Deque) returns (r: Result<(int, int), ExtrapolateError>)
    modifies history
    ensures r.Ok? <==> Ends(old(history.items)).Some?
    ensures r.Ok? ==> r.value == Ends(old(history.items)).value
    ensures history.items == if r.Ok? then Settled(old(history.items)) else old(history.items)
  {
    var sequences, rows := Differences(history);
    var n := |sequences|;
    if sequences[n - 1].items == [] {
      // The bottom row is read first: as an only row by `sequences[0][0]`, otherwise by `sequences[-1][-1]`.
      EndsChain(rows, 0);
      return Err(EmptyRow);
    }
    ghost var outs := ExtendRows(sequences, rows);
    GrownChain(rows, outs, 0);
    if n == 1 {
      EndsFlat(rows[0]);
    }
    r := Ok((history.items[0], history.items[|history.items| - 1]));
  }

  /** The first loop of `extrapolate`: new deques of differences below the history until one has no non-zero entry. */
  method Differences(history: Deque) returns (sequences: seq<Deque>, ghost rows: seq<seq<int>>)
    ensures DifferenceTable(rows) && !AnyNonZero(rows[|rows| - 1])
    ensures |sequences| == |rows| && sequences[0] == history && rows[0] == history.items
    ensures forall k :: 0 <= k < |rows| ==> sequences[k].items == rows[k]
    ensures forall k :: 0 < k < |rows| ==> fresh(sequences[k])
    ensures forall j, k :: 0 <= j < k < |rows| ==> sequences[j] != sequences[k]
  {
    sequences := [history];
    rows := [history.items];
    while AnyNonZero(sequences[|sequences| - 1].items)
      invariant DifferenceTable(rows) && |sequences| == |rows| && sequences[0] == history
      invariant forall k :: 0 <= k < |rows| ==> sequences[k].items == rows[k]
      invariant forall k :: 0 < k < |rows| ==> fresh(sequences[k])
      invariant forall j, k :: 0 <= j < k < |rows| ==> sequences[j] != sequences[k]
      invariant rows[0] == history.items
      decreases |rows[|rows| - 1]|
    {
      var last := sequences[|sequences| - 1].items;
      var below := new Deque(Deltas(last));
      sequences := sequences + [below];
      rows := rows + [Deltas(last)];
    }
  }

  /** `out` is `row` with the first value of `below` taken from its front and the last added to its back. */
  ghost predicate Grown(row: seq<int>, below: seq<int>, out: seq<int>)
  {
    row != [] && below != [] && out == [row[0] - below[0]] + row + [row[|row| - 1] + below[|below| - 1]]
  }

  /**
   * The second loop of `extrapolate`: from the bottom up, every row but the bottom one grows by
   * the ends of the (already grown) row below it. `outs` are the rows once the loop is done.
   */
  method ExtendRows(sequences: seq<Deque>, ghost rows: seq<seq<int>>) returns (ghost outs: seq<seq<int>>)
    requires |sequences| == |rows| && rows != [] && forall k :: 0 <= k < |rows| ==> rows[k] != []
    requires forall k :: 0 <= k < |rows| ==> sequences[k].items == rows[k]
    requires forall j, k :: 0 <= j < k < |rows| ==> sequences[j] != sequences[k]
    modifies set k | 0 <= k < |sequences| :: sequences[k]
    ensures |outs| == |rows| && outs[|rows| - 1] == rows[|rows| - 1]
    ensures forall k :: 0 <= k < |rows| ==> sequences[k].items == outs[k]
    ensures forall k :: 0 <= k < |rows| - 1 ==> Grown(rows[k], outs[k + 1], outs[k])
  {
    var n := |sequences|;
    var i := 2;
    while i <= n
      invariant 2 <= i <= n + 1
      invariant forall k :: n - i < k < n - 1 ==> Grown(rows[k], sequences[k + 1].items, sequences[k].items)
      invariant forall k :: 0 <= k < n && (k <= n - i || k == n - 1) ==> sequences[k].items == rows[k]
    {
      var t := n - i;
      var row, next := sequences[t], sequences[t + 1];
      assert next.items != [] by {
        if t + 1 < n - 1 {
          assert Grown(rows[t + 1], sequences[t + 2].items, next.items);
        }
      }
      ExtendRow(row, next);
      i := i + 1;
    }
    outs := seq(n, k requires 0 <= k < n reads set j | 0 <= j < n :: sequences[j] => sequences[k].items);
  }

  /** One step of the second loop: `row` gains its last value plus the last of `next`, then its first value less the first of `next`. */
  method ExtendRow(row: Deque, next: Deque)
    requires row != next && row.items != [] && next.items != []
    modifies row
    ensures Grown(old(row.items), next.items, row.items)
  {
    row.Append(row.items[|row.items| - 1] + next.items[|next.items| - 1]);
    row.AppendLeft(row.items[0] - next.items[0]);
  }

  /** Every row extends exactly when the bottom row is not empty. */
  lemma {:induction false} EndsChain(rows: seq<seq<int>>, k: nat)
    requires DifferenceTable(rows) && k < |rows| && !AnyNonZero(rows[|rows| - 1])
    ensures Ends(rows[k]).Some? <==> rows[|rows| - 1] != []
    decreases |rows| - k
  {
    if k < |rows| - 1 {
      EndsChain(rows, k + 1);
    }
  }

  /**
   * Growing the rows of a difference table from the bottom up computes `Ends` of each row: the
   * grown row starts and ends with the two extrapolated values, and is the extended row.
   */
  lemma {:induction false} GrownChain(rows: seq<seq<int>>, outs: seq<seq<int>>, k: nat)
    requires DifferenceTable(rows) && !AnyNonZero(rows[|rows| - 1]) && rows[|rows| - 1] != []
    requires |outs| == |rows| && outs[|rows| - 1] == rows[|rows| - 1] && k < |rows|
    requires forall j :: k <= j < |rows| - 1 ==> Grown(rows[j], outs[j + 1], outs[j])
    ensures Ends(rows[k]).Some? && outs[k] != []
    ensures outs[k][0] == Ends(rows[k]).value.0 && outs[k][|outs[k]| - 1] == Ends(rows[k]).value.1
    ensures k < |rows| - 1 ==> outs[k] == Extended(rows[k])
    decreases |rows| - k
  {
    if k == |rows| - 1 {
      EndsFlat(rows[k]);
    } else {
      GrownChain(rows, outs, k + 1);
      var below := outs[k + 1];
      assert AnyNonZero(rows[k]) && rows[k + 1] == Deltas(rows[k]);
      ExtendStep(rows[k]);
      assert Grown(rows[k], below, outs[k]);
    }
  }

  /** A non-empty row with no non-zero entry extends by its own end values. */
  lemma EndsFlat(s: seq<int>)
    requires !AnyNonZero(s) && s != []
    ensures Ends(s).Some? && Ends(s).value.0 == s[0] && Ends(s).value.1 == s[|s| - 1]
  {
  }

  /** A row with a non-zero entry extends by its ends less and plus those of the row below. */
  lemma ExtendStep(s: seq<int>)
    requires AnyNonZero(s) && Ends(Deltas(s)).Some?
    ensures Ends(s).Some? && Ends(s).value.0 == s[0] - Ends(Deltas(s)).value.0 && Ends(s).value.1 == s[|s| - 1] + Ends(Deltas(s)).value.1
  {
  }

  /** What `extrapolate` leaves in a history: the extended row once it has been extended, the row itself otherwise. */
  function Settled(s: seq<int>): seq<int>
  {
    if AnyNonZero(s) then Extended(s) else s
  }

  /** `extrapolate` on each row, as values. */
  function EndsOf(rows: seq<seq<int>>): (r: seq<Option<(int, int)>>)
    ensures |r| == |rows| && forall k :: 0 <= k < |rows| ==> r[k] == Ends(rows[k])
  {
    seq(|rows|, k requires 0 <= k < |rows| => Ends(rows[k]))
  }

  /**
   * The list `[extrapolate(history) for history in histories]`, or the error of the first
   * history `extrapolate` fails on.
   */
  function Collect(ends: seq<Option<(int, int)>>): (r: Result<seq<(int, int)>, ExtrapolateError>)
  {
    if ends == [] then Ok([])
    else
      var init := Collect(ends[..|ends| - 1]);
      var last := ends[|ends| - 1];
      if init.Err? then init
      else if last.None? then Err(EmptyRow)
      else Ok(init.value + [last.value])
  }

  /** The list fails exactly when one of the histories cannot be extrapolated. */
  lemma {:induction false} CollectFails(ends: seq<Option<(int, int)>>)
    ensures Collect(ends).Err? <==> None in ends
    ensures Collect(ends).Err? ==> Collect(ends) == Err(EmptyRow)
  {
    if ends != [] {
      var init := ends[..|ends| - 1];
      CollectFails(init);
      assert ends == init + [ends[|ends| - 1]];
    }
  }

  /** Otherwise it holds the pair of each history, in order. */
  lemma {:induction false} CollectValues(ends: seq<Option<(int, int)>>)
    requires Collect(ends).Ok?
    ensures |Collect(ends).value| == |ends|
    ensures forall k :: 0 <= k < |ends| ==> ends[k].Some? && ends[k].value == Collect(ends).value[k]
  {
    if ends != [] {
      CollectValues(ends[..|ends| - 1]);
    }
  }

  /** `sum(map(itemgetter(0), pairs))` and `sum(map(itemgetter(1), pairs))`. */
  function Totals(pairs: seq<(int, int)>): (int, int)
  {
    if pairs == [] then (0, 0)
    else
      var init := Totals(pairs[..|pairs| - 1]);
      (init.0 + pairs[|pairs| - 1].0, init.1 + pairs[|pairs| - 1].1)
  }

  /** The totals of two lists one after the other add up. */
  lemma {:induction false} TotalsConcat(a: seq<(int, int)>, b: seq<(int, int)>)
    ensures Totals(a + b) == (Totals(a).0 + Totals(b).0, Totals(a).1 + Totals(b).1)
  {
    if b == [] {
      assert a + b == a;
    } else {
      assert (a + b)[..|a + b| - 1] == a + b[..|b| - 1];
      TotalsConcat(a, b[..|b| - 1]);
    }
  }

  /** `pairs` holds what `extrapolate` returned for the first histories. */
  ghost predicate Returned(start: seq<seq<int>>, pairs: seq<(int, int)>)
  {
    |pairs| <= |start| && forall k :: 0 <= k < |pairs| ==> Ends(start[k]).Some? && Ends(start[k]).value == pairs[k]
  }

  lemma ReturnedMore(start: seq<seq<int>>, pairs: seq<(int, int)>, v: (int, int))
    requires Returned(start, pairs) && |pairs| < |start| && Ends(start[|pairs|]).Some? && Ends(start[|pairs|]).value == v
    ensures Returned(start, pairs + [v])
  {
    var more := pairs + [v];
    forall k | 0 <= k < |more| ensures Ends(start[k]).Some? && Ends(start[k]).value == more[k] {
      if k < |pairs| {
        assert more[k] == pairs[k];
      }
    }
  }

  /** Once every history has returned, the list is `Collect` of them all. */
  lemma {:induction false} ReturnedAll(start: seq<seq<int>>, pairs: seq<(int, int)>)
    requires Returned(start, pairs) && |pairs| == |start|
    ensures Collect(EndsOf(start)) == Ok(pairs)
    decreases |pairs|
  {
    if pairs != [] {
      var n := |pairs| - 1;
      ReturnedAll(start[..n], pairs[..n]);
      assert EndsOf(start)[..n] == EndsOf(start[..n]);
      assert pairs == pairs[..n] + [pairs[n]];
    }
  }

  /** A history `extrapolate` fails on makes the whole list fail. */
  lemma ReturnedFail(start: seq<seq<int>>, pairs: seq<(int, int)>)
    requires Returned(start, pairs) && |pairs| < |start| && Ends(start[|pairs|]).None?
    ensures Collect(EndsOf(start)) == Err(EmptyRow)
  {
    var all := EndsOf(start);
    assert all[|pairs|].None?;
    CollectFails(all);
  }

  /** `done` holds what `extrapolate` left in the first histories. */
  ghost predicate SettledPrefix(start: seq<seq<int>>, done: seq<seq<int>>)
  {
    |done| <= |start| && forall k :: 0 <= k < |done| ==> done[k] == Settled(start[k])
  }

  lemma SettledMore(start: seq<seq<int>>, done: seq<seq<int>>, s: seq<int>)
    requires SettledPrefix(start, done) && |done| < |start| && s == Settled(start[|done|])
    ensures SettledPrefix(start, done + [s])
  {
    var more := done + [s];
    forall k | 0 <= k < |more| ensures more[k] == Settled(start[k]) {
      if k < |done| {
        assert more[k] == done[k];
      }
    }
  }

  /** The rows the histories hold. */
  ghost function Contents(histories: seq<Deque>): (r: seq<seq<int>>)
    reads set h | h in histories
    ensures |r| == |histories| && forall k :: 0 <= k < |histories| ==> r[k] == histories[k].items
  {
    seq(|histories|, k requires 0 <= k < |histories| reads set h | h in histories => histories[k].items)
  }

  /**
   * The list comprehension of `extrapolate_sum`: extrapolates each history in turn. On success
   * every history has been through `extrapolate`; an error stops the walk. The histories are
   * required to be distinct objects, as `parse_input` builds a fresh deque for every line.
   */
  method ExtrapolateAll(histories: seq<Deque>) returns (r: Result<seq<(int, int)>, ExtrapolateError>)
    requires forall j, k :: 0 <= j < k < |histories| ==> histories[j] != histories[k]
    modifies set h | h in histories
    ensures r == Collect(EndsOf(old(Contents(histories))))
    ensures r.Ok? ==> forall k :: 0 <= k < |histories| ==> histories[k].items == Settled(old(histories[k].items))
    ensures r.Err? ==>
      exists i :: (&& 0 <= i < |histories| && Ends(old(histories[i].items)).None?
                   && (forall k :: 0 <= k < i ==> histories[k].items == Settled(old(histories[k].items)))
                   && (forall k :: i <= k < |histories| ==> histories[k].items == old(histories[k].items)))
  {
    ghost var start := Contents(histories);
    ghost var done: seq<seq<int>> := [];
    var pairs: seq<(int, int)> := [];
    var i := 0;
    while i < |histories|
      invariant 0 <= i <= |histories| && |start| == |histories|
      invariant forall k :: 0 <= k < |histories| ==> start[k] == old(histories[k].items)
      invariant |pairs| == i && Returned(start, pairs)
      invariant |done| == i && forall k :: 0 <= k < i ==> histories[k].items == done[k]
      invariant SettledPrefix(start, done)
      invariant forall k :: i <= k < |histories| ==> histories[k].items == start[k]
    {
      var h := histories[i];
      assert h.items == start[i];
      label before:
      var e := Extrapolate(h);
      assert forall k :: 0 <= k < |histories| && k != i ==> histories[k].items == old@before(histories[k].items);
      if e.Err? {
        ReturnedFail(start, pairs);
        assert Ends(old(histories[i].items)).None?;
        assert forall k :: 0 <= k < i ==> histories[k].items == Settled(old(histories[k].items));
        assert forall k :: i <= k < |histories| ==> histories[k].items == old(histories[k].items);
        return Err(EmptyRow);
      }
      ReturnedMore(start, pairs, e.value);
      SettledMore(start, done, h.items);
      pairs := pairs + [e.value];
      done := done + [h.items];
      i := i + 1;
    }
    ReturnedAll(start, pairs);
    r := Ok(pairs);
  }

  /** `extrapolate_sum`: the sums of the values before and after the histories. */
  method ExtrapolateSum(histories: seq<Deque>) returns (r: Result<(int, int), ExtrapolateError>)
    requires forall j, k :: 0 <= j < k < |histories| ==> histories[j] != histories[k]
    modifies set h | h in histories
    ensures r.Err? <==> None in EndsOf(old(Contents(histories)))
    ensures r.Ok? ==> Collect(EndsOf(old(Contents(histories)))).Ok? && r.value == Totals(Collect(EndsOf(old(Contents(histories)))).value)
    ensures r.Ok? ==> forall k :: 0 <= k < |histories| ==> histories[k].items == Settled(old(histories[k].items))
    ensures r.Err? ==>
      exists i :: (&& 0 <= i < |histories| && Ends(old(histories[i].items)).None?
                   && (forall k :: 0 <= k < i ==> histories[k].items == Settled(old(histories[k].items)))
                   && (forall k :: i <= k < |histories| ==> histories[k].items == old(histories[k].items)))
  {
    ghost var ends := EndsOf(Contents(histories));
    CollectFails(ends);
    var all := ExtrapolateAll(histories);
    if all.Err? {
      return Err(all.error);
    }
    r := Ok(Totals(all.value));
  }
}
