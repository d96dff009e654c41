/**
 * Gear ratios (day03): the numbers of an engine schematic that touch a symbol, and the gears:
 * the `*` symbols touching exactly two numbers, with the product of those numbers.
 */
module Schematic {
  import opened Wrappers
  import opened Text

  /** A position as (row, column). */
  type Pos = (int, int)

  /** A reported neighbour: its position and its character. */
  type Found = (Pos, char)

  /** Indexing a row above or below a number past its end raises. */
  datatype ScanError = ShortRow(row: int)

  /** The regular expression `(?![.0-9]).`: any character but a dot, a digit or a newline. */
  predicate IsSymbol(c: char) { c != '.' && !IsDigit(c) && c != '\n' }

  // ---------------------------------------------------------------------------------------
  // Digit runs (`re.finditer(r"[0-9]+", row)`)

  /** The end of the digit run that starts at or continues through `i`. */
  function RunEnd(row: string, i: nat): (e: nat)
    requires i <= |row|
    ensures i <= e <= |row| && (e == |row| || !IsDigit(row[e]))
    ensures forall k :: i <= k < e ==> IsDigit(row[k])
    decreases |row| - i
  {
    if i == |row| || !IsDigit(row[i]) then i else RunEnd(row, i + 1)
  }

  /** The maximal digit runs of `row[i..]`, as half-open column spans, left to right. */
  function RunsFrom(row: string, i: nat): seq<(nat, nat)>
    requires i <= |row|
    decreases |row| - i
  {
    if i == |row| then []
    else if !IsDigit(row[i]) then RunsFrom(row, i + 1)
    else
      var e := RunEnd(row, i);
      [(i, e)] + RunsFrom(row, e)
  }

  function Runs(row: string): seq<(nat, nat)>
  {
    RunsFrom(row, 0)
  }

  /** A run of digits that cannot be extended either way. */
  predicate MaximalRun(row: string, s: nat, e: nat)
  {
    && s < e <= |row|
    && (forall k :: s <= k < e ==> IsDigit(row[k]))
    && (s == 0 || !IsDigit(row[s - 1]))
    && (e == |row| || !IsDigit(row[e]))
  }

  /**
   * Scanning from a run boundary finds maximal runs, left to right and separated by at least
   * one other character, and every digit from `i` on lies in one of them.
   */
  lemma {:induction false} RunsFromFacts(row: string, i: nat)
    requires i <= |row| && (i == 0 || i == |row| || !IsDigit(row[i - 1]) || !IsDigit(row[i]))
    ensures forall k :: 0 <= k < |RunsFrom(row, i)| ==>
      i <= RunsFrom(row, i)[k].0 && MaximalRun(row, RunsFrom(row, i)[k].0, RunsFrom(row, i)[k].1)
    ensures forall k :: 0 <= k < |RunsFrom(row, i)| - 1 ==> RunsFrom(row, i)[k].1 < RunsFrom(row, i)[k + 1].0
    ensures forall p :: i <= p < |row| && IsDigit(row[p]) ==>
      exists k :: 0 <= k < |RunsFrom(row, i)| && RunsFrom(row, i)[k].0 <= p < RunsFrom(row, i)[k].1
    decreases |row| - i
  {
    if i < |row| {
      if !IsDigit(row[i]) {
        RunsFromFacts(row, i + 1);
        assert RunsFrom(row, i) == RunsFrom(row, i + 1);
      } else {
        var e := RunEnd(row, i);
        var rest := RunsFrom(row, e);
        RunsFromFacts(row, e);
        var r := RunsFrom(row, i);
        assert r == [(i, e)] + rest;
        assert forall k :: 1 <= k < |r| ==> r[k] == rest[k - 1];
        forall p | i <= p < |row| && IsDigit(row[p])
          ensures exists k :: 0 <= k < |r| && r[k].0 <= p < r[k].1
        {
          if p < e {
            assert r[0].0 <= p < r[0].1;
          } else {
            var k :| 0 <= k < |rest| && rest[k].0 <= p < rest[k].1;
            assert r[k + 1].0 <= p < r[k + 1].1;
          }
        }
      }
    }
  }

  /** The value of a run: `int(match.group())`. */
  function RunValue(row: string, s: nat, e: nat): nat
    requires s <= e <= |row| && forall k :: s <= k < e ==> IsDigit(row[k])
  {
    NatOf(row[s..e])
  }

  // ---------------------------------------------------------------------------------------
  // Neighbour symbols

  /** One inspected row segment: row, first column and last column (inclusive). */
  type Window = (int, int, int)

  /** The four segments `neighbor_symbols` inspects around the span [start, end) of row r. */
  function Windows(schematic: seq<string>, r: nat, start: nat, end: nat): seq<Window>
    requires r < |schematic|
  {
    var width := |schematic[r]|;
    var lo := if start >= 1 then start - 1 else 0;
    var hi := if end <= width - 1 then end else width - 1;
    [(r, lo, start - 1), (r, end, hi), (r - 1, lo, hi), (r + 1, lo, hi)]
  }

  /** The symbols of columns lo..j-1 of one row, left to right; a column past the row raises. */
  function ScanTo(schematic: seq<string>, row: nat, lo: nat, j: nat): Result<seq<Found>, ScanError>
    requires row < |schematic| && lo <= j
    decreases j
  {
    if j == lo then Ok([])
    else match ScanTo(schematic, row, lo, j - 1)
      case Err(e) => Err(e)
      case Ok(found) =>
        if j - 1 >= |schematic[row]| then Err(ShortRow(row))
        else
          var c := schematic[row][j - 1];
          Ok(found + if IsSymbol(c) then [((row, j - 1), c)] else [])
  }

  /** One segment: skipped when empty or outside the schematic, otherwise scanned. */
  function ScanWindow(schematic: seq<string>, w: Window): Result<seq<Found>, ScanError>
    requires w.1 >= 0
  {
    if w.2 < w.1 || w.0 < 0 || |schematic| <= w.0 then Ok([])
    else ScanTo(schematic, w.0, w.1, w.2 + 1)
  }

  /** The symbols of the first n segments, in order; the first segment that raises decides. */
  function Collect(schematic: seq<string>, ws: seq<Window>, n: nat): Result<seq<Found>, ScanError>
    requires n <= |ws| && forall k :: 0 <= k < |ws| ==> ws[k].1 >= 0
  {
    if n == 0 then Ok([])
    else match Collect(schematic, ws, n - 1)
      case Err(e) => Err(e)
      case Ok(found) =>
        match ScanWindow(schematic, ws[n - 1])
        case Err(e) => Err(e)
        case Ok(more) => Ok(found + more)
  }

  /** What `neighbor_symbols` returns for the run at [start, end) of row r. */
  function NeighborSpec(schematic: seq<string>, r: nat, start: nat, end: nat): Result<seq<Found>, ScanError>
    requires r < |schematic|
  {
    Collect(schematic, Windows(schematic, r, start, end), 4)
  }

  /**
   * `neighbor_symbols`: for each segment in turn, every column from its first to its last
   * is read and each symbol is appended with its position.
   */
  method NeighborSymbols(schematic: seq<string>, r: nat, start: nat, end: nat) returns (res: Result<seq<Found>, ScanError>)
    requires r < |schematic|
    ensures res == NeighborSpec(schematic, r, start, end)
  {
    var ws := Windows(schematic, r, start, end);
    var symbols: seq<Found> := [];
    for w := 0 to 4
      invariant Collect(schematic, ws, w) == Ok(symbols)
    {
      var (row, lo, hi) := ws[w];
      if hi < lo || row < 0 || |schematic| <= row {
        assert symbols + [] == symbols;
        continue;
      }
      var more := ScanSegment(schematic, row, lo, hi);
      if more.Err? {
        CollectStaysErr(schematic, ws, w + 1, 4);
        return Err(more.error);
      }
      symbols := symbols + more.value;
    }
    return Ok(symbols);
  }

  /** The inner loop of `neighbor_symbols`: columns lo..hi of one row. */
  method ScanSegment(schematic: seq<string>, row: nat, lo: nat, hi: nat) returns (res: Result<seq<Found>, ScanError>)
    requires row < |schematic| && lo <= hi
    ensures res == ScanTo(schematic, row, lo, hi + 1)
  {
    var found: seq<Found> := [];
    for i := lo to hi + 1
      invariant ScanTo(schematic, row, lo, i) == Ok(found)
    {
      if i >= |schematic[row]| {
        ScanToStaysErr(schematic, row, lo, i + 1, hi + 1);
        return Err(ShortRow(row));
      }
      var c := schematic[row][i];
      assert ScanTo(schematic, row, lo, i + 1) == Ok(found + if IsSymbol(c) then [((row, i), c)] else []);
      if IsSymbol(c) {
        found := found + [((row, i), c)];
      } else {
        assert found + [] == found;
      }
    }
    return Ok(found);
  }

  /** Once a segment raises, scanning further columns raises the same error. */
  lemma {:induction false} ScanToStaysErr(schematic: seq<string>, row: nat, lo: nat, j: nat, m: nat)
    requires row < |schematic| && lo <= j <= m && ScanTo(schematic, row, lo, j).Err?
    ensures ScanTo(schematic, row, lo, m) == ScanTo(schematic, row, lo, j)
    decreases m
  {
    if m > j {
      ScanToStaysErr(schematic, row, lo, j, m - 1);
    }
  }

  /** Once a segment raises, the later segments are not read. */
  lemma {:induction false} CollectStaysErr(schematic: seq<string>, ws: seq<Window>, n: nat, m: nat)
    requires n <= m <= |ws| && forall k :: 0 <= k < |ws| ==> ws[k].1 >= 0
    requires Collect(schematic, ws, n).Err?
    ensures Collect(schematic, ws, m) == Collect(schematic, ws, n)
    decreases m
  {
    if m > n {
      CollectStaysErr(schematic, ws, n, m - 1);
    }
  }

  /** Whether (row, col) lies in segment w. */
  predicate InWindow(w: Window, row: int, col: int)
  {
    row == w.0 && w.1 <= col <= w.2
  }

  /** A scanned segment reports exactly the symbols in its columns; it raises only past the row. */
  lemma {:induction false} ScanToMeaning(schematic: seq<string>, row: nat, lo: nat, j: nat)
    requires row < |schematic| && lo <= j
    ensures ScanTo(schematic, row, lo, j).Err? <==> j > |schematic[row]| && j > lo
    ensures ScanTo(schematic, row, lo, j).Ok? ==> forall f :: f in ScanTo(schematic, row, lo, j).value <==>
      (&& f.0.0 == row && lo <= f.0.1 < j && f.0.1 < |schematic[row]|
       && f.1 == schematic[row][f.0.1] && IsSymbol(f.1))
    decreases j
  {
    if j > lo {
      ScanToMeaning(schematic, row, lo, j - 1);
    }
  }

  /**
   * A segment reports exactly the symbols at its positions; it raises exactly when it is a
   * non-empty segment of an existing row that reaches past that row's end.
   */
  lemma ScanWindowMeaning(schematic: seq<string>, w: Window)
    requires w.1 >= 0
    ensures ScanWindow(schematic, w).Err? <==>
      w.1 <= w.2 && 0 <= w.0 < |schematic| && w.2 >= |schematic[w.0]|
    ensures ScanWindow(schematic, w).Ok? ==> forall f :: f in ScanWindow(schematic, w).value <==>
      (&& InWindow(w, f.0.0, f.0.1) && 0 <= f.0.0 < |schematic| && 0 <= f.0.1 < |schematic[f.0.0]|
       && f.1 == schematic[f.0.0][f.0.1] && IsSymbol(f.1))
  {
    if !(w.2 < w.1 || w.0 < 0 || |schematic| <= w.0) {
      ScanToMeaning(schematic, w.0, w.1, w.2 + 1);
    }
  }

  /** The first n segments together report the symbols of their union; any one raising raises. */
  lemma {:induction false} CollectMeaning(schematic: seq<string>, ws: seq<Window>, n: nat)
    requires n <= |ws| && forall k :: 0 <= k < |ws| ==> ws[k].1 >= 0
    ensures Collect(schematic, ws, n).Err? <==> exists k :: 0 <= k < n && ScanWindow(schematic, ws[k]).Err?
    ensures Collect(schematic, ws, n).Ok? ==> forall f :: f in Collect(schematic, ws, n).value <==>
      (&& (exists k :: 0 <= k < n && InWindow(ws[k], f.0.0, f.0.1))
       && 0 <= f.0.0 < |schematic| && 0 <= f.0.1 < |schematic[f.0.0]|
       && f.1 == schematic[f.0.0][f.0.1] && IsSymbol(f.1))
  {
    if n > 0 {
      CollectMeaning(schematic, ws, n - 1);
      ScanWindowMeaning(schematic, ws[n - 1]);
    }
  }

  /**
   * The neighbourhood of the run [start, end) of row r: the cell before it and the cell after
   * it in its own row, and the columns start-1..end of the rows above and below, all clipped
   * to the columns of row r.
   */
  predicate Adjacent(schematic: seq<string>, r: nat, start: nat, end: nat, row: int, col: int)
    requires r < |schematic|
  {
    var width := |schematic[r]|;
    && 0 <= col < width && start - 1 <= col <= end
    && (row == r - 1 || row == r + 1 || (row == r && (col == start - 1 || col == end)))
  }

  /** The four segments cover exactly the neighbourhood of the run. */
  lemma WindowsAdjacent(schematic: seq<string>, r: nat, start: nat, end: nat, row: int, col: int)
    requires r < |schematic| && start < end <= |schematic[r]|
    ensures (exists k :: 0 <= k < 4 && InWindow(Windows(schematic, r, start, end)[k], row, col)) <==>
      Adjacent(schematic, r, start, end, row, col)
  {
    var ws := Windows(schematic, r, start, end);
    if Adjacent(schematic, r, start, end, row, col) {
      if row == r - 1 {
        assert InWindow(ws[2], row, col);
      } else if row == r + 1 {
        assert InWindow(ws[3], row, col);
      } else if col == start - 1 {
        assert InWindow(ws[0], row, col);
      } else {
        assert InWindow(ws[1], row, col);
      }
    }
  }

  /** The row above or below the run is shorter than the last column read from it. */
  predicate ShortBelow(schematic: seq<string>, r: nat, end: nat, row: nat)
    requires r < |schematic| && row < |schematic|
  {
    var width := |schematic[r]|;
    var hi := if end <= width - 1 then end else width - 1;
    hi >= |schematic[row]|
  }

  /**
   * `neighbor_symbols` reports exactly the symbols adjacent to the run, each with its
   * position; it raises exactly when the row above or below is too short for the columns
   * read from it.
   */
  lemma NeighborMeaning(schematic: seq<string>, r: nat, start: nat, end: nat)
    requires r < |schematic| && start < end <= |schematic[r]|
    ensures NeighborSpec(schematic, r, start, end).Err? <==>
      (r >= 1 && ShortBelow(schematic, r, end, r - 1)) || (r + 1 < |schematic| && ShortBelow(schematic, r, end, r + 1))
    ensures NeighborSpec(schematic, r, start, end).Ok? ==> forall f :: f in NeighborSpec(schematic, r, start, end).value <==>
      (&& Adjacent(schematic, r, start, end, f.0.0, f.0.1)
       && 0 <= f.0.0 < |schematic| && 0 <= f.0.1 < |schematic[f.0.0]|
       && f.1 == schematic[f.0.0][f.0.1] && IsSymbol(f.1))
  {
    var ws := Windows(schematic, r, start, end);
    CollectMeaning(schematic, ws, 4);
    ScanWindowMeaning(schematic, ws[0]);
    ScanWindowMeaning(schematic, ws[1]);
    ScanWindowMeaning(schematic, ws[2]);
    ScanWindowMeaning(schematic, ws[3]);
    forall row: int, col: int {
      WindowsAdjacent(schematic, r, start, end, row, col);
    }
  }

  /** No position is reported twice. */
  predicate Distinct(found: seq<Found>)
  {
    forall a, b :: 0 <= a < b < |found| ==> found[a].0 != found[b].0
  }

  /** A segment reports its symbols left to right, so no position twice. */
  lemma {:induction false} ScanToDistinct(schematic: seq<string>, row: nat, lo: nat, j: nat)
    requires row < |schematic| && lo <= j && ScanTo(schematic, row, lo, j).Ok?
    ensures forall a, b :: 0 <= a < b < |ScanTo(schematic, row, lo, j).value| ==>
      ScanTo(schematic, row, lo, j).value[a].0.1 < ScanTo(schematic, row, lo, j).value[b].0.1
    ensures Distinct(ScanTo(schematic, row, lo, j).value)
    decreases j
  {
    if j > lo {
      ScanToDistinct(schematic, row, lo, j - 1);
      ScanToMeaning(schematic, row, lo, j - 1);
      var front := ScanTo(schematic, row, lo, j - 1).value;
      assert forall a :: 0 <= a < |front| ==> front[a] in front;
    }
  }

  lemma DistinctConcat(a: seq<Found>, b: seq<Found>)
    requires Distinct(a) && Distinct(b)
    requires forall x, y :: x in a && y in b ==> x.0 != y.0
    ensures Distinct(a + b)
  {
    forall i, j | 0 <= i < j < |a + b| ensures (a + b)[i].0 != (a + b)[j].0 {
      if j < |a| {
      } else if i >= |a| {
        assert (a + b)[i] == b[i - |a|] && (a + b)[j] == b[j - |a|];
      } else {
        assert (a + b)[i] in a && (a + b)[j] in b;
      }
    }
  }

  /** The four segments share no position, so `neighbor_symbols` reports each one once. */
  lemma NeighborDistinct(schematic: seq<string>, r: nat, start: nat, end: nat)
    requires r < |schematic| && start < end <= |schematic[r]|
    requires NeighborSpec(schematic, r, start, end).Ok?
    ensures Distinct(NeighborSpec(schematic, r, start, end).value)
  {
    var ws := Windows(schematic, r, start, end);
    var s0, s1, s2, s3 := ScanWindow(schematic, ws[0]), ScanWindow(schematic, ws[1]), ScanWindow(schematic, ws[2]), ScanWindow(schematic, ws[3]);
    CollectStaysErrAt(schematic, ws);
    assert s0.Ok? && s1.Ok? && s2.Ok? && s3.Ok?;
    assert Collect(schematic, ws, 1) == Ok([] + s0.value);
    assert Collect(schematic, ws, 2) == Ok([] + s0.value + s1.value);
    assert Collect(schematic, ws, 3) == Ok([] + s0.value + s1.value + s2.value);
    assert NeighborSpec(schematic, r, start, end).value == [] + s0.value + s1.value + s2.value + s3.value;
    WindowDistinct(schematic, ws[0]);
    WindowDistinct(schematic, ws[1]);
    WindowDistinct(schematic, ws[2]);
    WindowDistinct(schematic, ws[3]);
    ScanWindowMeaning(schematic, ws[0]);
    ScanWindowMeaning(schematic, ws[1]);
    ScanWindowMeaning(schematic, ws[2]);
    ScanWindowMeaning(schematic, ws[3]);
    DistinctConcat([], s0.value);
    assert [] + s0.value == s0.value;
    DistinctConcat(s0.value, s1.value);
    DistinctConcat(s0.value + s1.value, s2.value);
    DistinctConcat(s0.value + s1.value + s2.value, s3.value);
  }

  /** Collecting succeeds only when every one of the four segments does. */
  lemma CollectStaysErrAt(schematic: seq<string>, ws: seq<Window>)
    requires |ws| == 4 && forall k :: 0 <= k < 4 ==> ws[k].1 >= 0
    requires Collect(schematic, ws, 4).Ok?
    ensures forall k :: 0 <= k < 4 ==> ScanWindow(schematic, ws[k]).Ok?
  {
    CollectMeaning(schematic, ws, 4);
  }

  lemma WindowDistinct(schematic: seq<string>, w: Window)
    requires w.1 >= 0 && ScanWindow(schematic, w).Ok?
    ensures Distinct(ScanWindow(schematic, w).value)
  {
    if !(w.2 < w.1 || w.0 < 0 || |schematic| <= w.0) {
      ScanToDistinct(schematic, w.0, w.1, w.2 + 1);
    }
  }

  // ---------------------------------------------------------------------------------------
  // Part numbers and gears

  /** A number of the schematic: its row and the half-open span of its digits. */
  type Number = (nat, nat, nat)

  predicate ValidNumber(schematic: seq<string>, o: Number)
  {
    o.0 < |schematic| && MaximalRun(schematic[o.0], o.1, o.2)
  }

  predicate AllValid(schematic: seq<string>, ns: seq<Number>)
  {
    forall o :: o in ns ==> ValidNumber(schematic, o)
  }

  /** The numbers of row r, left to right. */
  function RowNumbers(schematic: seq<string>, r: nat): (ns: seq<Number>)
    requires r < |schematic|
    ensures AllValid(schematic, ns) && |ns| == |Runs(schematic[r])|
    ensures forall k :: 0 <= k < |ns| ==> ns[k] == (r, Runs(schematic[r])[k].0, Runs(schematic[r])[k].1)
  {
    var runs := Runs(schematic[r]);
    RunsFromFacts(schematic[r], 0);
    seq(|runs|, k requires 0 <= k < |runs| => (r, runs[k].0, runs[k].1))
  }

  /** The numbers of the first n rows, row by row and left to right within a row. */
  function NumbersUpTo(schematic: seq<string>, n: nat): (ns: seq<Number>)
    requires n <= |schematic|
    ensures AllValid(schematic, ns)
  {
    if n == 0 then [] else NumbersUpTo(schematic, n - 1) + RowNumbers(schematic, n - 1)
  }

  /** The numbers read so far when the scan is at number k of row r. */
  function Done(schematic: seq<string>, r: nat, k: nat): (ns: seq<Number>)
    requires r < |schematic| && k <= |RowNumbers(schematic, r)|
    ensures AllValid(schematic, ns)
  {
    var row := RowNumbers(schematic, r);
    assert forall o :: o in row[..k] ==> o in row;
    NumbersUpTo(schematic, r) + row[..k]
  }

  function Value(schematic: seq<string>, o: Number): nat
    requires ValidNumber(schematic, o)
  {
    RunValue(schematic[o.0], o.1, o.2)
  }

  /** The values of the numbers that touch a symbol, in order; the first raise decides. */
  function PartsOf(schematic: seq<string>, ns: seq<Number>): Result<seq<nat>, ScanError>
    requires AllValid(schematic, ns)
  {
    if ns == [] then Ok([])
    else
      var o := ns[|ns| - 1];
      assert o in ns;
      match PartsOf(schematic, ns[..|ns| - 1])
      case Err(e) => Err(e)
      case Ok(parts) =>
        match NeighborSpec(schematic, o.0, o.1, o.2)
        case Err(e) => Err(e)
        case Ok(found) => Ok(parts + if found != [] then [Value(schematic, o)] else [])
  }

  lemma {:induction false} PartsOfStaysErr(schematic: seq<string>, ns: seq<Number>, more: seq<Number>)
    requires AllValid(schematic, ns + more)
    requires PartsOf(schematic, ns).Err?
    ensures PartsOf(schematic, ns + more) == PartsOf(schematic, ns)
    decreases |more|
  {
    if more != [] {
      var n := |more| - 1;
      assert ns + more == (ns + more[..n]) + [more[n]];
      PartsOfStaysErr(schematic, ns, more[..n]);
    } else {
      assert ns + more == ns;
    }
  }

  /** The numbers of rows n..m-1, in order. */
  function NumbersBetween(schematic: seq<string>, n: nat, m: nat): (ns: seq<Number>)
    requires n <= m <= |schematic|
    ensures AllValid(schematic, ns)
    decreases m
  {
    if m == n then [] else NumbersBetween(schematic, n, m - 1) + RowNumbers(schematic, m - 1)
  }

  lemma {:induction false} NumbersSplit(schematic: seq<string>, n: nat, m: nat)
    requires n <= m <= |schematic|
    ensures NumbersUpTo(schematic, m) == NumbersUpTo(schematic, n) + NumbersBetween(schematic, n, m)
    decreases m
  {
    if m > n {
      NumbersSplit(schematic, n, m - 1);
    }
  }

  /** Where the scan of row r starts and ends. */
  lemma DoneEnds(schematic: seq<string>, r: nat)
    requires r < |schematic|
    ensures Done(schematic, r, 0) == NumbersUpTo(schematic, r)
    ensures Done(schematic, r, |RowNumbers(schematic, r)|) == NumbersUpTo(schematic, r + 1)
  {
    var row := RowNumbers(schematic, r);
    assert row[..0] == [] && row[..|row|] == row;
  }

  /** One step of the scan of row r reads number k of the row. */
  lemma DoneStep(schematic: seq<string>, r: nat, k: nat)
    requires r < |schematic| && k < |RowNumbers(schematic, r)|
    ensures ValidNumber(schematic, RowNumbers(schematic, r)[k])
    ensures Done(schematic, r, k + 1) == Done(schematic, r, k) + [RowNumbers(schematic, r)[k]]
  {
    var row := RowNumbers(schematic, r);
    assert row[k] in row;
    assert row[..k + 1] == row[..k] + [row[k]];
  }

  /** The numbers of the first r + 1 rows are those read so far followed by the rest of row r. */
  lemma DoneRest(schematic: seq<string>, r: nat, k: nat)
    requires r < |schematic| && k <= |RowNumbers(schematic, r)|
    ensures NumbersUpTo(schematic, r + 1) == Done(schematic, r, k) + RowNumbers(schematic, r)[k..]
  {
    var row := RowNumbers(schematic, r);
    assert row == row[..k] + row[k..];
  }

  /** One more number: its neighbour list decides whether its value is kept or the scan raises. */
  lemma PartsOfSnoc(schematic: seq<string>, ns: seq<Number>, o: Number, found: Result<seq<Found>, ScanError>)
    requires AllValid(schematic, ns) && ValidNumber(schematic, o) && PartsOf(schematic, ns).Ok?
    requires found == NeighborSpec(schematic, o.0, o.1, o.2)
    ensures AllValid(schematic, ns + [o])
    ensures found.Err? ==> PartsOf(schematic, ns + [o]) == Err(found.error)
    ensures found.Ok? && found.value != [] ==> PartsOf(schematic, ns + [o]) == Ok(PartsOf(schematic, ns).value + [Value(schematic, o)])
    ensures found.Ok? && found.value == [] ==> PartsOf(schematic, ns + [o]) == PartsOf(schematic, ns)
  {
    assert (ns + [o])[..|ns|] == ns;
    assert PartsOf(schematic, ns).value + [] == PartsOf(schematic, ns).value;
  }

  lemma GearsOfSnoc(schematic: seq<string>, ns: seq<Number>, o: Number, found: Result<seq<Found>, ScanError>)
    requires AllValid(schematic, ns) && ValidNumber(schematic, o) && GearsOf(schematic, ns).Ok?
    requires found == NeighborSpec(schematic, o.0, o.1, o.2)
    ensures AllValid(schematic, ns + [o])
    ensures found.Err? ==> GearsOf(schematic, ns + [o]) == Err(found.error)
    ensures found.Ok? ==> GearsOf(schematic, ns + [o]) == Ok(AddStars(GearsOf(schematic, ns).value, found.value, Value(schematic, o)))
  {
    assert (ns + [o])[..|ns|] == ns;
  }

  /**
   * `find_part_numbers`: row by row, each number with at least one neighbouring symbol is
   * kept, in order.
   */
  method FindPartNumbers(schematic: seq<string>) returns (res: Result<seq<nat>, ScanError>)
    ensures res == PartsOf(schematic, NumbersUpTo(schematic, |schematic|))
  {
    var result: seq<nat> := [];
    for r := 0 to |schematic|
      invariant PartsOf(schematic, NumbersUpTo(schematic, r)) == Ok(result)
    {
      var next := RowParts(schematic, r, result);
      if next.Err? {
        NumbersSplit(schematic, r + 1, |schematic|);
        PartsOfStaysErr(schematic, NumbersUpTo(schematic, r + 1), NumbersBetween(schematic, r + 1, |schematic|));
        return next;
      }
      result := next.value;
    }
    return Ok(result);
  }

  /** The loop of `find_part_numbers` over the numbers of row r. */
  method RowParts(schematic: seq<string>, r: nat, result0: seq<nat>) returns (res: Result<seq<nat>, ScanError>)
    requires r < |schematic| && PartsOf(schematic, NumbersUpTo(schematic, r)) == Ok(result0)
    ensures res == PartsOf(schematic, NumbersUpTo(schematic, r + 1))
  {
    var runs := Runs(schematic[r]);
    var result := result0;
    DoneEnds(schematic, r);
    for k := 0 to |runs|
      invariant PartsOf(schematic, Done(schematic, r, k)) == Ok(result)
    {
      var (s, e) := runs[k];
      var found := NeighborSymbols(schematic, r, s, e);
      DoneStep(schematic, r, k);
      PartsOfSnoc(schematic, Done(schematic, r, k), RowNumbers(schematic, r)[k], found);
      if found.Err? {
        DoneRest(schematic, r, k + 1);
        PartsOfStaysErr(schematic, Done(schematic, r, k + 1), RowNumbers(schematic, r)[k + 1..]);
        return Err(found.error);
      }
      if found.value != [] {
        result := result + [RunValue(schematic[r], s, e)];
      }
    }
    return Ok(result);
  }

  /** Whether the number touches a symbol. */
  ghost predicate Touches(schematic: seq<string>, o: Number)
    requires ValidNumber(schematic, o)
  {
    exists row, col :: TouchesAt(schematic, o, row, col)
  }

  predicate TouchesAt(schematic: seq<string>, o: Number, row: int, col: int)
    requires ValidNumber(schematic, o)
  {
    && Adjacent(schematic, o.0, o.1, o.2, row, col) && 0 <= row < |schematic| && 0 <= col < |schematic[row]|
    && IsSymbol(schematic[row][col])
  }

  /** A number's neighbour list is non-empty exactly when it touches a symbol. */
  lemma FoundTouches(schematic: seq<string>, o: Number)
    requires ValidNumber(schematic, o) && NeighborSpec(schematic, o.0, o.1, o.2).Ok?
    ensures NeighborSpec(schematic, o.0, o.1, o.2).value != [] <==> Touches(schematic, o)
  {
    var found := NeighborSpec(schematic, o.0, o.1, o.2).value;
    NeighborMeaning(schematic, o.0, o.1, o.2);
    if found != [] {
      assert found[0] in found;
      assert TouchesAt(schematic, o, found[0].0.0, found[0].0.1);
    }
    if Touches(schematic, o) {
      var row, col :| TouchesAt(schematic, o, row, col);
      assert ((row, col), schematic[row][col]) in found;
    }
  }

  /** The values of the numbers that touch a symbol, in order. */
  ghost function Kept(schematic: seq<string>, ns: seq<Number>): seq<nat>
    requires AllValid(schematic, ns)
  {
    if ns == [] then []
    else
      var o := ns[|ns| - 1];
      assert o in ns;
      Kept(schematic, ns[..|ns| - 1]) + if Touches(schematic, o) then [Value(schematic, o)] else []
  }

  /**
   * The part numbers are the numbers touching a symbol, in scan order; the scan raises
   * exactly when some number's neighbour scan does.
   */
  lemma {:induction false} PartsOfMeaning(schematic: seq<string>, ns: seq<Number>)
    requires AllValid(schematic, ns)
    ensures PartsOf(schematic, ns).Ok? <==> forall o :: o in ns ==> NeighborSpec(schematic, o.0, o.1, o.2).Ok?
    ensures PartsOf(schematic, ns).Ok? ==> PartsOf(schematic, ns).value == Kept(schematic, ns)
  {
    if ns != [] {
      var n := |ns| - 1;
      assert ns[n] in ns;
      PartsOfMeaning(schematic, ns[..n]);
      assert forall k :: 0 <= k < n ==> ns[..n][k] == ns[k];
      if NeighborSpec(schematic, ns[n].0, ns[n].1, ns[n].2).Ok? {
        FoundTouches(schematic, ns[n]);
      }
    }
  }

  /** The gear dictionary: star position to the numbers touching it, in scan order. */
  type Gears = map<Pos, seq<nat>>

  function PartsAt(m: Gears, g: Pos): seq<nat>
  {
    if g in m then m[g] else []
  }

  /** `gear_to_part.setdefault(pos, []).append(n)` for each `*` of a neighbour list. */
  function AddStars(m: Gears, found: seq<Found>, v: nat): Gears
  {
    if found == [] then m
    else
      var f := found[|found| - 1];
      var m' := AddStars(m, found[..|found| - 1], v);
      if f.1 == '*' then m'[f.0 := PartsAt(m', f.0) + [v]] else m'
  }

  /** The gear dictionary over the numbers in order; the first raise decides. */
  function GearsOf(schematic: seq<string>, ns: seq<Number>): Result<Gears, ScanError>
    requires AllValid(schematic, ns)
  {
    if ns == [] then Ok(map[])
    else
      var o := ns[|ns| - 1];
      assert o in ns;
      match GearsOf(schematic, ns[..|ns| - 1])
      case Err(e) => Err(e)
      case Ok(m) =>
        match NeighborSpec(schematic, o.0, o.1, o.2)
        case Err(e) => Err(e)
        case Ok(found) => Ok(AddStars(m, found, Value(schematic, o)))
  }

  /** The gear ratios: the stars with exactly two numbers, mapped to their product. */
  function Ratios(m: Gears): (r: map<Pos, int>)
    ensures forall g :: g in r <==> g in m && |m[g]| == 2
  {
    map g | g in m && |m[g]| == 2 :: m[g][0] * m[g][1]
  }

  lemma {:induction false} GearsOfStaysErr(schematic: seq<string>, ns: seq<Number>, more: seq<Number>)
    requires AllValid(schematic, ns + more)
    requires GearsOf(schematic, ns).Err?
    ensures GearsOf(schematic, ns + more) == GearsOf(schematic, ns)
    decreases |more|
  {
    if more != [] {
      var n := |more| - 1;
      assert ns + more == (ns + more[..n]) + [more[n]];
      GearsOfStaysErr(schematic, ns, more[..n]);
    } else {
      assert ns + more == ns;
    }
  }

  /** The innermost loop of `find_gear_ratios`: record the number at each neighbouring star. */
  method RecordStars(m: Gears, found: seq<Found>, v: nat) returns (m': Gears)
    ensures m' == AddStars(m, found, v)
  {
    m' := m;
    for k := 0 to |found|
      invariant m' == AddStars(m, found[..k], v)
    {
      assert found[..k + 1][..k] == found[..k];
      var (pos, sym) := found[k];
      if sym == '*' {
        m' := m'[pos := PartsAt(m', pos) + [v]];
      }
    }
    assert found[..|found|] == found;
  }

  /**
   * `find_gear_ratios`: every number is recorded at each star next to it; the stars with
   * exactly two numbers give the product of the two.
   */
  method FindGearRatios(schematic: seq<string>) returns (res: Result<map<Pos, int>, ScanError>)
    ensures match GearsOf(schematic, NumbersUpTo(schematic, |schematic|))
      case Err(e) => res == Err(e)
      case Ok(m) => res == Ok(Ratios(m))
  {
    var gears: Gears := map[];
    for r := 0 to |schematic|
      invariant GearsOf(schematic, NumbersUpTo(schematic, r)) == Ok(gears)
    {
      var next := RowGears(schematic, r, gears);
      if next.Err? {
        NumbersSplit(schematic, r + 1, |schematic|);
        GearsOfStaysErr(schematic, NumbersUpTo(schematic, r + 1), NumbersBetween(schematic, r + 1, |schematic|));
        return Err(next.error);
      }
      gears := next.value;
    }
    return Ok(Ratios(gears));
  }

  /** The loop of `find_gear_ratios` over the numbers of row r. */
  method RowGears(schematic: seq<string>, r: nat, gears0: Gears) returns (res: Result<Gears, ScanError>)
    requires r < |schematic| && GearsOf(schematic, NumbersUpTo(schematic, r)) == Ok(gears0)
    ensures res == GearsOf(schematic, NumbersUpTo(schematic, r + 1))
  {
    var runs := Runs(schematic[r]);
    var gears := gears0;
    DoneEnds(schematic, r);
    for k := 0 to |runs|
      invariant GearsOf(schematic, Done(schematic, r, k)) == Ok(gears)
    {
      var (s, e) := runs[k];
      var found := NeighborSymbols(schematic, r, s, e);
      DoneStep(schematic, r, k);
      GearsOfSnoc(schematic, Done(schematic, r, k), RowNumbers(schematic, r)[k], found);
      if found.Err? {
        DoneRest(schematic, r, k + 1);
        GearsOfStaysErr(schematic, Done(schematic, r, k + 1), RowNumbers(schematic, r)[k + 1..]);
        return Err(found.error);
      }
      gears := RecordStars(gears, found.value, RunValue(schematic[r], s, e));
    }
    return Ok(gears);
  }

  /** Recording a neighbour list that holds each position once adds the number to a star at most once. */
  lemma {:induction false} AddStarsAt(m: Gears, found: seq<Found>, v: nat, g: Pos)
    requires Distinct(found)
    ensures PartsAt(AddStars(m, found, v), g) == PartsAt(m, g) + if (g, '*') in found then [v] else []
  {
    if found != [] {
      var n := |found| - 1;
      var front := found[..n];
      assert Distinct(front);
      AddStarsAt(m, front, v, g);
      assert found == front + [found[n]];
      if found[n] == (g, '*') {
        assert (g, '*') !in front by {
          assert forall a :: 0 <= a < n ==> front[a].0 != found[n].0;
        }
      }
    } else {
      assert PartsAt(m, g) + [] == PartsAt(m, g);
    }
  }

  /** The numbers, in scan order, that touch the star at g. */
  ghost function StarParts(schematic: seq<string>, ns: seq<Number>, g: Pos): seq<nat>
    requires AllValid(schematic, ns)
  {
    if ns == [] then []
    else
      var o := ns[|ns| - 1];
      assert o in ns;
      StarParts(schematic, ns[..|ns| - 1], g) +
        if TouchesAt(schematic, o, g.0, g.1) && schematic[g.0][g.1] == '*' then [Value(schematic, o)] else []
  }

  /** The dictionary lists at each star exactly the numbers touching it, in scan order. */
  lemma {:induction false} GearsOfMeaning(schematic: seq<string>, ns: seq<Number>, g: Pos)
    requires AllValid(schematic, ns)
    requires GearsOf(schematic, ns).Ok?
    ensures PartsAt(GearsOf(schematic, ns).value, g) == StarParts(schematic, ns, g)
  {
    if ns != [] {
      var n := |ns| - 1;
      var o := ns[n];
      assert o in ns;
      assert forall k :: 0 <= k < n ==> ns[..n][k] == ns[k];
      GearsOfMeaning(schematic, ns[..n], g);
      var found := NeighborSpec(schematic, o.0, o.1, o.2).value;
      NeighborDistinct(schematic, o.0, o.1, o.2);
      NeighborMeaning(schematic, o.0, o.1, o.2);
      AddStarsAt(GearsOf(schematic, ns[..n]).value, found, Value(schematic, o), g);
      assert (g, '*') in found <==> TouchesAt(schematic, o, g.0, g.1) && schematic[g.0][g.1] == '*';
    }
  }

  /** A star has a gear ratio exactly when two numbers touch it, and the ratio is their product. */
  lemma RatiosMeaning(schematic: seq<string>, g: Pos)
    requires GearsOf(schematic, NumbersUpTo(schematic, |schematic|)).Ok?
    ensures var m := GearsOf(schematic, NumbersUpTo(schematic, |schematic|)).value;
      var parts := StarParts(schematic, NumbersUpTo(schematic, |schematic|), g);
      (g in Ratios(m) <==> |parts| == 2) && (g in Ratios(m) ==> Ratios(m)[g] == parts[0] * parts[1])
  {
    GearsOfMeaning(schematic, NumbersUpTo(schematic, |schematic|), g);
  }
}
