/**
 * Point of incidence (day13): each pattern of ash and rocks is searched for a line of
 * reflection between two rows or two columns; with a smudge fixed, a different line with
 * exactly one differing cell is wanted instead.
 */
module Mirrors {
  import opened Wrappers
  import Text

  /** A pattern as its rows and its columns. */
  datatype Pattern = Pattern(rows: seq<string>, cols: seq<string>)

  // Comparing the two sides of a line.

  /** How many pairs of `zip(a, b)` hold different cells; `zip` stops at the shorter side. */
  function Diff(a: string, b: string): (r: nat)
    ensures r <= |a| && r <= |b|
  {
    if a == [] || b == [] then 0 else (if a[0] == b[0] then 0 else 1) + Diff(a[1..], b[1..])
  }

  function Min(a: int, b: int): int { if a <= b then a else b }

  /** `num_rows_reflected`: how many lines on each side of line i take part. */
  function Reach(n: nat, i: nat): (m: nat)
    requires i <= n
    ensures m <= i && i + m <= n
  {
    Min(i, n - i)
  }

  /** The m lines just above line i, nearest first: the reversed upper side. */
  function Above(lines: seq<string>, i: nat, m: nat): (r: seq<string>)
    requires m <= i <= |lines|
    ensures |r| == m && forall k :: 0 <= k < m ==> r[k] == lines[i - 1 - k]
  {
    seq(m, k requires 0 <= k < m => lines[i - 1 - k])
  }

  /** `num_diff`: the differing cells between the mirrored sides of the line before `lines[i]`. */
  function Smudges(lines: seq<string>, i: nat): nat
    requires i <= |lines|
  {
    var m := Reach(|lines|, i);
    Diff(Text.Flatten(Above(lines, i, m)), Text.Flatten(lines[i..i + m]))
  }

  /** Line i is one `find_reflection` accepts: in range, not excluded, with `num` differing cells. */
  predicate Candidate(lines: seq<string>, exclude: Option<int>, num: int, i: int)
  {
    1 <= i < |lines| && exclude != Some(i) && Smudges(lines, i) == num
  }

  /** The first candidate from line i on, or 0 when there is none. */
  function FirstFrom(lines: seq<string>, exclude: Option<int>, num: int, i: nat): nat
    decreases |lines| - i
  {
    if i >= |lines| then 0
    else if Candidate(lines, exclude, num, i) then i
    else FirstFrom(lines, exclude, num, i + 1)
  }

  /** The reference reading of `find_reflection`. */
  function Reflection(lines: seq<string>, exclude: Option<int>, num: int): nat
  {
    FirstFrom(lines, exclude, num, 1)
  }

  lemma {:induction false} FirstFromSpec(lines: seq<string>, exclude: Option<int>, num: int, i: nat)
    ensures var r := FirstFrom(lines, exclude, num, i);
      && (r == 0 || (i <= r && Candidate(lines, exclude, num, r)))
      && forall j :: i <= j < |lines| && (r == 0 || j < r) ==> !Candidate(lines, exclude, num, j)
    decreases |lines| - i
  {
    if i < |lines| && !Candidate(lines, exclude, num, i) {
      FirstFromSpec(lines, exclude, num, i + 1);
    }
  }

  /**
   * The line found is 0 or a candidate line in 1..len-1 other than `exclude`, and no earlier
   * line is a candidate; 0 means no line is.
   */
  lemma ReflectionSpec(lines: seq<string>, exclude: Option<int>, num: int)
    ensures var r := Reflection(lines, exclude, num);
      && (r == 0 || (1 <= r < |lines| && exclude != Some(r) && Smudges(lines, r) == num))
      && forall j :: 1 <= j < |lines| && (r == 0 || j < r) ==> !Candidate(lines, exclude, num, j)
  {
    FirstFromSpec(lines, exclude, num, 1);
  }

  /** `find_reflection`: the loop over the lines with its early return. */
  method FindReflection(rows: seq<string>, exclude: Option<int>, numSmudges: int) returns (r: nat)
    ensures r == 0 || (1 <= r < |rows| && exclude != Some(r) && Smudges(rows, r) == numSmudges)
    ensures forall j :: 1 <= j < |rows| && (r == 0 || j < r) ==> !Candidate(rows, exclude, numSmudges, j)
    ensures r == Reflection(rows, exclude, numSmudges)
  {
    ReflectionSpec(rows, exclude, numSmudges);
    ghost var found := Reflection(rows, exclude, numSmudges);
    assert found == 0 || Candidate(rows, exclude, numSmudges, found);
    var i := 1;
    while i < |rows|
      invariant 1 <= i
      invariant forall j :: 1 <= j < i && j < |rows| ==> !Candidate(rows, exclude, numSmudges, j)
    {
      if exclude != Some(i) {
        var numDiff := Smudges(rows, i);
        if numDiff == numSmudges {
          assert Candidate(rows, exclude, numSmudges, i);
          return i;
        }
      }
      i := i + 1;
    }
    return 0;
  }

  // What the count of differing cells means for a rectangular pattern.

  predicate Rectangular(lines: seq<string>)
  {
    forall k :: 0 <= k < |lines| ==> |lines[k]| == |lines[0]|
  }

  /** The differing cells line by line. */
  function LineDiffs(a: seq<string>, b: seq<string>): nat
  {
    if a == [] || b == [] then 0 else Diff(a[0], b[0]) + LineDiffs(a[1..], b[1..])
  }

  predicate SameShape(a: seq<string>, b: seq<string>)
  {
    |a| == |b| && forall k :: 0 <= k < |a| ==> |a[k]| == |b[k]|
  }

  lemma {:induction false} DiffConcat(a1: string, a2: string, b1: string, b2: string)
    requires |a1| == |b1|
    ensures Diff(a1 + a2, b1 + b2) == Diff(a1, b1) + Diff(a2, b2)
  {
    if a1 == [] {
      assert a1 + a2 == a2 && b1 + b2 == b2;
    } else {
      assert (a1 + a2)[0] == a1[0] && (a1 + a2)[1..] == a1[1..] + a2;
      assert (b1 + b2)[0] == b1[0] && (b1 + b2)[1..] == b1[1..] + b2;
      DiffConcat(a1[1..], a2, b1[1..], b2);
    }
  }

  /** Lines of matching lengths flatten to cells that differ exactly where the lines do. */
  lemma {:induction false} FlattenDiff(a: seq<string>, b: seq<string>)
    requires SameShape(a, b)
    ensures Diff(Text.Flatten(a), Text.Flatten(b)) == LineDiffs(a, b)
  {
    if a != [] {
      DiffConcat(a[0], Text.Flatten(a[1..]), b[0], Text.Flatten(b[1..]));
      FlattenDiff(a[1..], b[1..]);
    }
  }

  lemma {:induction false} DiffZero(a: string, b: string)
    requires |a| == |b|
    ensures Diff(a, b) == 0 <==> a == b
  {
    if a != [] {
      DiffZero(a[1..], b[1..]);
      if a[0] == b[0] && a[1..] == b[1..] {
        assert a == [a[0]] + a[1..] && b == [b[0]] + b[1..];
      }
    }
  }

  lemma {:induction false} LineDiffsZero(a: seq<string>, b: seq<string>)
    requires SameShape(a, b)
    ensures LineDiffs(a, b) == 0 <==> a == b
  {
    if a != [] {
      DiffZero(a[0], b[0]);
      LineDiffsZero(a[1..], b[1..]);
      if a[0] == b[0] && a[1..] == b[1..] {
        assert a == [a[0]] + a[1..] && b == [b[0]] + b[1..];
      }
    }
  }

  /** One differing cell between two lines of equal length: they agree everywhere but at `c`. */
  ghost predicate OnlyAt(a: string, b: string, c: int)
  {
    |a| == |b| && 0 <= c < |a| && a[c] != b[c] && forall d :: 0 <= d < |a| && d != c ==> a[d] == b[d]
  }

  lemma {:induction false} DiffOne(a: string, b: string) returns (c: nat)
    requires |a| == |b| && Diff(a, b) == 1
    ensures OnlyAt(a, b, c)
  {
    if a[0] != b[0] {
      DiffZero(a[1..], b[1..]);
      c := 0;
      forall d | 0 <= d < |a| && d != c ensures a[d] == b[d] {
        assert a[d] == a[1..][d - 1] && b[d] == b[1..][d - 1];
      }
    } else {
      var c' := DiffOne(a[1..], b[1..]);
      c := c' + 1;
      forall d | 0 <= d < |a| && d != c ensures a[d] == b[d] {
        if d > 0 {
          assert a[d] == a[1..][d - 1] && b[d] == b[1..][d - 1];
        }
      }
    }
  }

  /** Lines agreeing everywhere except in line k, where they differ in one cell. */
  ghost predicate OneLineAt(a: seq<string>, b: seq<string>, k: int)
  {
    |a| == |b| && 0 <= k < |a| && Diff(a[k], b[k]) == 1 && forall j :: 0 <= j < |a| && j != k ==> a[j] == b[j]
  }

  lemma {:induction false} LineDiffsOne(a: seq<string>, b: seq<string>) returns (k: nat)
    requires SameShape(a, b) && LineDiffs(a, b) == 1
    ensures OneLineAt(a, b, k)
  {
    if Diff(a[0], b[0]) == 1 {
      LineDiffsZero(a[1..], b[1..]);
      k := 0;
      forall j | 0 <= j < |a| && j != k ensures a[j] == b[j] {
        assert a[j] == a[1..][j - 1] && b[j] == b[1..][j - 1];
      }
    } else {
      DiffZero(a[0], b[0]);
      var k' := LineDiffsOne(a[1..], b[1..]);
      k := k' + 1;
      assert a[k] == a[1..][k'] && b[k] == b[1..][k'];
      forall j | 0 <= j < |a| && j != k ensures a[j] == b[j] {
        if j > 0 {
          assert a[j] == a[1..][j - 1] && b[j] == b[1..][j - 1];
        }
      }
    }
  }

  /** Row i - 1 - k and row i + k, at distance k from the line before row i, are equal. */
  predicate Mirrored(lines: seq<string>, i: nat, k: nat)
    requires k < i && i + k < |lines|
  {
    lines[i - 1 - k] == lines[i + k]
  }

  /** The two mirrored sides of the line before `lines[i]` have the same shape in a rectangle. */
  lemma SidesShape(lines: seq<string>, i: nat)
    requires Rectangular(lines) && 1 <= i < |lines|
    ensures SameShape(Above(lines, i, Reach(|lines|, i)), lines[i..i + Reach(|lines|, i)])
  {
  }

  /**
   * In a rectangular pattern, a line with no differing cells is a true mirror: every row within
   * reach above it equals the row as far below it, and conversely.
   */
  lemma MirrorExact(lines: seq<string>, i: nat)
    requires Rectangular(lines) && 1 <= i < |lines|
    ensures Smudges(lines, i) == 0 <==>
      forall k :: 0 <= k < Reach(|lines|, i) ==> Mirrored(lines, i, k)
  {
    var m := Reach(|lines|, i);
    var top, bottom := Above(lines, i, m), lines[i..i + m];
    SidesShape(lines, i);
    FlattenDiff(top, bottom);
    LineDiffsZero(top, bottom);
    assert top == bottom <==> forall k :: 0 <= k < m ==> top[k] == bottom[k];
    assert forall k :: 0 <= k < m ==> (top[k] == bottom[k] <==> Mirrored(lines, i, k));
  }

  /** The cell (k, c) is the only one that differs between row i - 1 - k and row i + k. */
  ghost predicate OneSmudgeAt(lines: seq<string>, i: nat, k: int, c: int)
    requires 1 <= i < |lines|
  {
    && 0 <= k < Reach(|lines|, i)
    && OnlyAt(lines[i - 1 - k], lines[i + k], c)
    && forall j :: 0 <= j < Reach(|lines|, i) && j != k ==> Mirrored(lines, i, j)
  }

  /**
   * In a rectangular pattern, a line with one differing cell is a mirror once that one cell is
   * fixed: all mirrored row pairs agree but one, and that pair differs in a single cell.
   */
  lemma MirrorOneSmudge(lines: seq<string>, i: nat)
    requires Rectangular(lines) && 1 <= i < |lines| && Smudges(lines, i) == 1
    ensures exists k, c :: OneSmudgeAt(lines, i, k, c)
  {
    var m := Reach(|lines|, i);
    var top, bottom := Above(lines, i, m), lines[i..i + m];
    SidesShape(lines, i);
    FlattenDiff(top, bottom);
    var k := LineDiffsOne(top, bottom);
    var c := DiffOne(top[k], bottom[k]);
    assert top[k] == lines[i - 1 - k] && bottom[k] == lines[i + k];
    forall j | 0 <= j < m && j != k ensures Mirrored(lines, i, j) {
      assert top[j] == lines[i - 1 - j] && bottom[j] == lines[i + j];
    }
    assert OneSmudgeAt(lines, i, k, c);
  }

  // Summing the reflections.

  /** One direction of a pattern: `find_reflection` with or without the smudge fixed. */
  function Score(lines: seq<string>, fixSmudge: bool): nat
  {
    if fixSmudge then Reflection(lines, Some(Reflection(lines, None, 0)), 1) else Reflection(lines, None, 0)
  }

  /**
   * With the smudge fixed, the line found is never the original line, and it is one whose
   * sides differ in exactly one cell; without, it is a line with no differing cell.
   */
  lemma ScoreSpec(lines: seq<string>, fixSmudge: bool)
    ensures var s, orig := Score(lines, fixSmudge), Reflection(lines, None, 0);
      && (s == 0 || 1 <= s < |lines|)
      && (fixSmudge && orig != 0 ==> s != orig)
      && (s != 0 ==> Smudges(lines, s) == if fixSmudge then 1 else 0)
  {
    var orig := Reflection(lines, None, 0);
    ReflectionSpec(lines, None, 0);
    ReflectionSpec(lines, Some(orig), 1);
  }

  function Summary(patterns: seq<Pattern>, fixSmudge: bool): nat
  {
    if patterns == [] then 0
    else
      var p := patterns[|patterns| - 1];
      Summary(patterns[..|patterns| - 1], fixSmudge) + 100 * Score(p.rows, fixSmudge) + Score(p.cols, fixSmudge)
  }

  /** The total over a sequence of patterns is the totals of its parts added. */
  lemma {:induction false} SummaryConcat(a: seq<Pattern>, b: seq<Pattern>, fixSmudge: bool)
    ensures Summary(a + b, fixSmudge) == Summary(a, fixSmudge) + Summary(b, fixSmudge)
  {
    if b == [] {
      assert a + b == a;
    } else {
      assert (a + b)[..|a + b| - 1] == a + b[..|b| - 1];
      SummaryConcat(a, b[..|b| - 1], fixSmudge);
    }
  }

  /** `summarize_reflection`: 100 per row above the line plus one per column left of it. */
  method SummarizeReflection(input: seq<Pattern>, fixSmudge: bool) returns (result: nat)
    ensures result == Summary(input, fixSmudge)
  {
    result := 0;
    for k := 0 to |input|
      invariant result == Summary(input[..k], fixSmudge)
    {
      var pattern := input[k];
      var rowExclude: Option<int> := None;
      var colExclude: Option<int> := None;
      if fixSmudge {
        var rowOrig := FindReflection(pattern.rows, None, 0);
        var colOrig := FindReflection(pattern.cols, None, 0);
        rowExclude, colExclude := Some(rowOrig), Some(colOrig);
      }
      var rowReflection := FindReflection(pattern.rows, rowExclude, if fixSmudge then 1 else 0);
      var colReflection := FindReflection(pattern.cols, colExclude, if fixSmudge then 1 else 0);
      assert input[..k + 1][..k] == input[..k];
      result := result + 100 * rowReflection + colReflection;
    }
    assert input[..|input|] == input;
  }

  // Reading the input.

  /** One line of the grouping loop of `parse_input`. */
  function NextGroups(groups: seq<seq<string>>, raw: string): (r: seq<seq<string>>)
    requires groups != []
    ensures r != []
  {
    var line := Text.Strip(raw);
    var last := groups[|groups| - 1];
    if line != [] then groups[..|groups| - 1] + [last + [line]]
    else if last != [] then groups + [[]]
    else groups
  }

  /** `patterns` after the grouping loop has read the lines. */
  function Groups(raw: seq<string>): (r: seq<seq<string>>)
    ensures r != []
  {
    if raw == [] then [[]] else NextGroups(Groups(raw[..|raw| - 1]), raw[|raw| - 1])
  }

  lemma {:induction false} LinesSnoc(raw: seq<string>, x: string)
    ensures Text.Lines(raw + [x]) == Text.Lines(raw) + (if Text.Strip(x) == [] then [] else [Text.Strip(x)])
  {
    if raw != [] {
      assert (raw + [x])[1..] == raw[1..] + [x];
      LinesSnoc(raw[1..], x);
    } else {
      assert (raw + [x])[1..] == [];
    }
  }

  /** Every pattern but the last holds a line. */
  ghost predicate Separated(groups: seq<seq<string>>)
  {
    forall k :: 0 <= k < |groups| - 1 ==> groups[k] != []
  }

  /**
   * Blank lines separate patterns: the patterns hold the stripped non-blank lines in order,
   * and only the last pattern can be empty.
   */
  lemma {:induction false} GroupsSpec(raw: seq<string>)
    ensures Text.Flatten(Groups(raw)) == Text.Lines(raw)
    ensures Separated(Groups(raw))
  {
    if raw != [] {
      var init, x := raw[..|raw| - 1], raw[|raw| - 1];
      GroupsSpec(init);
      Text.InitLast(raw);
      LinesSnoc(init, x);
      NextGroupsSpec(Groups(init), x);
    }
  }

  lemma NextGroupsSpec(groups: seq<seq<string>>, x: string)
    requires groups != [] && Separated(groups)
    ensures Text.Flatten(NextGroups(groups, x)) == Text.Flatten(groups) + (if Text.Strip(x) == [] then [] else [Text.Strip(x)])
    ensures Separated(NextGroups(groups, x))
  {
    var line := Text.Strip(x);
    var init, last := groups[..|groups| - 1], groups[|groups| - 1];
    var r := NextGroups(groups, x);
    if line != [] {
      Text.InitLast(groups);
      Text.FlattenSnoc(init, last);
      Text.FlattenSnoc(init, last + [line]);
    } else if last != [] {
      Text.FlattenSnoc(groups, []);
    }
  }

  /** The grouping loop of `parse_input`. */
  method GroupLines(raw: seq<string>) returns (patterns: seq<seq<string>>)
    ensures patterns == Groups(raw)
  {
    patterns := [[]];
    for t := 0 to |raw|
      invariant patterns == Groups(raw[..t])
    {
      assert raw[..t + 1][..t] == raw[..t];
      var line := Text.Strip(raw[t]);
      if line != [] {
        patterns := patterns[..|patterns| - 1] + [patterns[|patterns| - 1] + [line]];
      } else if patterns[|patterns| - 1] != [] {
        patterns := patterns + [[]];
      }
    }
    assert raw[..|raw|] == raw;
  }

  datatype ParseError =
    | EmptyPattern  // `rows[0]` of a pattern with no rows raised IndexError
    | RowTooLong    // `cols[x]` past the width of the first row raised IndexError

  /** No row is wider than the first one, which sets the number of columns. */
  predicate FitsFirst(rows: seq<string>)
    requires rows != []
  {
    forall y :: 0 <= y < |rows| ==> |rows[y]| <= |rows[0]|
  }

  /** `cols` holds, at `[x][y]`, row y's cell x, or the `" "` placeholder where row y is shorter. */
  ghost predicate ColumnsOf(rows: seq<string>, cols: seq<string>)
  {
    && rows != []
    && |cols| == |rows[0]|
    && (forall x :: 0 <= x < |cols| ==> |cols[x]| == |rows|)
    && forall x, y :: 0 <= x < |cols| && 0 <= y < |rows| ==> cols[x][y] == if x < |rows[y]| then rows[y][x] else ' '
  }

  /** The columns as written so far: rows before y and cells of row y before x are in place. */
  ghost predicate Filled(rows: seq<string>, cols: seq<string>, y: nat, x: nat)
    requires rows != []
  {
    && |cols| == |rows[0]|
    && (forall c :: 0 <= c < |cols| ==> |cols[c]| == |rows|)
    && forall c, r :: 0 <= c < |cols| && 0 <= r < |rows| ==>
         cols[c][r] == if r < y || (r == y && c < x) then (if c < |rows[r]| then rows[r][c] else ' ') else ' '
  }

  lemma FilledRow(rows: seq<string>, cols: seq<string>, y: nat)
    requires rows != [] && y < |rows| && Filled(rows, cols, y, |rows[y]|)
    ensures Filled(rows, cols, y + 1, 0)
  {
  }

  /** The column-building loops of `parse_input` for one pattern. */
  method BuildPattern(rows: seq<string>) returns (r: Result<Pattern, ParseError>)
    ensures r == Err(EmptyPattern) <==> rows == []
    ensures r == Err(RowTooLong) <==> rows != [] && !FitsFirst(rows)
    ensures r.Ok? ==> r.value.rows == rows && ColumnsOf(rows, r.value.cols)
  {
    if rows == [] {
      return Err(EmptyPattern);
    }
    var cols: seq<string> := seq(|rows[0]|, _ => seq(|rows|, _ => ' '));
    for y := 0 to |rows|
      invariant Filled(rows, cols, y, 0)
      invariant forall r :: 0 <= r < y ==> |rows[r]| <= |rows[0]|
    {
      for x := 0 to |rows[y]|
        invariant x <= |cols| && Filled(rows, cols, y, x)
      {
        if x >= |cols| {
          return Err(RowTooLong);
        }
        cols := cols[x := cols[x][y := rows[y][x]]];
      }
      FilledRow(rows, cols, y);
    }
    return Ok(Pattern(rows, cols));
  }

  /** The pattern read from the lines of one group. */
  ghost predicate PatternOf(rows: seq<string>, p: Pattern)
  {
    rows != [] && FitsFirst(rows) && p.rows == rows && ColumnsOf(rows, p.cols)
  }

  /** The patterns read so far, one per group. */
  ghost predicate Parsed(groups: seq<seq<string>>, patterns: seq<Pattern>)
  {
    |patterns| <= |groups| && forall j :: 0 <= j < |patterns| ==> PatternOf(groups[j], patterns[j])
  }

  lemma ParsedSnoc(groups: seq<seq<string>>, patterns: seq<Pattern>, p: Pattern)
    requires Parsed(groups, patterns) && |patterns| < |groups| && PatternOf(groups[|patterns|], p)
    ensures Parsed(groups, patterns + [p])
  {
  }

  /** `parse_input`: the patterns of the input, each with its rows and columns. */
  method ParseInput(raw: seq<string>) returns (r: Result<seq<Pattern>, ParseError>)
    ensures r.Ok? <==> forall k :: 0 <= k < |Groups(raw)| ==> Groups(raw)[k] != [] && FitsFirst(Groups(raw)[k])
    ensures r.Ok? ==> |r.value| == |Groups(raw)| && forall k :: 0 <= k < |r.value| ==> PatternOf(Groups(raw)[k], r.value[k])
  {
    var groups := GroupLines(raw);
    var result: seq<Pattern> := [];
    for k := 0 to |groups|
      invariant |result| == k && Parsed(groups, result)
    {
      var p := BuildPattern(groups[k]);
      if p.Err? {
        assert p.error.EmptyPattern? || p.error.RowTooLong?;
        assert p == Err(EmptyPattern) || p == Err(RowTooLong);
        return Err(p.error);
      }
      ParsedSnoc(groups, result, p.value);
      result := result + [p.value];
    }
    return Ok(result);
  }

  /** In a rectangular pattern the columns are the transpose of the rows, and rectangular too. */
  lemma ColumnsTranspose(rows: seq<string>, cols: seq<string>)
    requires Rectangular(rows) && ColumnsOf(rows, cols)
    ensures Rectangular(cols) && (cols != [] ==> |cols[0]| == |rows|)
    ensures forall x, y :: 0 <= x < |cols| && 0 <= y < |rows| ==> cols[x][y] == rows[y][x]
  {
  }
}
