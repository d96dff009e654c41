/**
 * Hot springs (day12): a row of springs is `#` (damaged), `.` (operational) or `?`
 * (unknown), and a record pairs it with the lengths of its damaged groups. The number of
 * ways to fill in the unknowns so that the row matches its groups is counted by recursion
 * on the first separator, and proved equal to trying every filling one unknown at a time.
 */
module Springs {
  import opened Wrappers
  import Text

  /** A record: the row and the group lengths read from it. */
  type Record = (string, seq<int>)

  function Pow2(n: nat): (r: nat)
    ensures r >= 1
  {
    if n == 0 then 1 else 2 * Pow2(n - 1)
  }

  /** The number of unknown springs. */
  function Unknowns(s: string): nat { Text.CountChar(s, '?') }

  /** `filter(len, pieces)`: the non-empty pieces in order. */
  function NonEmpty(pieces: seq<string>): (r: seq<string>)
    ensures forall k :: 0 <= k < |r| ==> r[k] != [] && r[k] in pieces
  {
    if pieces == [] then []
    else if pieces[0] == [] then NonEmpty(pieces[1..])
    else [pieces[0]] + NonEmpty(pieces[1..])
  }

  lemma {:induction false} NonEmptyConcat(a: seq<string>, b: seq<string>)
    ensures NonEmpty(a + b) == NonEmpty(a) + NonEmpty(b)
  {
    if a != [] {
      Text.AppendSlices(a, b, 1);
      assert (a + b)[0] == a[0];
      NonEmptyConcat(a[1..], b);
      if a[0] != [] {
        Text.ConsAssoc(a[0], NonEmpty(a[1..]), NonEmpty(b));
      }
    } else {
      assert a + b == b;
    }
  }

  /** `split_row`: the pieces of the row between operational springs, empty ones dropped. */
  function SplitRow(row: string): (r: seq<string>)
    ensures forall k :: 0 <= k < |r| ==> r[k] != [] && '.' !in r[k]
  {
    NonEmpty(Text.Split(row, '.'))
  }

  function Lengths(pieces: seq<string>): (r: seq<int>)
    ensures |r| == |pieces| && forall k :: 0 <= k < |r| ==> r[k] == |pieces[k]|
  {
    seq(|pieces|, k requires 0 <= k < |pieces| => |pieces[k]|)
  }

  /** `validate_record`: the lengths of the row's pieces are exactly the groups. */
  predicate Validate(row: string, blocks: seq<int>)
  {
    Lengths(SplitRow(row)) == blocks
  }

  /** The pieces' lengths are the groups, compared one piece at a time. */
  predicate LengthsAre(pieces: seq<string>, blocks: seq<int>)
  {
    if pieces == [] then blocks == []
    else blocks != [] && |pieces[0]| == blocks[0] && LengthsAre(pieces[1..], blocks[1..])
  }

  lemma {:induction false} LengthsAreSame(pieces: seq<string>, blocks: seq<int>)
    ensures LengthsAre(pieces, blocks) <==> Lengths(pieces) == blocks
  {
    if pieces != [] && blocks != [] {
      LengthsAreSame(pieces[1..], blocks[1..]);
      var l, t := Lengths(pieces), Lengths(pieces[1..]);
      assert l == [|pieces[0]|] + t;
      if l == blocks {
        assert blocks[1..] == t;
      }
      if |pieces[0]| == blocks[0] && t == blocks[1..] {
        assert blocks == [blocks[0]] + blocks[1..];
      }
    }
  }

  /** A leading operational spring adds only an empty piece. */
  lemma SplitRowDotFront(x: string)
    ensures SplitRow(['.'] + x) == SplitRow(x)
  {
    var s := ['.'] + x;
    assert Text.IndexOf(s, '.') == Some(0);
    assert s[1..] == x;
    assert Text.Split(s, '.') == [[]] + Text.Split(x, '.');
    NonEmptyConcat([[]], Text.Split(x, '.'));
  }

  /** A trailing operational spring adds only an empty piece. */
  lemma SplitRowDotBack(x: string)
    ensures SplitRow(x + ['.']) == SplitRow(x)
  {
    Text.SplitSnoc(x, '.');
    NonEmptyConcat(Text.Split(x, '.'), [[]]);
  }

  /** A first group of springs up to the first operational one is the first piece. */
  lemma SplitRowHead(left: string, rest: string)
    requires left != [] && '.' !in left
    ensures SplitRow(left + ['.'] + rest) == [left] + SplitRow(rest)
  {
    var s := left + ['.'] + rest;
    Text.PrefixIndex(left, '.', rest);
    assert s[..|left|] == left && s[|left| + 1..] == rest;
    assert Text.Split(s, '.') == [left] + Text.Split(rest, '.');
    NonEmptyConcat([left], Text.Split(rest, '.'));
  }

  /** A row without operational springs is a single piece (none when it is empty). */
  lemma SplitRowWhole(row: string)
    requires '.' !in row
    ensures SplitRow(row) == if row == [] then [] else [row]
  {
    assert Text.IndexOf(row, '.').None?;
    assert Text.Split(row, '.') == [row];
    assert [row][1..] == [];
    assert NonEmpty([row]) == if row == [] then NonEmpty([]) else [row] + NonEmpty([]);
  }

  /** `s.lstrip('.')`. */
  function LStripDots(s: string): (r: string)
    ensures |r| <= |s| && r == s[|s| - |r|..]
    ensures r == [] || r[0] != '.'
    ensures Unknowns(r) == Unknowns(s)
  {
    if s != [] && s[0] == '.' then
      Text.CountCharConcat(['.'], s[1..], '?');
      assert s == ['.'] + s[1..];
      LStripDots(s[1..])
    else s
  }

  /** `s.rstrip('.')`. */
  function RStripDots(s: string): (r: string)
    ensures |r| <= |s| && r == s[..|r|]
    ensures r == [] || r[|r| - 1] != '.'
    ensures Unknowns(r) == Unknowns(s)
  {
    if s != [] && s[|s| - 1] == '.' then
      Text.CountCharConcat(s[..|s| - 1], ['.'], '?');
      assert s == s[..|s| - 1] + ['.'];
      RStripDots(s[..|s| - 1])
    else s
  }

  /** `s.strip('.')`. */
  function StripDots(s: string): (r: string)
    ensures |r| <= |s| && Unknowns(r) == Unknowns(s)
    ensures r == [] || (r[0] != '.' && r[|r| - 1] != '.')
  {
    var t := LStripDots(RStripDots(s));
    assert t != [] ==> t[|t| - 1] == RStripDots(s)[|RStripDots(s)| - 1];
    t
  }

  /** `re.search(r"[.?]", row)`: the first operational or unknown spring. */
  function FirstSep(s: string): (r: Option<nat>)
    ensures r.Some? ==> r.value < |s| && s[r.value] in ".?" && forall j :: 0 <= j < r.value ==> s[j] !in ".?"
    ensures r.None? ==> forall j :: 0 <= j < |s| ==> s[j] !in ".?"
  {
    if s == [] then None
    else if s[0] in ".?" then Some(0)
    else match FirstSep(s[1..])
      case None => None
      case Some(i) => Some(i + 1)
  }

  /** `s.replace('?', c, 1)` once the first `?` is known to be at i. */
  function Replace(s: string, i: nat, c: char): (r: string)
    requires i < |s|
    ensures |r| == |s| && r[i] == c && forall j :: 0 <= j < |s| && j != i ==> r[j] == s[j]
  {
    if i == 0 then [c] + s[1..] else [s[0]] + Replace(s[1..], i - 1, c)
  }

  /** The replaced row is the text before i, then c, then the text after i. */
  lemma ReplaceSlices(s: string, i: nat, c: char)
    requires i < |s|
    ensures Replace(s, i, c) == s[..i] + [c] + s[i + 1..]
  {
  }

  /** Filling in one unknown spring leaves one fewer. */
  lemma ReplaceUnknowns(s: string, i: nat, c: char)
    requires i < |s| && s[i] == '?' && c != '?'
    ensures Unknowns(Replace(s, i, c)) + 1 == Unknowns(s)
  {
    ReplaceSlices(s, i, c);
    Text.CountCharConcat(s[..i] + [c], s[i + 1..], '?');
    Text.CountCharConcat(s[..i], [c], '?');
    Text.CountCharConcat(s[..i] + ['?'], s[i + 1..], '?');
    Text.CountCharConcat(s[..i], ['?'], '?');
    assert s == s[..i] + ['?'] + s[i + 1..];
  }

  /** The springs after the first separator at i hold no more unknowns than the row. */
  lemma RestUnknowns(s: string, i: nat)
    requires i < |s|
    ensures Unknowns(s[i + 1..]) <= Unknowns(s)
  {
    Text.CountCharConcat(s[..i + 1], s[i + 1..], '?');
    assert s == s[..i + 1] + s[i + 1..];
  }

  /**
   * `count_arrangements`, without its cache. With the row stripped of `.` at both ends: when
   * the first separator is `.`, every split of the groups whose head matches the leading
   * piece is tried on the rest of the row; when the row holds a `?`, its first one is set to
   * `.` and to `#`; otherwise the row counts once if it matches its groups.
   */
  function Count(row: string, blocks: seq<int>): nat
    decreases Unknowns(row), |row|, |blocks| + 1
  {
    var r := StripDots(row);
    var sep := FirstSep(r);
    if sep.Some? && r[sep.value] == '.' then
      var i := sep.value;
      RestUnknowns(r, i);
      DotSum(r[..i], LStripDots(r[i + 1..]), blocks, 1)
    else if '?' in r then
      var q := Text.IndexOf(r, '?').value;
      ReplaceUnknowns(r, q, '.');
      ReplaceUnknowns(r, q, '#');
      Count(LStripDots(Replace(r, q, '.')), blocks) + Count(LStripDots(Replace(r, q, '#')), blocks)
    else if Validate(r, blocks) then 1
    else 0
  }

  /**
   * The generator sum of `count_arrangements` over `i` from the given one to `len(blocks)`:
   * the count of the rest of the row against `blocks[i:]` whenever the leading piece
   * validates against `blocks[0:i]`.
   */
  function DotSum(left: string, right: string, blocks: seq<int>, i: nat): nat
    requires 1 <= i
    decreases Unknowns(right), |right| + 1, |blocks| + 1 - i
  {
    if i > |blocks| then 0
    else (if Validate(left, blocks[..i]) then Count(right, blocks[i..]) else 0) + DotSum(left, right, blocks, i + 1)
  }

  /** A leading piece of damaged springs validates only against the single group of its length. */
  lemma {:induction false} DotSumValue(left: string, right: string, blocks: seq<int>, i: nat)
    requires left != [] && '.' !in left && 1 <= i
    ensures DotSum(left, right, blocks, i) ==
      if i == 1 && blocks != [] && blocks[0] == |left| then Count(right, blocks[1..]) else 0
    decreases |blocks| + 1 - i
  {
    SplitRowWhole(left);
    if i <= |blocks| {
      DotSumValue(left, right, blocks, i + 1);
      assert Validate(left, blocks[..i]) <==> i == 1 && blocks[0] == |left| by {
        assert Lengths(SplitRow(left)) == [|left|];
      }
    }
  }

  /**
   * An independent reading of `validate_record`, one spring at a time: `run` is the length of
   * the group being read, a `.` closes it against the next group, and the end of the row
   * closes the last one.
   */
  predicate Fits(row: string, blocks: seq<int>, run: nat)
  {
    if row == [] then (if run > 0 then blocks == [run] else blocks == [])
    else if row[0] != '.' then Fits(row[1..], blocks, run + 1)
    else if run > 0 then blocks != [] && blocks[0] == run && Fits(row[1..], blocks[1..], 0)
    else Fits(row[1..], blocks, 0)
  }

  /** A stretch without `.` only lengthens the group being read. */
  lemma {:induction false} FitsRun(left: string, x: string, blocks: seq<int>, run: nat)
    requires '.' !in left
    ensures Fits(left + x, blocks, run) == Fits(x, blocks, run + |left|)
    decreases |left|
  {
    if left == [] {
      assert left + x == x;
    } else {
      assert (left + x)[0] == left[0] && (left + x)[1..] == left[1..] + x;
      FitsRun(left[1..], x, blocks, run + 1);
    }
  }

  /** A leading group closed by `.` must be exactly the first group. */
  lemma FitsHead(left: string, x: string, blocks: seq<int>)
    requires left != [] && '.' !in left
    ensures Fits(left + ['.'] + x, blocks, 0) == (blocks != [] && blocks[0] == |left| && Fits(x, blocks[1..], 0))
  {
    assert left + ['.'] + x == left + (['.'] + x);
    FitsRun(left, ['.'] + x, blocks, 0);
    assert (['.'] + x)[1..] == x;
  }

  /** A trailing `.` closes the last group just as the end of the row does. */
  lemma {:induction false} FitsDotBack(d: string, blocks: seq<int>, run: nat)
    ensures Fits(d + ['.'], blocks, run) == Fits(d, blocks, run)
    decreases |d|
  {
    if d == [] {
      assert [] + ['.'] == ['.'] && ['.'][1..] == [];
      if run > 0 && blocks != [] && blocks[0] == run && blocks[1..] == [] {
        assert blocks == [blocks[0]] + blocks[1..];
      }
    } else {
      assert (d + ['.'])[0] == d[0] && (d + ['.'])[1..] == d[1..] + ['.'];
      FitsDotBack(d[1..], blocks, run + 1);
      FitsDotBack(d[1..], blocks, 0);
      if blocks != [] {
        FitsDotBack(d[1..], blocks[1..], 0);
      }
    }
  }

  /** The scanner agrees with `validate_record`. */
  lemma {:induction false} FitsValidate(row: string, blocks: seq<int>)
    ensures Fits(row, blocks, 0) <==> Validate(row, blocks)
    decreases |row|
  {
    LengthsAreSame(SplitRow(row), blocks);
    match Text.IndexOf(row, '.')
    case None =>
      SplitRowWhole(row);
      FitsRun(row, [], blocks, 0);
      assert row + [] == row;
      if row != [] && blocks != [] && blocks[0] == |row| && blocks[1..] == [] {
        assert blocks == [blocks[0]] + blocks[1..];
      }
    case Some(i) =>
      var left, rest := row[..i], row[i + 1..];
      assert row == left + ['.'] + rest;
      if i == 0 {
        assert row == ['.'] + rest;
        SplitRowDotFront(rest);
        FitsValidate(rest, blocks);
      } else {
        FitsHead(left, rest, blocks);
        SplitRowHead(left, rest);
        var pieces := SplitRow(row);
        assert pieces[0] == left && pieces[1..] == SplitRow(rest);
        if blocks != [] {
          FitsValidate(rest, blocks[1..]);
          LengthsAreSame(SplitRow(rest), blocks[1..]);
        }
      }
  }

  /**
   * The reference count: every filling of the unknowns of `rest`, tried from left to right
   * after the springs `done` already fixed, that matches the groups.
   */
  function Fill(done: string, rest: string, blocks: seq<int>): nat
    decreases |rest|
  {
    if rest == [] then (if Fits(done, blocks, 0) then 1 else 0)
    else if rest[0] == '?' then Fill(done + ['.'], rest[1..], blocks) + Fill(done + ['#'], rest[1..], blocks)
    else Fill(done + [rest[0]], rest[1..], blocks)
  }

  function Ref(row: string, blocks: seq<int>): nat
  {
    Fill([], row, blocks)
  }

  /** Known springs are carried over unchanged. */
  lemma {:induction false} FillKnown(done: string, k: string, rest: string, blocks: seq<int>)
    requires '?' !in k
    ensures Fill(done, k + rest, blocks) == Fill(done + k, rest, blocks)
    decreases |k|
  {
    if k == [] {
      assert k + rest == rest && done + k == done;
    } else {
      assert (k + rest)[0] == k[0] && (k + rest)[1..] == k[1..] + rest;
      assert done + k == done + [k[0]] + k[1..];
      FillKnown(done + [k[0]], k[1..], rest, blocks);
    }
  }

  /** A row without unknowns has the single filling, itself. */
  lemma RefKnown(row: string, blocks: seq<int>)
    requires '?' !in row
    ensures Ref(row, blocks) == if Validate(row, blocks) then 1 else 0
  {
    FillKnown([], row, [], blocks);
    assert row + [] == row && [] + row == row;
    FitsValidate(row, blocks);
  }

  /** The fillings split on the first unknown into those with `.` and those with `#` there. */
  lemma RefSplitAt(row: string, i: nat, blocks: seq<int>)
    requires i < |row| && row[i] == '?' && '?' !in row[..i]
    ensures Ref(row, blocks) == Ref(Replace(row, i, '.'), blocks) + Ref(Replace(row, i, '#'), blocks)
  {
    RefAtUnknown(row, i, blocks);
    RefReplaced(row, i, '.', blocks);
    RefReplaced(row, i, '#', blocks);
  }

  lemma RefAtUnknown(row: string, i: nat, blocks: seq<int>)
    requires i < |row| && row[i] == '?' && '?' !in row[..i]
    ensures Ref(row, blocks) == Fill(row[..i] + ['.'], row[i + 1..], blocks) + Fill(row[..i] + ['#'], row[i + 1..], blocks)
  {
    var k := row[..i];
    assert row == k + row[i..];
    FillKnown([], k, row[i..], blocks);
    assert [] + k == k;
    assert row[i..][0] == '?' && row[i..][1..] == row[i + 1..];
  }

  lemma RefReplaced(row: string, i: nat, c: char, blocks: seq<int>)
    requires i < |row| && '?' !in row[..i] && c != '?'
    ensures Ref(Replace(row, i, c), blocks) == Fill(row[..i] + [c], row[i + 1..], blocks)
  {
    var k, x := row[..i], row[i..];
    assert row == k + x;
    ReplaceAfter(k, x, c);
    assert x[1..] == row[i + 1..];
    var y := [c] + x[1..];
    FillKnown([], k, y, blocks);
    assert [] + k == k;
    assert y[0] == c && y[1..] == x[1..];
  }

  /** Replacing just after a prefix leaves the prefix alone. */
  lemma {:induction false} ReplaceAfter(k: string, x: string, c: char)
    requires x != []
    ensures Replace(k + x, |k|, c) == k + ([c] + x[1..])
    decreases |k|
  {
    if k == [] {
      assert k + x == x;
    } else {
      assert (k + x)[0] == k[0] && (k + x)[1..] == k[1..] + x;
      ReplaceAfter(k[1..], x, c);
      assert k + ([c] + x[1..]) == [k[0]] + (k[1..] + ([c] + x[1..]));
    }
  }

  /** Each unknown at most doubles the number of fillings. */
  lemma {:induction false} FillBound(done: string, rest: string, blocks: seq<int>)
    ensures Fill(done, rest, blocks) <= Pow2(Unknowns(rest))
    decreases |rest|
  {
    if rest != [] {
      var c := rest[0];
      assert rest == [c] + rest[1..];
      Text.CountCharConcat([c], rest[1..], '?');
      assert [c][..0] == [];
      var n := Unknowns(rest[1..]);
      FillBound(done + ['.'], rest[1..], blocks);
      FillBound(done + ['#'], rest[1..], blocks);
      FillBound(done + [c], rest[1..], blocks);
      if c == '?' {
        assert Unknowns(rest) == n + 1;
      } else {
        assert Unknowns(rest) == n;
      }
    }
  }

  lemma RefBound(row: string, blocks: seq<int>)
    ensures Ref(row, blocks) <= Pow2(Unknowns(row))
  {
    FillBound([], row, blocks);
  }

  /** A leading `.` in the fixed springs never changes which fillings match. */
  lemma {:induction false} FillDotFront(d: string, rest: string, blocks: seq<int>)
    ensures Fill(['.'] + d, rest, blocks) == Fill(d, rest, blocks)
    decreases |rest|
  {
    if rest == [] {
      assert (['.'] + d)[1..] == d;
    } else {
      assert ['.'] + d + ['.'] == ['.'] + (d + ['.']);
      assert ['.'] + d + ['#'] == ['.'] + (d + ['#']);
      assert ['.'] + d + [rest[0]] == ['.'] + (d + [rest[0]]);
      FillDotFront(d + ['.'], rest[1..], blocks);
      FillDotFront(d + ['#'], rest[1..], blocks);
      FillDotFront(d + [rest[0]], rest[1..], blocks);
    }
  }

  /** An operational spring in front changes no filling's validity. */
  lemma RefDotFront(x: string, blocks: seq<int>)
    ensures Ref(['.'] + x, blocks) == Ref(x, blocks)
  {
    assert (['.'] + x)[1..] == x && [] + ['.'] == ['.'] + [];
    FillDotFront([], x, blocks);
  }

  /** A trailing `.` never changes which fillings match. */
  lemma {:induction false} FillDotBack(d: string, x: string, blocks: seq<int>)
    ensures Fill(d, x + ['.'], blocks) == Fill(d, x, blocks)
    decreases |x|
  {
    if x == [] {
      assert x + ['.'] == ['.'] && ['.'][1..] == [];
      FitsDotBack(d, blocks, 0);
    } else {
      assert (x + ['.'])[0] == x[0] && (x + ['.'])[1..] == x[1..] + ['.'];
      FillDotBack(d + ['.'], x[1..], blocks);
      FillDotBack(d + ['#'], x[1..], blocks);
      FillDotBack(d + [x[0]], x[1..], blocks);
    }
  }

  /** An operational spring at the end changes no filling's validity. */
  lemma RefDotBack(x: string, blocks: seq<int>)
    ensures Ref(x + ['.'], blocks) == Ref(x, blocks)
  {
    FillDotBack([], x, blocks);
  }

  lemma {:induction false} RefLStrip(x: string, blocks: seq<int>)
    ensures Ref(LStripDots(x), blocks) == Ref(x, blocks)
  {
    if x != [] && x[0] == '.' {
      RefLStrip(x[1..], blocks);
      assert x == ['.'] + x[1..];
      RefDotFront(x[1..], blocks);
    }
  }

  lemma {:induction false} RefRStrip(x: string, blocks: seq<int>)
    ensures Ref(RStripDots(x), blocks) == Ref(x, blocks)
  {
    if x != [] && x[|x| - 1] == '.' {
      RefRStrip(x[..|x| - 1], blocks);
      assert x == x[..|x| - 1] + ['.'];
      RefDotBack(x[..|x| - 1], blocks);
    }
  }

  /** Stripping operational springs from the ends never changes the count. */
  lemma RefStrip(x: string, blocks: seq<int>)
    ensures Ref(StripDots(x), blocks) == Ref(x, blocks)
  {
    RefRStrip(x, blocks);
    RefLStrip(RStripDots(x), blocks);
  }

  /**
   * A known leading group closed by `.`: a filling of what follows matches exactly when the
   * first group is that group's length and the filling matches the remaining groups.
   */
  lemma {:induction false} FillHead(left: string, d: string, rest: string, blocks: seq<int>)
    requires left != [] && '.' !in left
    ensures Fill(left + ['.'] + d, rest, blocks) == if blocks != [] && blocks[0] == |left| then Fill(d, rest, blocks[1..]) else 0
    decreases |rest|
  {
    if rest == [] {
      FitsHead(left, d, blocks);
    } else {
      var p := left + ['.'];
      assert p + d + ['.'] == p + (d + ['.']);
      assert p + d + ['#'] == p + (d + ['#']);
      assert p + d + [rest[0]] == p + (d + [rest[0]]);
      FillHead(left, d + ['.'], rest[1..], blocks);
      FillHead(left, d + ['#'], rest[1..], blocks);
      FillHead(left, d + [rest[0]], rest[1..], blocks);
    }
  }

  lemma RefHead(left: string, rest: string, blocks: seq<int>)
    requires left != [] && '.' !in left && '?' !in left
    ensures Ref(left + ['.'] + rest, blocks) == if blocks != [] && blocks[0] == |left| then Ref(rest, blocks[1..]) else 0
  {
    var p := left + ['.'];
    assert '?' !in p;
    FillKnown([], p, rest, blocks);
    assert [] + p == p + [];
    FillHead(left, [], rest, blocks);
  }

  /** A row cut at its first separator, a `.`: a piece without separators, the `.`, the rest. */
  lemma FirstSepSlices(s: string, i: nat)
    requires FirstSep(s) == Some(i) && s[i] == '.'
    ensures '.' !in s[..i] && '?' !in s[..i]
    ensures s == s[..i] + ['.'] + s[i + 1..]
  {
    assert forall k :: 0 <= k < i ==> s[..i][k] == s[k];
  }

  /** The recursion of `count_arrangements` counts exactly the fillings that match the groups. */
  lemma {:induction false} CountIsRef(row: string, blocks: seq<int>)
    ensures Count(row, blocks) == Ref(row, blocks)
    decreases Unknowns(row), |row|, |blocks| + 1, 1
  {
    var r := StripDots(row);
    var sep := FirstSep(r);
    if sep.Some? && r[sep.value] == '.' {
      DotIsRef(row, blocks, sep.value);
    } else if '?' in r {
      UnknownIsRef(row, blocks, Text.IndexOf(r, '?').value);
    } else {
      CountAtKnown(row, blocks);
      RefStrip(row, blocks);
      RefKnown(r, blocks);
    }
  }

  /** The case of a first separator `.`: only the split at the first group can match. */
  lemma {:induction false} DotIsRef(row: string, blocks: seq<int>, i: nat)
    requires FirstSep(StripDots(row)) == Some(i) && StripDots(row)[i] == '.'
    ensures Count(row, blocks) == Ref(row, blocks)
    decreases Unknowns(row), |row|, |blocks| + 1, 0
  {
    var r := StripDots(row);
    var left, right := r[..i], LStripDots(r[i + 1..]);
    CountAtDot(row, blocks, i);
    RefStrip(row, blocks);
    assert i > 0;
    FirstSepSlices(r, i);
    RestUnknowns(r, i);
    DotSumValue(left, right, blocks, 1);
    if blocks != [] && blocks[0] == |left| {
      CountIsRef(right, blocks[1..]);
    }
    if blocks != [] {
      RefLStrip(r[i + 1..], blocks[1..]);
    }
    RefHead(left, r[i + 1..], blocks);
  }

  /** The case of a first separator `?`: the fillings with `.` there and those with `#`. */
  lemma {:induction false} UnknownIsRef(row: string, blocks: seq<int>, q: nat)
    requires !(FirstSep(StripDots(row)).Some? && StripDots(row)[FirstSep(StripDots(row)).value] == '.')
    requires Text.IndexOf(StripDots(row), '?') == Some(q)
    ensures Count(row, blocks) == Ref(row, blocks)
    decreases Unknowns(row), |row|, |blocks| + 1, 0
  {
    var r := StripDots(row);
    CountAtUnknown(row, blocks, q);
    RefStrip(row, blocks);
    RefSplitAt(r, q, blocks);
    ReplaceUnknowns(r, q, '.');
    ReplaceUnknowns(r, q, '#');
    CountIsRef(LStripDots(Replace(r, q, '.')), blocks);
    CountIsRef(LStripDots(Replace(r, q, '#')), blocks);
    RefLStrip(Replace(r, q, '.'), blocks);
    RefLStrip(Replace(r, q, '#'), blocks);
  }

  /** The three cases of `count_arrangements`, one at a time. */
  lemma CountAtDot(row: string, blocks: seq<int>, i: nat)
    requires FirstSep(StripDots(row)) == Some(i) && StripDots(row)[i] == '.'
    ensures Count(row, blocks) == DotSum(StripDots(row)[..i], LStripDots(StripDots(row)[i + 1..]), blocks, 1)
  {
  }

  lemma CountAtUnknown(row: string, blocks: seq<int>, q: nat)
    requires !(FirstSep(StripDots(row)).Some? && StripDots(row)[FirstSep(StripDots(row)).value] == '.')
    requires Text.IndexOf(StripDots(row), '?') == Some(q)
    ensures Count(row, blocks) == Count(LStripDots(Replace(StripDots(row), q, '.')), blocks) + Count(LStripDots(Replace(StripDots(row), q, '#')), blocks)
  {
  }

  lemma CountAtKnown(row: string, blocks: seq<int>)
    requires !(FirstSep(StripDots(row)).Some? && StripDots(row)[FirstSep(StripDots(row)).value] == '.')
    requires '?' !in StripDots(row)
    ensures Count(row, blocks) == if Validate(StripDots(row), blocks) then 1 else 0
  {
  }

  /** A row without unknowns counts 1 if it matches its groups and 0 otherwise. */
  lemma CountKnown(row: string, blocks: seq<int>)
    requires '?' !in row
    ensures Count(row, blocks) == if Validate(row, blocks) then 1 else 0
  {
    CountIsRef(row, blocks);
    RefKnown(row, blocks);
  }

  /** The count never exceeds the number of fillings, and stripping `.` never changes it. */
  lemma CountFacts(row: string, blocks: seq<int>)
    ensures Count(row, blocks) <= Pow2(Unknowns(row))
    ensures Count(StripDots(row), blocks) == Count(row, blocks)
  {
    CountIsRef(row, blocks);
    CountIsRef(StripDots(row), blocks);
    RefBound(row, blocks);
    RefStrip(row, blocks);
  }

  /** `sum_arrangements`. */
  function SumArrangements(records: seq<Record>): nat
  {
    if records == [] then 0 else SumArrangements(records[..|records| - 1]) + Count(records[|records| - 1].0, records[|records| - 1].1)
  }

  /** The total is the number of matching fillings over all records. */
  lemma {:induction false} SumArrangementsRef(records: seq<Record>)
    ensures SumArrangements(records) == SumRef(records)
  {
    if records != [] {
      SumArrangementsRef(records[..|records| - 1]);
      CountIsRef(records[|records| - 1].0, records[|records| - 1].1);
    }
  }

  function SumRef(records: seq<Record>): nat
  {
    if records == [] then 0 else SumRef(records[..|records| - 1]) + Ref(records[|records| - 1].0, records[|records| - 1].1)
  }

  function Repeat<T>(x: T, n: nat): (r: seq<T>)
    ensures |r| == n && forall k :: 0 <= k < n ==> r[k] == x
  {
    seq(n, k => x)
  }

  /** `tuple * n`. */
  function Times(s: seq<int>, n: nat): (r: seq<int>)
    ensures |r| == n * |s|
  {
    if n == 0 then [] else s + Times(s, n - 1)
  }

  /** The unfolding of `parse_input`: five copies of the row joined by `?`, the groups five times over. */
  function Unfold(record: Record): Record
  {
    (Text.Join(Repeat(record.0, 5), '?'), Times(record.1, 5))
  }

  lemma {:induction false} JoinRepeat(row: string, n: nat)
    requires n >= 1
    ensures |Text.Join(Repeat(row, n), '?')| == n * |row| + n - 1
    ensures Unknowns(Text.Join(Repeat(row, n), '?')) == n * Unknowns(row) + n - 1
  {
    if n > 1 {
      JoinRepeat(row, n - 1);
      var j := Text.Join(Repeat(row, n - 1), '?');
      assert Repeat(row, n)[1..] == Repeat(row, n - 1);
      assert Text.Join(Repeat(row, n), '?') == row + ['?'] + j;
      Text.CountCharConcat(row + ['?'], j, '?');
      Text.CountCharConcat(row, ['?'], '?');
      MulStep(n, |row|);
      MulStep(n, Unknowns(row));
    }
  }

  lemma MulStep(n: nat, a: int)
    requires n >= 1
    ensures (n - 1) * a + a == n * a
  {
  }

  /**
   * The unfolded row is five copies with four `?` between them, so it splits back on `?` into
   * the five copies when the row has no unknowns; the groups are five copies of the groups.
   */
  lemma UnfoldFacts(record: Record)
    ensures |Unfold(record).0| == 5 * |record.0| + 4
    ensures Unknowns(Unfold(record).0) == 5 * Unknowns(record.0) + 4
    ensures '?' !in record.0 ==> Text.Split(Unfold(record).0, '?') == Repeat(record.0, 5)
    ensures |Unfold(record).1| == 5 * |record.1|
    ensures Unfold(record).1 == record.1 + record.1 + record.1 + record.1 + record.1
  {
    JoinRepeat(record.0, 5);
    if '?' !in record.0 {
      Text.SplitJoin(Repeat(record.0, 5), '?');
    }
    TimesFive(record.1);
  }

  lemma TimesFive(b: seq<int>)
    ensures Times(b, 5) == b + b + b + b + b
  {
    assert Times(b, 1) == b by {
      assert b + [] == b;
    }
    assert Times(b, 2) == b + b;
    assert Times(b, 3) == b + (b + b);
    assert Times(b, 4) == b + (b + (b + b));
    assert Times(b, 5) == b + (b + (b + (b + b)));
  }

  datatype ParseError = NotTwoFields(line: string) | NotAnInt(text: string)

  /** `map(int, text.split(","))`. */
  function ParseBlocks(parts: seq<string>): (r: Result<seq<int>, ParseError>)
    ensures r.Ok? ==> |r.value| == |parts| && forall k :: 0 <= k < |parts| ==> Text.ParseInt(parts[k]) == Some(r.value[k])
    ensures r.Err? <==> exists k :: 0 <= k < |parts| && Text.ParseInt(parts[k]).None?
  {
    if parts == [] then Ok([])
    else
      var last := parts[|parts| - 1];
      match ParseBlocks(parts[..|parts| - 1])
      case Err(e) =>
        assert forall k :: 0 <= k < |parts| - 1 ==> parts[..|parts| - 1][k] == parts[k];
        Err(e)
      case Ok(front) =>
        match Text.ParseInt(last)
        case None => Err(NotAnInt(last))
        case Some(v) =>
          assert forall k :: 0 <= k < |parts| - 1 ==> parts[..|parts| - 1][k] == parts[k];
          Ok(front + [v])
  }

  /** One line of `parse_input`: `row, blocks = line.split(" ")`, optionally unfolded. */
  function ParseLine(line: string, unfold: bool): (r: Result<Record, ParseError>)
    ensures r.Ok? ==> |Text.Split(line, ' ')| == 2
    ensures r.Ok? && !unfold ==> r.value.0 == Text.Split(line, ' ')[0]
    ensures r.Ok? ==> ParseBlocks(Text.Split(Text.Split(line, ' ')[1], ',')).Ok?
    ensures r.Ok? && unfold ==> r.value == Unfold((Text.Split(line, ' ')[0], ParseBlocks(Text.Split(Text.Split(line, ' ')[1], ',')).value))
    ensures r.Ok? && !unfold ==> r.value.1 == ParseBlocks(Text.Split(Text.Split(line, ' ')[1], ',')).value
    ensures |Text.Split(line, ' ')| != 2 ==> r == Err(NotTwoFields(line))
  {
    var fields := Text.Split(line, ' ');
    if |fields| != 2 then Err(NotTwoFields(line))
    else
      match ParseBlocks(Text.Split(fields[1], ','))
      case Err(e) => Err(e)
      case Ok(blocks) => if unfold then Ok(Unfold((fields[0], blocks))) else Ok((fields[0], blocks))
  }

  /** `parse_input` over the lines of the file. */
  function ParseInput(lines: seq<string>, unfold: bool): (r: Result<seq<Record>, ParseError>)
    ensures r.Ok? ==> |r.value| == |Text.Lines(lines)|
    ensures r.Ok? ==> forall k :: 0 <= k < |r.value| ==> ParseLine(Text.Lines(lines)[k], unfold) == Ok(r.value[k])
  {
    ParseAll(Text.Lines(lines), unfold)
  }

  function ParseAll(lines: seq<string>, unfold: bool): (r: Result<seq<Record>, ParseError>)
    ensures r.Ok? ==> |r.value| == |lines|
    ensures r.Ok? ==> forall k :: 0 <= k < |lines| ==> ParseLine(lines[k], unfold) == Ok(r.value[k])
    ensures r.Err? ==> exists k :: 0 <= k < |lines| && ParseLine(lines[k], unfold).Err?
  {
    if lines == [] then Ok([])
    else
      match ParseLine(lines[0], unfold)
      case Err(e) => Err(e)
      case Ok(rec) =>
        match ParseAll(lines[1..], unfold)
        case Err(e) => Err(e)
        case Ok(rest) => Ok([rec] + rest)
  }
}
