/**
 * Cosmic expansion (day11): every empty row and column of the image grows by a factor,
 * galaxies move by the growth before them, and distances are Manhattan distances.
 */
module Cosmic {
  import opened Wrappers
  import Text

  /** A galaxy's (x, y) position in the image. */
  type Cell = (nat, nat)

  predicate IsGalaxy(lines: seq<string>, x: nat, y: nat)
  {
    y < |lines| && x < |lines[y]| && lines[y][x] == '#'
  }

  /** The galaxies of the cleaned lines whose position comes before (x, y) in reading order. */
  ghost predicate ScannedTo(lines: seq<string>, galaxies: set<Cell>, y: nat, x: nat)
  {
    forall p: Cell :: p in galaxies <==> IsGalaxy(lines, p.0, p.1) && (p.1 < y || (p.1 == y && p.0 < x))
  }

  /**
   * The line-scanning part of `parse_input`: the set of positions holding `#`, with x the
   * column within a cleaned line and y the index of that line.
   */
  method ParseGalaxies(input: seq<string>) returns (galaxies: set<Cell>)
    ensures forall x: nat, y: nat :: (x, y) in galaxies <==> IsGalaxy(Text.Lines(input), x, y)
  {
    var lines := Text.Lines(input);
    galaxies := {};
    for y := 0 to |lines|
      invariant ScannedTo(lines, galaxies, y, 0)
    {
      for x := 0 to |lines[y]|
        invariant ScannedTo(lines, galaxies, y, x)
      {
        if lines[y][x] == '#' {
          galaxies := galaxies + {(x, y)};
        }
      }
    }
  }

  /** A galaxy's coordinate along axis `d` (0 for x, 1 for y). */
  function Coord(g: Cell, d: nat): nat { if d == 0 then g.0 else g.1 }

  /** The coordinates occupied along axis `d`. */
  function Occupied(galaxies: seq<Cell>, d: nat): set<nat>
  {
    set k | 0 <= k < |galaxies| :: Coord(galaxies[k], d)
  }

  /** `max(occupied_n[d])`: the largest coordinate along axis `d`. */
  function MaxAlong(galaxies: seq<Cell>, d: nat): (r: nat)
    requires galaxies != []
    ensures r in Occupied(galaxies, d)
    ensures forall k :: 0 <= k < |galaxies| ==> Coord(galaxies[k], d) <= r
  {
    var c := Coord(galaxies[|galaxies| - 1], d);
    if |galaxies| == 1 then c
    else
      var m := MaxAlong(galaxies[..|galaxies| - 1], d);
      assert forall k :: 0 <= k < |galaxies| - 1 ==> galaxies[..|galaxies| - 1][k] == galaxies[k];
      if c < m then m else c
  }

  /**
   * The growth before coordinate n: every empty coordinate in 1..n adds `factor - 1`; index 0
   * never adds anything, empty or not.
   */
  function Offset(occupied: set<nat>, factor: int, n: nat): int
  {
    if n == 0 then 0
    else Offset(occupied, factor, n - 1) + (if n in occupied then 0 else factor - 1)
  }

  /** How many of the coordinates 1..n are empty. */
  function EmptyCount(occupied: set<nat>, n: nat): (r: nat)
    ensures r <= n
  {
    if n == 0 then 0 else EmptyCount(occupied, n - 1) + (if n in occupied then 0 else 1)
  }

  /** The growth before n is `factor - 1` per empty coordinate from 1 to n. */
  lemma {:induction false} OffsetCount(occupied: set<nat>, factor: int, n: nat)
    ensures Offset(occupied, factor, n) == (factor - 1) * EmptyCount(occupied, n)
  {
    if n > 0 {
      OffsetCount(occupied, factor, n - 1);
      Distribute(factor - 1, EmptyCount(occupied, n - 1), if n in occupied then 0 else 1);
    }
  }

  lemma Distribute(a: int, b: int, c: int)
    ensures a * (b + c) == a * b + a * c
  {
  }

  /** Factor 1 leaves every coordinate where it is. */
  lemma {:induction false} OffsetUnit(occupied: set<nat>, n: nat)
    ensures Offset(occupied, 1, n) == 0
  {
    if n > 0 {
      OffsetUnit(occupied, n - 1);
    }
  }

  /** For factor at least 1, growth never shrinks further along the axis. */
  lemma {:induction false} OffsetMonotone(occupied: set<nat>, factor: int, m: nat, n: nat)
    requires factor >= 1 && m <= n
    ensures Offset(occupied, factor, m) <= Offset(occupied, factor, n)
    decreases n
  {
    if m < n {
      OffsetMonotone(occupied, factor, m, n - 1);
    }
  }

  /** For factor at least 1, expansion keeps the strict order of the coordinates. */
  lemma OffsetOrder(occupied: set<nat>, factor: int, m: nat, n: nat)
    requires factor >= 1 && m < n
    ensures m + Offset(occupied, factor, m) < n + Offset(occupied, factor, n)
  {
    OffsetMonotone(occupied, factor, m, n);
  }

  /**
   * The inner loop of `expand_galaxies` for one axis: the list of offsets of 0..maxN, each
   * the previous one plus `factor - 1` when the coordinate is empty.
   */
  method AxisOffsets(occupied: set<nat>, maxN: nat, factor: int) returns (offsets: seq<int>)
    ensures |offsets| == maxN + 1
    ensures forall n :: 0 <= n <= maxN ==> offsets[n] == Offset(occupied, factor, n)
  {
    offsets := [0];
    for n := 1 to maxN + 1
      invariant |offsets| == n && offsets[0] == 0
      invariant forall k :: 0 <= k < n ==> offsets[k] == Offset(occupied, factor, k)
    {
      offsets := offsets + [offsets[n - 1] + (if n in occupied then 0 else factor - 1)];
    }
  }

  datatype ExpandError = NoGalaxies

  /** Where a galaxy ends up: each coordinate moved by its axis's growth before it. */
  function Moved(galaxies: seq<Cell>, factor: int, g: Cell): (int, int)
  {
    (g.0 + Offset(Occupied(galaxies, 0), factor, g.0), g.1 + Offset(Occupied(galaxies, 1), factor, g.1))
  }

  /**
   * `expand_galaxies`, with the galaxy set given as the sequence of its members in iteration
   * order: one moved point per galaxy. With no galaxies `max` of an empty set raises.
   */
  method ExpandGalaxies(galaxies: seq<Cell>, factor: int) returns (r: Result<seq<(int, int)>, ExpandError>)
    ensures r.Err? <==> galaxies == []
    ensures r.Ok? ==> |r.value| == |galaxies|
    ensures r.Ok? ==> forall k :: 0 <= k < |galaxies| ==> r.value[k] == Moved(galaxies, factor, galaxies[k])
  {
    if galaxies == [] {
      return Err(NoGalaxies);
    }
    var xOffsets := AxisOffsets(Occupied(galaxies, 0), MaxAlong(galaxies, 0), factor);
    var yOffsets := AxisOffsets(Occupied(galaxies, 1), MaxAlong(galaxies, 1), factor);
    assert forall k :: 0 <= k < |galaxies| ==> galaxies[k].0 < |xOffsets| && galaxies[k].1 < |yOffsets|;
    var moved := seq(|galaxies|, k requires 0 <= k < |galaxies| =>
      (galaxies[k].0 + xOffsets[galaxies[k].0], galaxies[k].1 + yOffsets[galaxies[k].1]));
    forall k | 0 <= k < |galaxies|
      ensures moved[k] == Moved(galaxies, factor, galaxies[k])
    {
      var g := galaxies[k];
      assert xOffsets[g.0] == Offset(Occupied(galaxies, 0), factor, g.0);
      assert yOffsets[g.1] == Offset(Occupied(galaxies, 1), factor, g.1);
    }
    return Ok(moved);
  }

  /** With factor 1 every galaxy stays where it is. */
  lemma MovedUnit(galaxies: seq<Cell>, g: Cell)
    ensures Moved(galaxies, 1, g) == (g.0 as int, g.1 as int)
  {
    OffsetUnit(Occupied(galaxies, 0), g.0);
    OffsetUnit(Occupied(galaxies, 1), g.1);
  }

  /** With factor at least 1, galaxies keep their strict order along each axis. */
  lemma MovedOrder(galaxies: seq<Cell>, factor: int, a: Cell, b: Cell)
    requires factor >= 1
    ensures a.0 < b.0 ==> Moved(galaxies, factor, a).0 < Moved(galaxies, factor, b).0
    ensures a.1 < b.1 ==> Moved(galaxies, factor, a).1 < Moved(galaxies, factor, b).1
    ensures a.0 == b.0 ==> Moved(galaxies, factor, a).0 == Moved(galaxies, factor, b).0
    ensures a.1 == b.1 ==> Moved(galaxies, factor, a).1 == Moved(galaxies, factor, b).1
  {
    if a.0 < b.0 {
      OffsetOrder(Occupied(galaxies, 0), factor, a.0, b.0);
    }
    if a.1 < b.1 {
      OffsetOrder(Occupied(galaxies, 1), factor, a.1, b.1);
    }
  }

  function Abs(n: int): nat { if n < 0 then -n else n }

  /** `distance`: the Manhattan distance of two points. */
  function Distance(a: (int, int), b: (int, int)): (r: nat)
    ensures r == 0 <==> a == b
    ensures r >= Abs(a.0 - b.0) && r >= Abs(a.1 - b.1)
  {
    Abs(a.0 - b.0) + Abs(a.1 - b.1)
  }

  /** Distance is symmetric and obeys the triangle inequality. */
  lemma DistanceMetric(a: (int, int), b: (int, int), c: (int, int))
    ensures Distance(a, b) == Distance(b, a)
    ensures Distance(a, c) <= Distance(a, b) + Distance(b, c)
  {
  }

  /** `list_pairs(n)`: all index pairs (i, j) with i < j below n. */
  function ListPairs(n: nat): (r: set<(nat, nat)>)
    ensures forall i: nat, j: nat :: (i, j) in r <==> i < j < n
  {
    set i: nat, j: nat | i < j < n :: (i, j)
  }

  /** The pairs whose second index is j and whose first is below i. */
  function Column(i: nat, j: nat): set<(nat, nat)>
  {
    set k: nat | k < i :: (k, j)
  }

  lemma {:induction false} ColumnSize(i: nat, j: nat)
    ensures |Column(i, j)| == i
  {
    if i > 0 {
      ColumnSize(i - 1, j);
      assert Column(i, j) == Column(i - 1, j) + {(i - 1, j)};
    }
  }

  lemma PairCount(m: nat, c: nat)
    requires 2 * c == m * (m - 1)
    ensures 2 * (c + m) == (m + 1) * m
  {
  }

  /** There are n(n-1)/2 pairs of distinct indices below n. */
  lemma {:induction false} ListPairsSize(n: nat)
    ensures 2 * |ListPairs(n)| == n * (n - 1)
  {
    if n > 0 {
      ListPairsSize(n - 1);
      ColumnSize(n - 1, n - 1);
      ListPairsGrow(n);
      PairCount(n - 1, |ListPairs(n - 1)|);
    }
  }

  /** The pairs below n are those below n - 1 and, apart from them, those ending at n - 1. */
  lemma ListPairsGrow(n: nat)
    requires n > 0
    ensures ListPairs(n) == ListPairs(n - 1) + Column(n - 1, n - 1)
    ensures |ListPairs(n)| == |ListPairs(n - 1)| + |Column(n - 1, n - 1)|
  {
    var before, last := ListPairs(n - 1), Column(n - 1, n - 1);
    forall i: nat, j: nat ensures (i, j) in ListPairs(n) <==> (i, j) in before + last {
      assert (i, j) in last <==> i < j == n - 1;
    }
    assert before * last == {} by {
      forall i: nat, j: nat | (i, j) in last ensures (i, j) !in before { }
    }
  }
}
