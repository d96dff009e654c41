/**
 * Step counter (day21): the garden plots of a map that repeats in every direction, and the
 * plots an elf can stand on after each number of single orthogonal steps from the start.
 */
module Garden {
  import opened Wrappers
  import Text

  const Rock := '#'
  const Start := 'S'

  /** An (x, y) position; y grows downwards. */
  type Vec = (int, int)

  datatype GardenError =
    | NoStart                              // no `S` on the map
    | MultipleStarts(first: Vec, second: Vec)
    | NoPlots                              // `max` of an empty sequence in `find_grid_size`
    | ZeroDivision                         // `warp` reduced modulo a zero grid size

  // ---------------------------------------------------------------------------------------
  // Reading the map

  /** The positions of row `y` among its first `n` cells whose cell is not a rock, left to right. */
  function RowPlots(row: string, y: int, n: nat): seq<Vec>
    requires n <= |row|
  {
    if n == 0 then [] else RowPlots(row, y, n - 1) + (if row[n - 1] != Rock then [(n - 1, y)] else [])
  }

  /** The positions of row `y` among its first `n` cells that hold the start. */
  function RowStarts(row: string, y: int, n: nat): seq<Vec>
    requires n <= |row|
  {
    if n == 0 then [] else RowStarts(row, y, n - 1) + (if row[n - 1] == Start then [(n - 1, y)] else [])
  }

  /** The plots of the first `m` rows in reading order. */
  function GridPlots(grid: seq<string>, m: nat): seq<Vec>
    requires m <= |grid|
  {
    if m == 0 then [] else GridPlots(grid, m - 1) + RowPlots(grid[m - 1], m - 1, |grid[m - 1]|)
  }

  /** The starts of the first `m` rows in reading order. */
  function GridStarts(grid: seq<string>, m: nat): seq<Vec>
    requires m <= |grid|
  {
    if m == 0 then [] else GridStarts(grid, m - 1) + RowStarts(grid[m - 1], m - 1, |grid[m - 1]|)
  }

  /** The cell at `p` exists and is `c`. */
  predicate CellIs(grid: seq<string>, p: Vec, c: char)
  {
    0 <= p.1 < |grid| && 0 <= p.0 < |grid[p.1]| && grid[p.1][p.0] == c
  }

  lemma {:induction false} RowPlotsAre(row: string, y: int, n: nat)
    requires n <= |row|
    ensures forall p :: p in RowPlots(row, y, n) <==> p.1 == y && 0 <= p.0 < n && row[p.0] != Rock
  {
    if n > 0 {
      RowPlotsAre(row, y, n - 1);
    }
  }

  lemma {:induction false} RowStartsAre(row: string, y: int, n: nat)
    requires n <= |row|
    ensures forall p :: p in RowStarts(row, y, n) <==> p.1 == y && 0 <= p.0 < n && row[p.0] == Start
  {
    if n > 0 {
      RowStartsAre(row, y, n - 1);
    }
  }

  /** The plots are exactly the cells that are not rocks, the `S` among them. */
  lemma {:induction false} GridPlotsAre(grid: seq<string>, m: nat)
    requires m <= |grid|
    ensures forall p :: p in GridPlots(grid, m) <==> 0 <= p.1 < m && 0 <= p.0 < |grid[p.1]| && grid[p.1][p.0] != Rock
  {
    if m > 0 {
      GridPlotsAre(grid, m - 1);
      RowPlotsAre(grid[m - 1], m - 1, |grid[m - 1]|);
    }
  }

  /** The starts are exactly the cells holding `S`. */
  lemma {:induction false} GridStartsAre(grid: seq<string>, m: nat)
    requires m <= |grid|
    ensures forall p :: p in GridStarts(grid, m) <==> 0 <= p.1 < m && CellIs(grid, p, Start)
  {
    if m > 0 {
      GridStartsAre(grid, m - 1);
      RowStartsAre(grid[m - 1], m - 1, |grid[m - 1]|);
    }
  }

  /** What `parse_input` gives for a map: its one start and its plots in reading order. */
  function Parsed(grid: seq<string>): (r: Result<(Vec, seq<Vec>), GardenError>)
  {
    var starts := GridStarts(grid, |grid|);
    if starts == [] then Err(NoStart)
    else if |starts| > 1 then Err(MultipleStarts(starts[0], starts[1]))
    else Ok((starts[0], GridPlots(grid, |grid|)))
  }

  /** The map's starts and plots, scanned cell by cell in reading order. */
  method ScanGrid(grid: seq<string>) returns (r: Result<(Vec, seq<Vec>), GardenError>)
    ensures r == Parsed(grid)
  {
    var plots: seq<Vec> := [];
    var start: Option<Vec> := None;
    for y := 0 to |grid|
      invariant plots == GridPlots(grid, y)
      invariant start == None <==> GridStarts(grid, y) == []
      invariant start.Some? ==> GridStarts(grid, y) == [start.value]
    {
      var row := grid[y];
      for x := 0 to |row|
        invariant plots == GridPlots(grid, y) + RowPlots(row, y, x)
        invariant start == None <==> GridStarts(grid, y) + RowStarts(row, y, x) == []
        invariant start.Some? ==> GridStarts(grid, y) + RowStarts(row, y, x) == [start.value]
      {
        if row[x] != Rock {
          plots := plots + [(x, y)];
        }
        if row[x] == Start {
          if start.Some? {
            SecondStart(grid, y, x, start.value);
            return Err(MultipleStarts(start.value, (x, y)));
          }
          start := Some((x, y));
        }
      }
    }
    if start == None {
      return Err(NoStart);
    }
    r := Ok((start.value, plots));
  }

  /** `parse_input`: the non-blank stripped lines, scanned; raises on a second `S` or on none. */
  method ParseInput(lines: seq<string>) returns (r: Result<(Vec, seq<Vec>), GardenError>)
    ensures r == Parsed(Text.Lines(lines))
  {
    r := ScanGrid(Text.Lines(lines));
  }

  /** A second `S` at (x, y), after exactly one before it, decides the outcome of the whole map. */
  lemma SecondStart(grid: seq<string>, y: nat, x: nat, first: Vec)
    requires y < |grid| && x < |grid[y]| && grid[y][x] == Start
    requires GridStarts(grid, y) + RowStarts(grid[y], y, x) == [first]
    ensures Parsed(grid) == Err(MultipleStarts(first, (x, y)))
  {
    var row := grid[y];
    assert GridStarts(grid, y) + RowStarts(row, y, x + 1) == [first, (x, y)];
    RowStartsPrefix(row, y, x + 1, |row|);
    PrefixAppend(GridStarts(grid, y), RowStarts(row, y, x + 1), RowStarts(row, y, |row|));
    GridStartsPrefix(grid, y + 1, |grid|);
    var s := GridStarts(grid, |grid|);
    PrefixHeads(first, (x, y), s);
  }

  lemma PrefixAppend<T>(a: seq<T>, b: seq<T>, c: seq<T>)
    requires b <= c
    ensures a + b <= a + c
  {
    assert (a + c)[..|a + b|] == a + c[..|b|];
  }

  lemma PrefixHeads<T>(x: T, y: T, s: seq<T>)
    requires [x, y] <= s
    ensures |s| >= 2 && s[0] == x && s[1] == y
  {
    assert s[..2] == [x, y];
    assert s[0] == s[..2][0] && s[1] == s[..2][1];
  }

  lemma {:induction false} RowStartsPrefix(row: string, y: int, n: nat, n': nat)
    requires n <= n' <= |row|
    ensures RowStarts(row, y, n) <= RowStarts(row, y, n')
    decreases n' - n
  {
    if n < n' {
      RowStartsPrefix(row, y, n, n' - 1);
    }
  }

  lemma {:induction false} GridStartsPrefix(grid: seq<string>, m: nat, m': nat)
    requires m <= m' <= |grid|
    ensures GridStarts(grid, m) <= GridStarts(grid, m')
    decreases m' - m
  {
    if m < m' {
      GridStartsPrefix(grid, m, m' - 1);
    }
  }

  /** `s` is the one `S` of the map. */
  ghost predicate OnlyStart(grid: seq<string>, s: Vec)
  {
    CellIs(grid, s, Start) && forall p :: CellIs(grid, p, Start) ==> p == s
  }

  /** A map is accepted exactly when it holds one `S`. */
  lemma ParsedOk(grid: seq<string>)
    ensures Parsed(grid).Ok? <==> exists s :: OnlyStart(grid, s)
  {
    var starts := GridStarts(grid, |grid|);
    GridStartsAre(grid, |grid|);
    if |starts| > 1 {
      StartsDistinct(grid, |grid|, 0, 1);
      assert starts[0] in starts && starts[1] in starts;
      forall s | CellIs(grid, s, Start) ensures !OnlyStart(grid, s) {
        if s == starts[0] {
          assert CellIs(grid, starts[1], Start);
        } else {
          assert CellIs(grid, starts[0], Start);
        }
      }
    } else if |starts| == 1 {
      assert starts[0] in starts;
      forall p | CellIs(grid, p, Start) ensures p == starts[0] {
        assert p in starts;
      }
      assert OnlyStart(grid, starts[0]);
    } else {
      ParsedNoStart(grid);
    }
  }

  /** On success the start is an `S` and a plot, and the plots are exactly the cells that are not rocks. */
  lemma ParsedValue(grid: seq<string>)
    requires Parsed(grid).Ok?
    ensures CellIs(grid, Parsed(grid).value.0, Start) && Parsed(grid).value.0 in Parsed(grid).value.1
    ensures forall p :: p in Parsed(grid).value.1 <==> 0 <= p.1 < |grid| && 0 <= p.0 < |grid[p.1]| && grid[p.1][p.0] != Rock
  {
    var starts := GridStarts(grid, |grid|);
    GridStartsAre(grid, |grid|);
    GridPlotsAre(grid, |grid|);
    assert starts[0] in starts;
  }

  /** A map is refused for having no start exactly when it holds no `S`. */
  lemma ParsedNoStart(grid: seq<string>)
    ensures Parsed(grid) == Err(NoStart) <==> forall p :: !CellIs(grid, p, Start)
  {
    var starts := GridStarts(grid, |grid|);
    GridStartsAre(grid, |grid|);
    if starts != [] {
      assert starts[0] in starts;
    }
  }

  /** The starts are listed in reading order, so no two entries are the same position. */
  lemma StartsDistinct(grid: seq<string>, m: nat, i: nat, j: nat)
    requires m <= |grid| && i < j < |GridStarts(grid, m)|
    ensures GridStarts(grid, m)[i] != GridStarts(grid, m)[j]
  {
    GridStartsOrdered(grid, m);
  }

  /** Reading order: each entry comes strictly before the next. */
  predicate Before(a: Vec, b: Vec) { a.1 < b.1 || (a.1 == b.1 && a.0 < b.0) }

  lemma {:induction false} RowStartsOrdered(row: string, y: int, n: nat)
    requires n <= |row|
    ensures forall i, j :: 0 <= i < j < |RowStarts(row, y, n)| ==> Before(RowStarts(row, y, n)[i], RowStarts(row, y, n)[j])
    ensures forall i :: 0 <= i < |RowStarts(row, y, n)| ==> RowStarts(row, y, n)[i].1 == y && RowStarts(row, y, n)[i].0 < n
  {
    if n > 0 {
      RowStartsOrdered(row, y, n - 1);
      var a := RowStarts(row, y, n - 1);
      assert forall i :: 0 <= i < |a| ==> a[i] in a;
    }
  }

  lemma {:induction false} GridStartsOrdered(grid: seq<string>, m: nat)
    requires m <= |grid|
    ensures forall i, j :: 0 <= i < j < |GridStarts(grid, m)| ==> Before(GridStarts(grid, m)[i], GridStarts(grid, m)[j])
    ensures forall i :: 0 <= i < |GridStarts(grid, m)| ==> GridStarts(grid, m)[i].1 < m
  {
    if m > 0 {
      GridStartsOrdered(grid, m - 1);
      RowStartsOrdered(grid[m - 1], m - 1, |grid[m - 1]|);
    }
  }

  // ---------------------------------------------------------------------------------------
  // Steps on the repeating map

  /** `neighbors_of`: south, north, east, west. */
  function NeighborsOf(v: Vec): (r: seq<Vec>)
    ensures |r| == 4
  {
    [(v.0, v.1 + 1), (v.0, v.1 - 1), (v.0 + 1, v.1), (v.0 - 1, v.1)]
  }

  function Abs(n: int): nat { if n < 0 then -n else n }

  /** The neighbours are exactly the positions one orthogonal step away. */
  lemma NeighborsSpec(v: Vec, n: Vec)
    ensures n in NeighborsOf(v) <==> Abs(n.0 - v.0) + Abs(n.1 - v.1) == 1
    ensures n in NeighborsOf(v) <==> v in NeighborsOf(n)
  {
  }

  /** Python's `a % n` for a non-zero `n`: the remainder takes the sign of the divisor. */
  function FloorMod(a: int, n: int): (r: int)
    requires n != 0
    ensures n > 0 ==> 0 <= r < n
    ensures n < 0 ==> n < r <= 0
  {
    if n > 0 then a % n else -((-a) % (-n))
  }

  /** Python's `a // n`, rounding towards minus infinity. */
  function FloorDiv(a: int, n: int): int
    requires n != 0
  {
    if n > 0 then a / n else (-a) / (-n)
  }

  /** The remainder is what is left of `a` after the quotient's multiple of `n`. */
  lemma FloorDivMod(a: int, n: int)
    requires n != 0
    ensures a == n * FloorDiv(a, n) + FloorMod(a, n)
  {
    if n < 0 {
      var q := (-a) / (-n);
      assert -a == (-n) * q + (-a) % (-n);
      NegMul(n, q);
    }
  }

  lemma NegMul(n: int, q: int)
    ensures (-n) * q == -(n * q)
  {
  }

  /** Division with a remainder in range is unique. */
  lemma ModUnique(a: int, n: int, q: int, r: int)
    requires n > 0 && a == n * q + r && 0 <= r < n
    ensures a % n == r
  {
    var q', r' := a / n, a % n;
    assert a == n * q' + r';
    MulSubInt(n, q, q');
    if q - q' >= 1 {
      MulAtLeast(n, q - q');
    } else if q' - q >= 1 {
      MulAtLeast(n, q' - q);
      MulSubInt(n, q', q);
    }
  }

  lemma MulSubInt(n: int, x: int, y: int)
    ensures n * (x - y) == n * x - n * y
  {
  }

  lemma MulAtLeast(n: int, d: int)
    requires n > 0 && d >= 1
    ensures n * d >= n
  {
  }

  lemma ModAddSelf(b: int, m: int)
    requires m > 0
    ensures (b + m) % m == b % m
  {
    var q := b / m;
    assert b == m * q + b % m;
    assert m * (q + 1) == m * q + m;
    ModUnique(b + m, m, q + 1, b % m);
  }

  /** Adding the divisor does not change the remainder. */
  lemma FloorModPeriodic(a: int, n: int)
    requires n != 0
    ensures FloorMod(a + n, n) == FloorMod(a, n)
  {
    if n > 0 {
      ModAddSelf(a, n);
    } else {
      assert -(a + n) == -a + (-n);
      ModAddSelf(-a, -n);
    }
  }

  /** A remainder already in range is its own remainder. */
  lemma FloorModInRange(a: int, n: int)
    requires n > 0 && 0 <= a < n
    ensures FloorMod(a, n) == a
  {
  }

  /** `warp_grid(size)(pt)`: the position on the one copy of the map at the origin. */
  function Warp(size: Vec, pt: Vec): Vec
    requires size.0 != 0 && size.1 != 0
  {
    (FloorMod(pt.0, size.0), FloorMod(pt.1, size.1))
  }

  /** Warping is the same on every copy of the map and lands on the copy at the origin. */
  lemma WarpSpec(size: Vec, pt: Vec)
    requires size.0 > 0 && size.1 > 0
    ensures 0 <= Warp(size, pt).0 < size.0 && 0 <= Warp(size, pt).1 < size.1
    ensures Warp(size, (pt.0 + size.0, pt.1)) == Warp(size, pt) && Warp(size, (pt.0, pt.1 + size.1)) == Warp(size, pt)
    ensures Warp(size, Warp(size, pt)) == Warp(size, pt)
  {
    FloorModPeriodic(pt.0, size.0);
    FloorModPeriodic(pt.1, size.1);
    FloorModInRange(Warp(size, pt).0, size.0);
    FloorModInRange(Warp(size, pt).1, size.1);
  }

  /** The largest first (`d == 0`) or second coordinate of the positions. */
  function MaxCoord(plots: seq<Vec>, d: nat): (r: int)
    requires plots != []
    ensures forall k :: 0 <= k < |plots| ==> (if d == 0 then plots[k].0 else plots[k].1) <= r
    ensures exists k :: 0 <= k < |plots| && (if d == 0 then plots[k].0 else plots[k].1) == r
  {
    var c := if d == 0 then plots[0].0 else plots[0].1;
    if |plots| == 1 then c
    else
      var m := MaxCoord(plots[1..], d);
      assert forall k :: 1 <= k < |plots| ==> plots[k] == plots[1..][k - 1];
      if c < m then m else c
  }

  /** `find_grid_size`: one more than the largest x and the largest y; raises on no plots. */
  function FindGridSize(plots: seq<Vec>): (r: Result<Vec, GardenError>)
    ensures r.Err? <==> plots == []
    ensures r.Err? ==> r.error == NoPlots
    ensures r.Ok? ==> (forall p :: p in plots ==> p.0 < r.value.0 && p.1 < r.value.1)
    ensures r.Ok? ==> (exists p :: p in plots && p.0 == r.value.0 - 1) && (exists p :: p in plots && p.1 == r.value.1 - 1)
  {
    if plots == [] then Err(NoPlots)
    else
      var r := (MaxCoord(plots, 0) + 1, MaxCoord(plots, 1) + 1);
      var i :| 0 <= i < |plots| && plots[i].0 == r.0 - 1;
      var j :| 0 <= j < |plots| && plots[j].1 == r.1 - 1;
      assert plots[i] in plots && plots[j] in plots;
      Ok(r)
  }

  /** The plots of a parsed map give its size: the widest row and the number of rows, when those ends are plots. */
  lemma GridSizeOfPlots(plots: seq<Vec>)
    requires plots != [] && forall p :: p in plots ==> p.0 >= 0 && p.1 >= 0
    ensures FindGridSize(plots).Ok? && FindGridSize(plots).value.0 > 0 && FindGridSize(plots).value.1 > 0
  {
    assert plots[0] in plots;
  }

  /** The positions one step from `p` whose warped position is a plot. */
  function Hops(plotSet: set<Vec>, size: Vec, p: Vec): set<Vec>
    requires size.0 != 0 && size.1 != 0
  {
    set k | 0 <= k < 4 && Warp(size, NeighborsOf(p)[k]) in plotSet :: NeighborsOf(p)[k]
  }

  /** One step from every position of `last`. */
  function Step(plotSet: set<Vec>, size: Vec, last: set<Vec>): set<Vec>
    requires size.0 != 0 && size.1 != 0
  {
    set p, k | p in last && 0 <= k < 4 && Warp(size, NeighborsOf(p)[k]) in plotSet :: NeighborsOf(p)[k]
  }

  /** A position is in the next set exactly when it is a neighbour of the last set on a plot. */
  lemma StepSpec(plotSet: set<Vec>, size: Vec, last: set<Vec>, n: Vec)
    requires size.0 != 0 && size.1 != 0
    ensures n in Step(plotSet, size, last) <==> Warp(size, n) in plotSet && exists p :: p in last && n in NeighborsOf(p)
  {
    if Warp(size, n) in plotSet && exists p :: p in last && n in NeighborsOf(p) {
      var p :| p in last && n in NeighborsOf(p);
      var k :| 0 <= k < 4 && NeighborsOf(p)[k] == n;
    }
  }

  /** A position of the next set comes from a position of the last set. */
  lemma StepSource(plotSet: set<Vec>, size: Vec, last: set<Vec>, n: Vec) returns (p: Vec)
    requires size.0 != 0 && size.1 != 0
    requires n in Step(plotSet, size, last)
    ensures p in last && n in NeighborsOf(p)
  {
    StepSpec(plotSet, size, last, n);
    p :| p in last && n in NeighborsOf(p);
  }

  lemma NeighborSum(p: Vec, q: Vec)
    requires q in NeighborsOf(p)
    ensures q.0 + q.1 == p.0 + p.1 + 1 || q.0 + q.1 == p.0 + p.1 - 1
  {
  }

  /** The positions reachable in exactly `k` steps from `start`. */
  function Layer(plotSet: set<Vec>, size: Vec, start: Vec, k: nat): set<Vec>
    requires size.0 != 0 && size.1 != 0
  {
    if k == 0 then {start} else Step(plotSet, size, Layer(plotSet, size, start, k - 1))
  }

  lemma EvenShift(d: int, e: int)
    requires d % 2 == 0 && (e == d || e == d - 2)
    ensures e % 2 == 0
  {
  }

  /** Every step changes the parity of x + y, so the positions of a layer share one parity. */
  lemma {:induction false} LayerParity(plotSet: set<Vec>, size: Vec, start: Vec, k: nat, q: Vec)
    requires size.0 != 0 && size.1 != 0
    requires q in Layer(plotSet, size, start, k)
    ensures (q.0 + q.1 - start.0 - start.1 - k) % 2 == 0
  {
    var e := q.0 + q.1 - start.0 - start.1 - k;
    if k > 0 {
      var p := StepSource(plotSet, size, Layer(plotSet, size, start, k - 1), q);
      LayerParity(plotSet, size, start, k - 1, p);
      var d := p.0 + p.1 - start.0 - start.1 - (k - 1);
      NeighborSum(p, q);
      EvenShift(d, e);
    } else {
      assert q == start;
      EvenShift(0, e);
    }
  }

  /** After the first step every position of a layer is a plot once warped. */
  lemma LayerOnPlots(plotSet: set<Vec>, size: Vec, start: Vec, k: nat, q: Vec)
    requires size.0 != 0 && size.1 != 0
    requires k >= 1 && q in Layer(plotSet, size, start, k)
    ensures Warp(size, q) in plotSet
  {
    StepSpec(plotSet, size, Layer(plotSet, size, start, k - 1), q);
  }

  /**
   * Stepping away and back again: from the second step on, every position of a layer is in
   * the layer two steps later, so the layers grow.
   */
  lemma LayerGrows(plotSet: set<Vec>, size: Vec, start: Vec, k: nat, q: Vec)
    requires size.0 != 0 && size.1 != 0
    requires k >= 2 && q in Layer(plotSet, size, start, k)
    ensures q in Layer(plotSet, size, start, k + 2)
  {
    var before := Layer(plotSet, size, start, k - 1);
    StepSpec(plotSet, size, before, q);
    var p :| p in before && q in NeighborsOf(p);
    LayerOnPlots(plotSet, size, start, k - 1, p);
    NeighborsSpec(p, q);
    StepSpec(plotSet, size, Layer(plotSet, size, start, k), p);
    LayerOnPlots(plotSet, size, start, k, q);
    StepSpec(plotSet, size, Layer(plotSet, size, start, k + 1), q);
  }

  /** Stepping from one more position adds its hops. */
  lemma StepAdd(plotSet: set<Vec>, size: Vec, done: set<Vec>, p: Vec)
    requires size.0 != 0 && size.1 != 0
    ensures Step(plotSet, size, done + {p}) == Step(plotSet, size, done) + Hops(plotSet, size, p)
  {
  }

  /** The hops of `p` over its first `j` neighbours. */
  function HopsUpTo(plotSet: set<Vec>, size: Vec, p: Vec, j: nat): set<Vec>
    requires size.0 != 0 && size.1 != 0
  {
    set k | 0 <= k < j && k < 4 && Warp(size, NeighborsOf(p)[k]) in plotSet :: NeighborsOf(p)[k]
  }

  /** One step from every position of `last`: the inner loops of `reachable`. */
  method StepFrom(plotSet: set<Vec>, size: Vec, last: set<Vec>) returns (next: set<Vec>)
    requires size.0 != 0 && size.1 != 0
    ensures next == Step(plotSet, size, last)
  {
    next := {};
    var rest := last;
    while rest != {}
      invariant rest <= last
      invariant next == Step(plotSet, size, last - rest)
      decreases |rest|
    {
      var p :| p in rest;
      var ns := NeighborsOf(p);
      ghost var done := last - rest;
      for j := 0 to 4
        invariant next == Step(plotSet, size, done) + HopsUpTo(plotSet, size, p, j)
      {
        if Warp(size, ns[j]) in plotSet {
          next := next + {ns[j]};
        }
        assert HopsUpTo(plotSet, size, p, j + 1) == HopsUpTo(plotSet, size, p, j) + (if Warp(size, ns[j]) in plotSet then {ns[j]} else {});
      }
      assert HopsUpTo(plotSet, size, p, 4) == Hops(plotSet, size, p);
      StepAdd(plotSet, size, done, p);
      assert last - (rest - {p}) == done + {p};
      rest := rest - {p};
    }
    assert last - rest == last;
  }

  /** The recorded layers after `steps` steps: the keys 1..steps, each with its layer. */
  ghost predicate Recorded(byStep: map<int, set<Vec>>, plotSet: set<Vec>, size: Vec, start: Vec, steps: nat)
    requires size.0 != 0 && size.1 != 0
  {
    (forall k :: k in byStep <==> 1 <= k <= steps) &&
    forall k :: 1 <= k <= steps ==> byStep[k] == Layer(plotSet, size, start, k)
  }

  /** Recording the next layer under the next step number. */
  lemma RecordedStep(byStep: map<int, set<Vec>>, plotSet: set<Vec>, size: Vec, start: Vec, steps: nat, next: set<Vec>)
    requires size.0 != 0 && size.1 != 0
    requires Recorded(byStep, plotSet, size, start, steps)
    requires next == Step(plotSet, size, Layer(plotSet, size, start, steps))
    ensures Recorded(byStep[steps + 1 := next], plotSet, size, start, steps + 1)
  {
    assert next == Layer(plotSet, size, start, steps + 1);
  }

  /**
   * `reachable`: grows the set of positions one step at a time, keeping each step's set under
   * its step number; raises when there are no plots, or when the size has a zero coordinate and
   * a step is taken.
   */
  method Reachable(plots: seq<Vec>, start: Vec, maxSteps: int) returns (r: Result<map<int, set<Vec>>, GardenError>)
    ensures plots == [] ==> r == Err(NoPlots)
    ensures r == Err(ZeroDivision) <==> plots != [] && maxSteps > 0 &&
                                        (FindGridSize(plots).value.0 == 0 || FindGridSize(plots).value.1 == 0)
    ensures r.Ok? ==> plots != []
    ensures r.Ok? && maxSteps > 0 ==> var size := FindGridSize(plots).value;
                                      size.0 != 0 && size.1 != 0 && Recorded(r.value, (set p | p in plots), size, start, maxSteps)
    ensures r.Ok? && maxSteps <= 0 ==> r.value == map[]
  {
    var plotSet := set p | p in plots;
    var found := FindGridSize(plots);
    if found.Err? {
      return Err(found.error);
    }
    var size := found.value;
    if maxSteps <= 0 {
      return Ok(map[]);
    }
    if size.0 == 0 || size.1 == 0 {
      return Err(ZeroDivision);
    }
    var last: set<Vec> := {start};
    var steps: nat := 0;
    var byStep: map<int, set<Vec>> := map[];
    while steps < maxSteps
      invariant steps <= maxSteps
      invariant last == Layer(plotSet, size, start, steps)
      invariant Recorded(byStep, plotSet, size, start, steps)
      decreases maxSteps - steps
    {
      last := StepFrom(plotSet, size, last);
      RecordedStep(byStep, plotSet, size, start, steps, last);
      steps := steps + 1;
      byStep := byStep[steps := last];
    }
    r := Ok(byStep);
  }
}
