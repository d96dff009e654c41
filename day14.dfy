/**
 * Parabolic reflector dish (day14): round rocks roll along their line until a cube rock or the
 * edge stops them; a spin cycle tilts north, west, south and east in turn, and the billionth
 * spin is reached through the cycle that the spins fall into.
 */
module Dish {
  import opened Wrappers
  import Text

  const Cube := '#'
  const Round := 'O'
  const Space := '.'

  /** The dish as its rows and its columns. */
  datatype Grid = Grid(rows: seq<string>, cols: seq<string>)

  datatype Direction = North | South | West | East
  datatype Side = Rows | Cols

  /** Where a segment's round rocks go: `ljust` packs them at its start, `rjust` at its end. */
  datatype Justify = Start | End

  /** `tilt_config`: which lines a tilt rolls along, and to which end. */
  function Config(d: Direction): (Side, Justify)
  {
    match d
    case North => (Cols, Start)
    case South => (Cols, End)
    case West => (Rows, Start)
    case East => (Rows, End)
  }

  /** The IndexErrors of `transpose`: no first row, or a row longer than the first. */
  datatype GridError = NoLines | LineTooLong

  // Transposing.

  /** What `transpose` leaves at `cols[x][y]`: the cell of row y, or `""` where row y is shorter. */
  function Cell(rows: seq<string>, x: nat, y: nat): string
    requires y < |rows|
  {
    if x < |rows[y]| then [rows[y][x]] else []
  }

  /** `cols[x]` once every row is written. */
  function Cells(rows: seq<string>, x: nat): (r: seq<string>)
    ensures |r| == |rows| && forall y :: 0 <= y < |rows| ==> r[y] == Cell(rows, x, y)
  {
    seq(|rows|, y requires 0 <= y < |rows| => Cell(rows, x, y))
  }

  /** `"".join(cols[x])`. */
  function Column(rows: seq<string>, x: nat): string
  {
    Text.Flatten(Cells(rows, x))
  }

  /** No row is wider than the first one, which sets the number of columns. */
  predicate FitsFirst(rows: seq<string>)
    requires rows != []
  {
    forall y :: 0 <= y < |rows| ==> |rows[y]| <= |rows[0]|
  }

  /** The reference reading of `transpose`. */
  function Transposed(rows: seq<string>): Result<seq<string>, GridError>
  {
    if rows == [] then Err(NoLines)
    else if !FitsFirst(rows) then Err(LineTooLong)
    else Ok(Columns(rows))
  }

  function Columns(rows: seq<string>): (r: seq<string>)
    requires rows != []
    ensures |r| == |rows[0]| && forall x :: 0 <= x < |r| ==> r[x] == Column(rows, x)
  {
    seq(|rows[0]|, x requires 0 <= x < |rows[0]| => Column(rows, x))
  }

  /** The cells as written so far: rows before y, and the cells of row y before x, are in place. */
  ghost predicate Written(rows: seq<string>, cells: seq<seq<string>>, y: nat, x: nat)
    requires rows != []
  {
    && |cells| == |rows[0]|
    && (forall c :: 0 <= c < |cells| ==> |cells[c]| == |rows|)
    && forall c, r :: 0 <= c < |cells| && 0 <= r < |rows| ==>
         cells[c][r] == if r < y || (r == y && c < x) then Cell(rows, c, r) else []
  }

  lemma WrittenRow(rows: seq<string>, cells: seq<seq<string>>, y: nat)
    requires rows != [] && y < |rows| && Written(rows, cells, y, |rows[y]|)
    ensures Written(rows, cells, y + 1, 0)
  {
  }

  lemma WrittenAll(rows: seq<string>, cells: seq<seq<string>>)
    requires rows != [] && Written(rows, cells, |rows|, 0)
    ensures forall x :: 0 <= x < |cells| ==> cells[x] == Cells(rows, x)
  {
    forall x | 0 <= x < |cells|
      ensures cells[x] == Cells(rows, x)
    {
      assert forall y :: 0 <= y < |rows| ==> cells[x][y] == Cells(rows, x)[y];
    }
  }

  /** `transpose`: its nested loops over the rows. */
  method Transpose(rows: seq<string>) returns (r: Result<seq<string>, GridError>)
    ensures r == Transposed(rows)
  {
    if rows == [] {
      return Err(NoLines);
    }
    var cells: seq<seq<string>> := seq(|rows[0]|, _ => seq(|rows|, _ => []));
    for y := 0 to |rows|
      invariant Written(rows, cells, y, 0)
      invariant forall r :: 0 <= r < y ==> |rows[r]| <= |rows[0]|
    {
      for x := 0 to |rows[y]|
        invariant x <= |cells| && Written(rows, cells, y, x)
      {
        if x >= |cells| {
          return Err(LineTooLong);
        }
        cells := cells[x := cells[x][y := [rows[y][x]]]];
      }
      WrittenRow(rows, cells, y);
    }
    WrittenAll(rows, cells);
    assert FitsFirst(rows);
    var cols := seq(|cells|, x requires 0 <= x < |cells| => Text.Flatten(cells[x]));
    assert forall x :: 0 <= x < |cols| ==> cols[x] == Columns(rows)[x];
    assert cols == Columns(rows);
    return Ok(cols);
  }

  predicate Rectangular(lines: seq<string>)
  {
    forall k :: 0 <= k < |lines| ==> |lines[k]| == |lines[0]|
  }

  lemma {:induction false} FlattenSingles(parts: seq<string>)
    requires forall k :: 0 <= k < |parts| ==> |parts[k]| == 1
    ensures |Text.Flatten(parts)| == |parts|
    ensures forall k :: 0 <= k < |parts| ==> Text.Flatten(parts)[k] == parts[k][0]
  {
    if parts != [] {
      FlattenSingles(parts[1..]);
      assert forall k :: 1 <= k < |parts| ==> parts[k] == parts[1..][k - 1];
    }
  }

  lemma ColumnCells(rows: seq<string>, x: nat)
    requires rows != [] && Rectangular(rows) && x < |rows[0]|
    ensures |Column(rows, x)| == |rows|
    ensures forall y :: 0 <= y < |rows| ==> Column(rows, x)[y] == rows[y][x]
  {
    FlattenSingles(Cells(rows, x));
  }

  /** The lines a transpose of a rectangle gives: as many as its width, each as long as its height. */
  ghost predicate TransposeOf(rows: seq<string>, cols: seq<string>)
    requires rows != []
  {
    && Rectangular(rows)
    && |cols| == |rows[0]|
    && (forall x :: 0 <= x < |cols| ==> |cols[x]| == |rows|)
    && forall x, y :: 0 <= x < |cols| && 0 <= y < |rows| ==> cols[x][y] == rows[y][x]
  }

  /** On a rectangular grid `transpose` succeeds and puts row y's cell x at `cols[x][y]`. */
  lemma TransposeCells(rows: seq<string>)
    requires rows != [] && Rectangular(rows)
    ensures Transposed(rows).Ok? && TransposeOf(rows, Transposed(rows).value)
  {
    forall x | 0 <= x < |rows[0]|
      ensures |Column(rows, x)| == |rows| && forall y :: 0 <= y < |rows| ==> Column(rows, x)[y] == rows[y][x]
    {
      ColumnCells(rows, x);
    }
  }

  /** Transposing twice gives a rectangular grid with at least one column back. */
  lemma TransposeTwice(rows: seq<string>)
    requires rows != [] && |rows[0]| > 0 && Rectangular(rows)
    ensures Transposed(rows).Ok?
    ensures var cols := Transposed(rows).value;
      cols != [] && Rectangular(cols) && |cols[0]| == |rows| && Transposed(cols) == Ok(rows)
  {
    TransposeCells(rows);
    var cols := Transposed(rows).value;
    TransposeCells(cols);
    var back := Transposed(cols).value;
    assert |back| == |rows|;
    forall y | 0 <= y < |rows| ensures back[y] == rows[y] {
      assert |back[y]| == |rows[y]|;
      assert forall x :: 0 <= x < |rows[y]| ==> back[y][x] == cols[x][y];
    }
    assert back == rows;
  }

  // Tilting.

  function Repeat(c: char, n: nat): (r: string)
    ensures |r| == n && forall i :: 0 <= i < n ==> r[i] == c
  {
    seq(n, _ => c)
  }

  /** `s.ljust(width, fill)` and `s.rjust(width, fill)`: padded to `width`, never cut. */
  function Justified(s: string, width: int, fill: char, j: Justify): string
  {
    var pad := Repeat(fill, if width <= |s| then 0 else width - |s|);
    if j == Start then s + pad else pad + s
  }

  /** One segment between cube rocks after the tilt: its round rocks packed at one end. */
  function Pack(space: string, j: Justify): string
  {
    Justified(Repeat(Round, Text.CountChar(space, Round)), |space|, Space, j)
  }

  /** The cells of a segment left after a tilt: round rocks and spaces, every rock at the `j` end. */
  predicate Settled(seg: string, j: Justify)
  {
    && (forall i :: 0 <= i < |seg| ==> seg[i] == Round || seg[i] == Space)
    && forall i, k :: 0 <= i < k < |seg| ==>
         if j == Start then !(seg[i] == Space && seg[k] == Round) else !(seg[i] == Round && seg[k] == Space)
  }

  lemma {:induction false} CountRepeat(c: char, n: nat, d: char)
    ensures Text.CountChar(Repeat(c, n), d) == if c == d then n else 0
  {
    if n > 0 {
      CountRepeat(c, n - 1, d);
      assert Repeat(c, n)[..n - 1] == Repeat(c, n - 1);
    }
  }

  lemma {:induction false} CountBound(s: string, c: char)
    ensures Text.CountChar(s, c) <= |s|
  {
    if s != [] {
      CountBound(s[..|s| - 1], c);
    }
  }

  /** Packing keeps a segment's length and its round rocks, and settles them at the `j` end. */
  lemma PackSpec(space: string, j: Justify)
    ensures var r := Pack(space, j);
      && |r| == |space| && Text.CountChar(r, Round) == Text.CountChar(space, Round)
      && Cube !in r && Settled(r, j)
  {
    var n := Text.CountChar(space, Round);
    CountBound(space, Round);
    var rocks, pad := Repeat(Round, n), Repeat(Space, |space| - n);
    CountRepeat(Round, n, Round);
    CountRepeat(Space, |space| - n, Round);
    if j == Start {
      Text.CountCharConcat(rocks, pad, Round);
    } else {
      Text.CountCharConcat(pad, rocks, Round);
    }
  }

  /** A tilted line: each segment between cube rocks packed, the cube rocks put back between them. */
  function TiltLine(line: string, j: Justify): string
  {
    var parts := Text.Split(line, Cube);
    Text.Join(seq(|parts|, k requires 0 <= k < |parts| => Pack(parts[k], j)), Cube)
  }

  /** Lines joined from pieces of the same lengths have the separator at the same places. */
  lemma {:induction false} JoinShape(p: seq<string>, q: seq<string>, sep: char)
    requires |p| == |q| && forall k :: 0 <= k < |p| ==> |p[k]| == |q[k]| && sep !in p[k] && sep !in q[k]
    ensures |Text.Join(p, sep)| == |Text.Join(q, sep)|
    ensures forall i :: 0 <= i < |Text.Join(p, sep)| ==> (Text.Join(p, sep)[i] == sep <==> Text.Join(q, sep)[i] == sep)
  {
    if |p| > 1 {
      JoinShape(p[1..], q[1..], sep);
      var a, b := Text.Join(p[1..], sep), Text.Join(q[1..], sep);
      assert Text.Join(p, sep) == p[0] + [sep] + a && Text.Join(q, sep) == q[0] + [sep] + b;
      forall i | 0 <= i < |p[0]|
        ensures Text.Join(p, sep)[i] != sep && Text.Join(q, sep)[i] != sep
      {
        assert p[0][i] in p[0] && q[0][i] in q[0];
      }
    } else if |p| == 1 {
      assert forall i :: 0 <= i < |p[0]| ==> p[0][i] in p[0] && q[0][i] in q[0];
    }
  }

  /**
   * Tilting a line keeps its length and every cube rock where it is; each segment between
   * cube rocks keeps its length and its round rocks, which settle at the `j` end.
   */
  lemma TiltLineSpec(line: string, j: Justify)
    ensures var r, parts := TiltLine(line, j), Text.Split(line, Cube);
      && |r| == |line|
      && (forall i :: 0 <= i < |line| ==> (r[i] == Cube <==> line[i] == Cube))
      && |Text.Split(r, Cube)| == |parts|
      && forall k :: 0 <= k < |parts| ==>
           && |Text.Split(r, Cube)[k]| == |parts[k]|
           && Text.CountChar(Text.Split(r, Cube)[k], Round) == Text.CountChar(parts[k], Round)
           && Settled(Text.Split(r, Cube)[k], j)
  {
    var parts := Text.Split(line, Cube);
    var packed := seq(|parts|, k requires 0 <= k < |parts| => Pack(parts[k], j));
    forall k | 0 <= k < |parts|
      ensures |packed[k]| == |parts[k]| && Text.CountChar(packed[k], Round) == Text.CountChar(parts[k], Round)
      ensures Cube !in packed[k] && Settled(packed[k], j)
    {
      PackSpec(parts[k], j);
    }
    Text.JoinSplit(line, Cube);
    JoinShape(packed, parts, Cube);
    Text.SplitJoin(packed, Cube);
  }

  /** `tilt`: every line along the side rolls its rocks; the other side is its transpose. */
  function Tilt(g: Grid, d: Direction): Result<Grid, GridError>
  {
    var (side, j) := Config(d);
    var lines := if side == Rows then g.rows else g.cols;
    var tilted := seq(|lines|, k requires 0 <= k < |lines| => TiltLine(lines[k], j));
    match Transposed(tilted)
    case Err(e) => Err(e)
    case Ok(other) => Ok(if side == Rows then Grid(tilted, other) else Grid(other, tilted))
  }

  /** A non-empty rectangular dish whose columns are the transpose of its rows. */
  ghost predicate Consistent(g: Grid)
  {
    g.rows != [] && |g.rows[0]| > 0 && Rectangular(g.rows) && Transposed(g.rows) == Ok(g.cols)
  }

  /** The columns of a consistent dish are rectangular too, and their transpose is the rows. */
  lemma ConsistentCols(g: Grid)
    requires Consistent(g)
    ensures g.cols != [] && |g.cols[0]| == |g.rows| && Rectangular(g.cols) && Transposed(g.cols) == Ok(g.rows)
  {
    TransposeTwice(g.rows);
  }

  lemma TiltedShape(lines: seq<string>, j: Justify)
    requires lines != [] && |lines[0]| > 0 && Rectangular(lines)
    ensures var tilted := seq(|lines|, k requires 0 <= k < |lines| => TiltLine(lines[k], j));
      tilted != [] && |tilted[0]| == |lines[0]| && Rectangular(tilted)
  {
    forall k | 0 <= k < |lines| ensures |TiltLine(lines[k], j)| == |lines[k]| {
      TiltLineSpec(lines[k], j);
    }
  }

  /** Tilting a consistent dish succeeds and leaves it consistent and of the same size. */
  lemma TiltConsistent(g: Grid, d: Direction)
    requires Consistent(g)
    ensures Tilt(g, d).Ok?
    ensures var h := Tilt(g, d).value;
      Consistent(h) && |h.rows| == |g.rows| && |h.cols| == |g.cols|
  {
    var (side, j) := Config(d);
    ConsistentCols(g);
    var lines := if side == Rows then g.rows else g.cols;
    var tilted := seq(|lines|, k requires 0 <= k < |lines| => TiltLine(lines[k], j));
    TiltedShape(lines, j);
    TransposeTwice(tilted);
  }

  // Spinning.

  const SpinOrder: seq<Direction> := [North, West, South, East]

  /** The tilts in `ds` one after another; the first error stops them. */
  function Tilts(g: Result<Grid, GridError>, ds: seq<Direction>): Result<Grid, GridError>
    decreases |ds|
  {
    if ds == [] || g.Err? then g else Tilts(Tilt(g.value, ds[0]), ds[1..])
  }

  /** One spin cycle. */
  function Cycled(g: Grid): Result<Grid, GridError>
  {
    Tilts(Ok(g), SpinOrder)
  }

  /** `tilt_cycle`: its loop over the four directions. */
  method TiltCycle(g: Grid) returns (r: Result<Grid, GridError>)
    ensures r == Cycled(g)
  {
    r := Ok(g);
    for k := 0 to |SpinOrder|
      invariant Tilts(r, SpinOrder[k..]) == Cycled(g)
    {
      if r.Err? {
        return;
      }
      r := Tilt(r.value, SpinOrder[k]);
    }
  }

  lemma {:induction false} TiltsConsistent(g: Grid, ds: seq<Direction>)
    requires Consistent(g)
    ensures Tilts(Ok(g), ds).Ok? && Consistent(Tilts(Ok(g), ds).value)
    decreases |ds|
  {
    if ds != [] {
      TiltConsistent(g, ds[0]);
      TiltsConsistent(Tilt(g, ds[0]).value, ds[1..]);
    }
  }

  /** A spin as a step on outcomes: an error, once raised, is where the spinning ends. */
  function Step(r: Result<Grid, GridError>): Result<Grid, GridError>
  {
    if r.Err? then r else Cycled(r.value)
  }

  lemma StepConsistent(r: Result<Grid, GridError>)
    requires r.Ok? && Consistent(r.value)
    ensures Step(r).Ok? && Consistent(Step(r).value)
  {
    TiltsConsistent(r.value, SpinOrder);
  }

  /** x after n applications of f. */
  function Iter<T>(f: T -> T, x: T, n: nat): T
  {
    if n == 0 then x else f(Iter(f, x, n - 1))
  }

  /** Spinning a consistent dish any number of times succeeds and keeps it consistent. */
  lemma SpinsConsistent(g: Grid, n: nat)
    requires Consistent(g)
    ensures Iter(Step, Ok(g), n).Ok? && Consistent(Iter(Step, Ok(g), n).value)
  {
    forall r | Good(r) ensures Good(Step(r)) {
      StepConsistent(r);
    }
    IterKeeps(Step, Good, Ok(g), n);
  }

  ghost predicate Good(r: Result<Grid, GridError>)
  {
    r.Ok? && Consistent(r.value)
  }

  /** A property every step keeps holds after any number of steps. */
  lemma {:induction false} IterKeeps<T>(f: T -> T, p: T -> bool, x: T, n: nat)
    requires p(x) && forall y :: p(y) ==> p(f(y))
    ensures p(Iter(f, x, n))
  {
    if n > 0 {
      IterKeeps(f, p, x, n - 1);
    }
  }

  // Cycle detection.

  lemma {:induction false} IterAdd<T>(f: T -> T, x: T, a: nat, b: nat)
    ensures Iter(f, x, a + b) == Iter(f, Iter(f, x, a), b)
    decreases b
  {
    if b > 0 {
      IterAdd(f, x, a, b - 1);
    }
  }

  /** The value after m steps comes back after d more. */
  ghost predicate Repeats<T>(f: T -> T, x: T, m: nat, d: nat)
  {
    Iter(f, x, m + d) == Iter(f, x, m)
  }

  lemma {:induction false} RepeatsMany<T>(f: T -> T, x: T, a: nat, p: nat, t: nat)
    requires Repeats(f, x, a, p)
    ensures Iter(f, x, a + p * t) == Iter(f, x, a)
  {
    if t > 0 {
      RepeatsMany(f, x, a, p, t - 1);
      var b := a + p * (t - 1);
      assert a + p * t == b + p;
      IterAdd(f, x, b, p);
      IterAdd(f, x, a, p);
    }
  }

  /** Once the value after a steps recurs after p more, every later value recurs every p steps. */
  lemma RepeatsFrom<T>(f: T -> T, x: T, a: nat, p: nat, j: nat, t: nat)
    requires Repeats(f, x, a, p) && a <= j
    ensures Iter(f, x, j + p * t) == Iter(f, x, j)
  {
    RepeatsMany(f, x, a, p, t);
    IterAdd(f, x, a, j - a);
    IterAdd(f, x, a + p * t, j - a);
    assert a + p * t + (j - a) == j + p * t;
  }

  lemma Product(p: nat, nu: nat)
    requires p >= 1
    ensures p * nu >= nu
  {
    assert p * nu == nu + (p - 1) * nu;
  }

  /**
   * If the value x_nu recurs at x_{2 nu}, and mu is the first m with x_m = x_{m + 2 nu}, then
   * no value before x_mu ever recurs: x_mu is the first value that does.
   */
  lemma FirstRecurrence<T>(f: T -> T, x: T, nu: nat, mu: nat, m: nat, n: nat)
    requires nu >= 1 && Repeats(f, x, nu, nu)
    requires forall k :: 0 <= k < mu ==> !Repeats(f, x, k, 2 * nu)
    requires m < n && Iter(f, x, m) == Iter(f, x, n)
    ensures mu <= m
  {
    var p := n - m;
    assert Repeats(f, x, m, p);
    Product(p, nu);
    RepeatsFrom(f, x, m, p, m, nu);
    RepeatsFrom(f, x, m, p, m + 2 * nu, nu);
    RepeatsFrom(f, x, nu, nu, m + p * nu, 2);
    assert m + p * nu + nu * 2 == m + 2 * nu + p * nu;
    assert Repeats(f, x, m, 2 * nu);
  }

  /**
   * `floyd`: (lam, mu) such that x_mu is the first value that recurs, and lam is the shortest
   * return to it. Finding the first meeting takes at most `fuel` steps, or the result is None.
   */
  method Floyd<T(==)>(f: T -> T, x0: T, fuel: nat) returns (r: Option<(nat, nat)>)
    ensures r.Some? ==> var (lam, mu) := r.value;
      && lam >= 1 && mu <= fuel + 1
      && Repeats(f, x0, mu, lam)
      && (forall l :: 1 <= l < lam ==> !Repeats(f, x0, mu, l))
      && forall m: nat, n: nat :: m < n && Iter(f, x0, m) == Iter(f, x0, n) ==> mu <= m
  {
    var nu := 1;
    var tortoise, hare := f(x0), f(f(x0));
    assert Iter(f, x0, 2) == f(Iter(f, x0, 1));
    while tortoise != hare
      invariant 1 <= nu <= fuel + 1
      invariant tortoise == Iter(f, x0, nu) && hare == Iter(f, x0, 2 * nu)
      decreases fuel + 1 - nu
    {
      if nu > fuel {
        return None;
      }
      assert Iter(f, x0, 2 * nu + 2) == f(Iter(f, x0, 2 * nu + 1));
      tortoise, hare := f(tortoise), f(f(hare));
      nu := nu + 1;
    }
    assert Repeats(f, x0, nu, nu);
    RepeatsFrom(f, x0, nu, nu, nu, 2);
    assert Repeats(f, x0, nu, 2 * nu);

    var mu := 0;
    tortoise := x0;
    while tortoise != hare
      invariant mu <= nu
      invariant tortoise == Iter(f, x0, mu) && hare == Iter(f, x0, mu + 2 * nu)
      invariant forall k :: 0 <= k < mu ==> !Repeats(f, x0, k, 2 * nu)
      decreases nu - mu
    {
      tortoise, hare := f(tortoise), f(hare);
      mu := mu + 1;
    }

    var lam := 1;
    hare := f(tortoise);
    while tortoise != hare
      invariant 1 <= lam <= 2 * nu
      invariant hare == Iter(f, x0, mu + lam)
      invariant forall l :: 1 <= l < lam ==> !Repeats(f, x0, mu, l)
      decreases 2 * nu - lam
    {
      hare := f(hare);
      lam := lam + 1;
    }
    forall m: nat, n: nat | m < n && Iter(f, x0, m) == Iter(f, x0, n)
      ensures mu <= m
    {
      FirstRecurrence(f, x0, nu, mu, m, n);
    }
    return Some((lam, mu));
  }

  /** Past x_mu the values repeat every lam steps, so spin n and spin ((n - mu) mod lam) + mu agree. */
  lemma Shortcut<T>(f: T -> T, x: T, lam: nat, mu: nat, n: nat)
    requires lam >= 1 && Repeats(f, x, mu, lam) && mu <= n
    ensures Iter(f, x, (n - mu) % lam + mu) == Iter(f, x, n)
  {
    var q, rest := (n - mu) / lam, (n - mu) % lam;
    RepeatsFrom(f, x, mu, lam, mu + rest, q);
    assert mu + rest + lam * q == n;
  }

  const TotalSpins := 1000000000

  /** The loop of `spin_cycle`: `count` spin cycles in a row. */
  method Spin(initial: Grid, count: nat) returns (result: Result<Grid, GridError>)
    ensures result == Iter(Step, Ok(initial), count)
  {
    result := Ok(initial);
    for k := 0 to count
      invariant result == Iter(Step, Ok(initial), k)
    {
      if result.Ok? {
        result := TiltCycle(result.value);
      }
    }
  }

  /**
   * `spin_cycle`: the dish after a billion spin cycles, reached by spinning only
   * ((billion - mu) mod lam) + mu times. None when cycle detection runs out of fuel.
   */
  method SpinCycle(initial: Grid, fuel: nat) returns (r: Option<Result<Grid, GridError>>)
    ensures r.Some? && fuel < TotalSpins ==> r.value == Iter(Step, Ok(initial), TotalSpins)
  {
    var count := SpinCount(Step, Ok(initial), fuel, TotalSpins);
    if count.None? {
      return None;
    }
    var result := Spin(initial, count.value);
    return Some(result);
  }

  /**
   * The number of steps `spin_cycle` takes for `total`: ((total - mu) mod lam) + mu with the
   * (lam, mu) of `floyd`; it lands where `total` steps land once `total` is past x_mu.
   */
  method SpinCount<T(==)>(f: T -> T, x0: T, fuel: nat, total: nat) returns (count: Option<nat>)
    ensures count.Some? && fuel < total ==> Iter(f, x0, count.value) == Iter(f, x0, total)
  {
    var found := Floyd(f, x0, fuel);
    if found.None? {
      return None;
    }
    var (period, mu) := found.value;
    if fuel < total {
      Shortcut(f, x0, period, mu, total);
    }
    return Some((total - mu) % period + mu);
  }

  // The load on the north support beams.

  /** The load of one column: a round rock at index i of a line of length n weighs n - i. */
  function LineLoad(line: string): nat
  {
    if line == [] then 0 else (if line[0] == Round then |line| else 0) + LineLoad(line[1..])
  }

  function Load(lines: seq<string>): nat
  {
    if lines == [] then 0 else LineLoad(lines[0]) + Load(lines[1..])
  }

  /** `calc_load`: the loads of the columns added. */
  function CalcLoad(g: Grid): nat
  {
    Load(g.cols)
  }

  /** The load row by row: each round rock weighs the number of rows from its own to the south edge. */
  function RowsLoad(rows: seq<string>): nat
  {
    if rows == [] then 0 else |rows| * Text.CountChar(rows[0], Round) + RowsLoad(rows[1..])
  }

  /** Every row is w wide. */
  predicate Wide(rows: seq<string>, w: nat)
  {
    forall y :: 0 <= y < |rows| ==> |rows[y]| == w
  }

  /** Column x of rows that are all wider than x. */
  function ColumnAt(rows: seq<string>, w: nat, x: nat): (c: string)
    requires Wide(rows, w) && x < w
    ensures |c| == |rows|
  {
    seq(|rows|, y requires 0 <= y < |rows| => rows[y][x])
  }

  /** The loads of columns x..w-1. */
  function LoadFrom(rows: seq<string>, w: nat, x: nat): nat
    requires Wide(rows, w) && x <= w
    decreases w - x
  {
    if x == w then 0 else LineLoad(ColumnAt(rows, w, x)) + LoadFrom(rows, w, x + 1)
  }

  lemma {:induction false} LoadSuffix(g: Grid, w: nat, x: nat)
    requires Consistent(g) && w == |g.rows[0]| && x <= w
    ensures Wide(g.rows, w) && Load(g.cols[x..]) == LoadFrom(g.rows, w, x)
    decreases w - x
  {
    TransposeCells(g.rows);
    if x < w {
      LoadSuffix(g, w, x + 1);
      assert g.cols[x..][1..] == g.cols[x + 1..];
      assert g.cols[x] == ColumnAt(g.rows, w, x);
    } else {
      assert g.cols[x..] == [];
    }
  }

  /** The front count of the rocks in s from index x on. */
  function CountFrom(s: string, x: nat): nat
    requires x <= |s|
    decreases |s| - x
  {
    if x == |s| then 0 else (if s[x] == Round then 1 else 0) + CountFrom(s, x + 1)
  }

  lemma {:induction false} CountFromSuffix(s: string, x: nat)
    requires x <= |s|
    ensures CountFrom(s, x) == Text.CountChar(s[x..], Round)
    decreases |s| - x
  {
    if x < |s| {
      CountFromSuffix(s, x + 1);
      assert s[x..] == [s[x]] + s[x + 1..];
      Text.CountCharConcat([s[x]], s[x + 1..], Round);
      assert [s[x]][..0] == [];
    } else {
      assert s[x..] == [];
    }
  }

  lemma Distribute(n: nat, a: nat, b: nat)
    ensures n * (a + b) == n * a + n * b
  {
  }

  /** Peeling the first row off the columns: its rocks weigh the full height. */
  lemma {:induction false} LoadFromFirst(rows: seq<string>, w: nat, x: nat)
    requires rows != [] && Wide(rows, w) && x <= w
    ensures LoadFrom(rows, w, x) == |rows| * CountFrom(rows[0], x) + LoadFrom(rows[1..], w, x)
    decreases w - x
  {
    if x < w {
      LoadFromFirst(rows, w, x + 1);
      assert ColumnAt(rows, w, x)[1..] == ColumnAt(rows[1..], w, x);
      Distribute(|rows|, if rows[0][x] == Round then 1 else 0, CountFrom(rows[0], x + 1));
    }
  }

  lemma {:induction false} LoadFromRows(rows: seq<string>, w: nat)
    requires Wide(rows, w)
    ensures LoadFrom(rows, w, 0) == RowsLoad(rows)
  {
    if rows == [] {
      LoadFromEmpty(w, 0);
    } else {
      LoadFromFirst(rows, w, 0);
      LoadFromRows(rows[1..], w);
      CountFromSuffix(rows[0], 0);
      assert rows[0][0..] == rows[0];
    }
  }

  lemma {:induction false} LoadFromEmpty(w: nat, x: nat)
    requires x <= w
    ensures LoadFrom([], w, x) == 0
    decreases w - x
  {
    if x < w {
      LoadFromEmpty(w, x + 1);
    }
  }

  /**
   * The load of a consistent dish counted along its columns is the puzzle's load: every round
   * rock weighs the number of rows from its row to the south edge.
   */
  lemma LoadByRows(g: Grid)
    requires Consistent(g)
    ensures CalcLoad(g) == RowsLoad(g.rows)
  {
    LoadSuffix(g, |g.rows[0]|, 0);
    assert g.cols[0..] == g.cols;
    LoadFromRows(g.rows, |g.rows[0]|);
  }

  // Reading the input.

  /** `parse_input`: the stripped non-empty lines as rows, and their transpose as columns. */
  function ParseInput(raw: seq<string>): Result<Grid, GridError>
  {
    var rows := Text.Lines(raw);
    match Transposed(rows)
    case Err(e) => Err(e)
    case Ok(cols) => Ok(Grid(rows, cols))
  }

  /** A rectangular input gives a consistent dish; an input with no non-blank line, an error. */
  lemma ParseConsistent(raw: seq<string>)
    ensures Text.Lines(raw) == [] ==> ParseInput(raw) == Err(NoLines)
    ensures Text.Lines(raw) != [] && Rectangular(Text.Lines(raw)) ==> ParseInput(raw).Ok? && Consistent(ParseInput(raw).value)
  {
    var rows := Text.Lines(raw);
    if rows != [] && Rectangular(rows) {
      TransposeCells(rows);
    }
  }
}
