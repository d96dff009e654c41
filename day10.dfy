/**
 * Pipe maze (day10): the field is a grid of box-drawing pipes; the loop through the start
 * tile `S` is traced pipe by pipe, and a tile off the loop is enclosed when a ray cast to
 * the right crosses the loop with a non-zero winding sum.
 */
module PipeMaze {
  import opened Wrappers
  import Text

  type Pos = (int, int)

  function Add(a: Pos, b: Pos): Pos { (a.0 + b.0, a.1 + b.1) }
  function Sub(a: Pos, b: Pos): Pos { (a.0 - b.0, a.1 - b.1) }

  predicate Unit(v: Pos)
  {
    v == (0, -1) || v == (0, 1) || v == (-1, 0) || v == (1, 0)
  }

  /** `ascii_to_utf`: the six pipe letters become box-drawing characters; anything else stays. */
  function ToBox(c: char): (r: char)
    ensures c !in "|-LJ7F" ==> r == c
  {
    match c
    case '|' => '│'
    case '-' => '─'
    case 'L' => '└'
    case 'J' => '┘'
    case '7' => '┐'
    case 'F' => '┌'
    case _ => c
  }

  /** The keys of `pipe_to_neighbors`, in the order the table lists them. */
  const Pipes: seq<char> := ['│', '─', '└', '┘', '┐', '┌']

  /** A key of `pipe_to_neighbors`. */
  predicate IsPipe(c: char)
  {
    c == '│' || c == '─' || c == '└' || c == '┘' || c == '┐' || c == '┌'
  }

  /** The table's keys are the pipes. */
  lemma PipesAreKeys(i: nat)
    requires i < |Pipes|
    ensures IsPipe(Pipes[i])
  {
  }

  /**
   * `pipe_to_neighbors`: the two directions a pipe connects. A direction is (dx, dy) with y
   * growing downwards, so north is (0, -1). The pair's order stands for the order in which
   * the table's two-element set is iterated by CPython: for `│` that is south before north,
   * for the others the order the table writes them in.
   */
  function Exits(c: char): (r: (Pos, Pos))
    requires IsPipe(c)
  {
    match c
    case '│' => ((0, 1), (0, -1))
    case '─' => ((-1, 0), (1, 0))
    case '└' => ((1, 0), (0, -1))
    case '┘' => ((-1, 0), (0, -1))
    case '┐' => ((-1, 0), (0, 1))
    case '┌' => ((1, 0), (0, 1))
  }

  lemma ExitsTable()
    ensures Exits('│') == ((0, 1), (0, -1)) && Exits('─') == ((-1, 0), (1, 0)) && Exits('└') == ((1, 0), (0, -1))
    ensures Exits('┘') == ((-1, 0), (0, -1)) && Exits('┐') == ((-1, 0), (0, 1)) && Exits('┌') == ((1, 0), (0, 1))
  {
  }

  /** Every pipe connects exactly two different unit directions, and no two pipes connect the same two. */
  lemma ExitsDistinct(c: char, d: char)
    requires IsPipe(c) && IsPipe(d)
    ensures Unit(Exits(c).0) && Unit(Exits(c).1) && Exits(c).0 != Exits(c).1
    ensures c != d ==> {Exits(c).0, Exits(c).1} != {Exits(d).0, Exits(d).1}
  {
    assert {(0, -1), (0, 1)} != {(-1, 0), (1, 0)} by { assert (0, -1) !in {(-1, 0), (1, 0)}; }
    assert (1, 0) !in {(0, -1), (0, 1)} && (1, 0) !in {(-1, 0), (0, -1)} && (1, 0) !in {(-1, 0), (0, 1)};
    assert (-1, 0) !in {(0, -1), (0, 1)} && (-1, 0) !in {(1, 0), (0, -1)} && (-1, 0) !in {(1, 0), (0, 1)};
    assert (0, -1) !in {(-1, 0), (1, 0)} && (0, -1) !in {(-1, 0), (0, 1)} && (0, -1) !in {(1, 0), (0, 1)};
    assert (0, 1) !in {(-1, 0), (1, 0)} && (0, 1) !in {(1, 0), (0, -1)} && (0, 1) !in {(-1, 0), (0, -1)};
  }

  /** `parse_input` for one line: the stripped line with its pipe letters translated. */
  function ParseLine(line: string): (r: string)
    ensures |r| == |Text.Strip(line)|
    ensures forall i :: 0 <= i < |r| ==> r[i] == ToBox(Text.Strip(line)[i])
  {
    var s := Text.Strip(line);
    seq(|s|, i requires 0 <= i < |s| => ToBox(s[i]))
  }

  function ParseInput(lines: seq<string>): (field: seq<string>)
    ensures |field| == |lines|
    ensures forall y :: 0 <= y < |lines| ==> field[y] == ParseLine(lines[y])
  {
    seq(|lines|, y requires 0 <= y < |lines| => ParseLine(lines[y]))
  }

  /** A field the code can index: at least one row, every row as wide as the first. */
  predicate Grid(field: seq<string>)
  {
    |field| > 0 && forall y :: 0 <= y < |field| ==> |field[y]| == |field[0]|
  }

  predicate InGrid(field: seq<string>, p: Pos)
    requires Grid(field)
  {
    0 <= p.0 < |field[0]| && 0 <= p.1 < |field|
  }

  /** `get_pos`: the tile at (x, y), or None off the grid. */
  function GetPos(field: seq<string>, p: Pos): (r: Option<char>)
    requires Grid(field)
    ensures r.Some? <==> InGrid(field, p)
    ensures r.Some? ==> r.value == field[p.1][p.0]
  {
    if InGrid(field, p) then Some(field[p.1][p.0]) else None
  }

  datatype Fault =
    | NoStart                 // `next` over the tiles finds no `S`
    | UnableToFindStart       // no pipe fits at `S`
    | NotAPipe(pos: Pos)      // `pipe_to_neighbors[...]` raises `KeyError` while tracing
    | OutOfFuel               // the tracing loop did not return to `S` within the bound

  /** The tile at `n` is a pipe one of whose exits leads back to `pos`. */
  predicate PointsBack(field: seq<string>, n: Pos, pos: Pos)
    requires Grid(field)
  {
    var t := GetPos(field, n);
    t.Some? && IsPipe(t.value) && (Add(Exits(t.value).0, n) == pos || Add(Exits(t.value).1, n) == pos)
  }

  /** Pipe `c` placed at `pos` would join both of its neighbours. */
  predicate Fits(field: seq<string>, pos: Pos, c: char)
    requires Grid(field) && IsPipe(c)
  {
    PointsBack(field, Add(Exits(c).0, pos), pos) && PointsBack(field, Add(Exits(c).1, pos), pos)
  }

  /** The first `S` in row-major order at or after row y, column x. */
  function FindS(field: seq<string>, y: nat, x: nat): (r: Option<Pos>)
    requires Grid(field) && y <= |field| && x <= |field[0]|
    ensures r.Some? ==> InGrid(field, r.value) && field[r.value.1][r.value.0] == 'S'
    ensures r.Some? ==> (r.value.1 > y || (r.value.1 == y && r.value.0 >= x))
    ensures r.None? ==> forall yy, xx :: y <= yy < |field| && 0 <= xx < |field[0]| && (yy > y || xx >= x) ==> field[yy][xx] != 'S'
    decreases |field| - y, |field[0]| - x
  {
    if y == |field| then None
    else if x == |field[0]| then FindS(field, y + 1, 0)
    else if field[y][x] == 'S' then Some((x, y))
    else FindS(field, y, x + 1)
  }

  /** No `S` comes before (x, y) in row-major order. */
  predicate FirstS(field: seq<string>, p: Pos)
    requires Grid(field) && InGrid(field, p)
  {
    forall yy, xx :: 0 <= yy < |field| && 0 <= xx < |field[0]| && (yy < p.1 || (yy == p.1 && xx < p.0)) ==> field[yy][xx] != 'S'
  }

  /** No tile from (x, y) on and before `p` in row-major order is `S`. */
  predicate NoSBetween(field: seq<string>, y: nat, x: nat, p: Pos)
    requires Grid(field)
  {
    forall yy, xx :: y <= yy < |field| && 0 <= xx < |field[0]| && (yy > y || xx >= x) && (yy < p.1 || (yy == p.1 && xx < p.0)) ==>
      field[yy][xx] != 'S'
  }

  /** What `FindS` from (x, y) returns is the first `S` from there on. */
  lemma {:induction false} FindSFirst(field: seq<string>, y: nat, x: nat)
    requires Grid(field) && y <= |field| && x <= |field[0]|
    requires FindS(field, y, x).Some?
    ensures NoSBetween(field, y, x, FindS(field, y, x).value)
    decreases |field| - y, |field[0]| - x
  {
    if x == |field[0]| {
      FindSFirst(field, y + 1, 0);
    } else if field[y][x] != 'S' {
      FindSFirst(field, y, x + 1);
    }
  }

  /** The index of the first table entry, from index i on, that fits at `pos`. */
  function FirstFit(field: seq<string>, pos: Pos, i: nat): (r: Option<nat>)
    requires Grid(field) && i <= |Pipes|
    ensures r.Some? ==> i <= r.value < |Pipes| && Fits(field, pos, Pipes[r.value])
    ensures r.Some? ==> forall j :: i <= j < r.value ==> !Fits(field, pos, Pipes[j])
    ensures r.None? ==> forall j :: i <= j < |Pipes| ==> !Fits(field, pos, Pipes[j])
    decreases |Pipes| - i
  {
    if i == |Pipes| then None
    else if Fits(field, pos, Pipes[i]) then Some(i)
    else FirstFit(field, pos, i + 1)
  }

  /**
   * `start_of`: the first `S` in row-major order and the first pipe in table order whose two
   * neighbours are pipes leading back to it.
   */
  function StartOf(field: seq<string>): (r: Result<(Pos, char), Fault>)
    requires Grid(field)
    ensures r.Ok? ==> InGrid(field, r.value.0) && field[r.value.0.1][r.value.0.0] == 'S' && FirstS(field, r.value.0)
    ensures r.Ok? ==> IsPipe(r.value.1) && Fits(field, r.value.0, r.value.1)
    ensures r.Ok? ==> exists k :: 0 <= k < |Pipes| && Pipes[k] == r.value.1 && forall j :: 0 <= j < k ==> !Fits(field, r.value.0, Pipes[j])
    ensures r == Err(NoStart) <==> forall y, x :: 0 <= y < |field| && 0 <= x < |field[0]| ==> field[y][x] != 'S'
    ensures r == Err(UnableToFindStart) ==> FindS(field, 0, 0).Some?
    ensures r == Err(UnableToFindStart) ==> forall j :: 0 <= j < |Pipes| ==> !Fits(field, FindS(field, 0, 0).value, Pipes[j])
    ensures r.Err? ==> r == Err(NoStart) || r == Err(UnableToFindStart)
  {
    match FindS(field, 0, 0)
    case None => Err(NoStart)
    case Some(pos) =>
      FindSFirst(field, 0, 0);
      match FirstFit(field, pos, 0)
      case None => Err(UnableToFindStart)
      case Some(k) => Ok((pos, Pipes[k]))
  }

  /**
   * One step of `trace_pipe`'s loop: the pipe at `pos` is left by its first exit that does
   * not lead back to `from`.
   */
  function Step(field: seq<string>, pos: Pos, from: Pos): (r: Result<Pos, Fault>)
    requires Grid(field)
    ensures r.Err? <==> GetPos(field, pos).None? || !IsPipe(GetPos(field, pos).value)
    ensures r.Err? ==> r.error == NotAPipe(pos)
    ensures r.Ok? ==> Leaves(field, pos, from, r.value)
  {
    var t := GetPos(field, pos);
    if t.None? || !IsPipe(t.value) then Err(NotAPipe(pos))
    else
      ExitsDistinct(t.value, t.value);
      var (a, b) := Exits(t.value);
      if Add(pos, a) != from then Ok(Add(pos, a)) else Ok(Add(pos, b))
  }

  /** `next` is reached from the pipe at `pos` by one of its exits, and is not `from`. */
  predicate Leaves(field: seq<string>, pos: Pos, from: Pos, next: Pos)
    requires Grid(field)
  {
    var t := GetPos(field, pos);
    t.Some? && IsPipe(t.value) && next != from && Unit(Sub(next, pos)) &&
    (Sub(next, pos) == Exits(t.value).0 || Sub(next, pos) == Exits(t.value).1)
  }

  /** The tile after position i of the loop, wrapping from the last back to the first. */
  function After(v: seq<Pos>, i: nat): Pos
    requires i < |v|
  {
    if i + 1 < |v| then v[i + 1] else v[0]
  }

  /**
   * The positions `v` visited so far, with `to` the next one: each step is a unit step, and
   * every visited pipe after the first tile was left by an exit other than the way it was entered.
   */
  predicate Path(field: seq<string>, v: seq<Pos>, to: Pos)
    requires Grid(field)
  {
    |v| >= 1 && Unit(Sub(to, v[|v| - 1])) &&
    (forall i :: 0 <= i < |v| - 1 ==> Unit(Sub(v[i + 1], v[i]))) &&
    (forall i :: 1 <= i < |v| - 1 ==> Leaves(field, v[i], v[i - 1], v[i + 1])) &&
    (|v| >= 2 ==> Leaves(field, v[|v| - 1], v[|v| - 2], to))
  }

  lemma PathSnoc(field: seq<string>, v: seq<Pos>, to: Pos, next: Pos)
    requires Grid(field) && Path(field, v, to) && Leaves(field, to, v[|v| - 1], next)
    ensures Path(field, v + [to], next)
  {
    var w := v + [to];
    forall i | 0 <= i < |w| - 1
      ensures Unit(Sub(w[i + 1], w[i]))
    {
      if i < |v| - 1 {
        assert w[i] == v[i] && w[i + 1] == v[i + 1];
      }
    }
    forall i | 1 <= i < |w| - 1
      ensures Leaves(field, w[i], w[i - 1], w[i + 1])
    {
      if i < |v| - 1 {
        assert w[i - 1] == v[i - 1] && w[i] == v[i] && w[i + 1] == v[i + 1];
      }
    }
  }

  /** A path whose next position is its first is a closed loop. */
  lemma PathClosed(field: seq<string>, v: seq<Pos>)
    requires Grid(field) && |v| >= 2 && Path(field, v, v[0])
    ensures forall i :: 0 <= i < |v| ==> Unit(Sub(After(v, i), v[i]))
    ensures forall i :: 1 <= i < |v| ==> Leaves(field, v[i], v[i - 1], After(v, i))
  {
  }

  /**
   * `trace_pipe`: from `S`, by the first exit of its pipe, following pipes until the path is
   * back at `S`. `fuel` bounds the number of steps.
   */
  method TracePipe(field: seq<string>, fuel: nat) returns (r: Result<seq<Pos>, Fault>)
    requires Grid(field)
    ensures StartOf(field).Err? ==> r == Err(StartOf(field).error)
    ensures r.Ok? ==> StartOf(field).Ok? && |r.value| >= 2
    ensures r.Ok? ==> r.value[0] == StartOf(field).value.0 && r.value[1] == Add(StartOf(field).value.0, Exits(StartOf(field).value.1).0)
    ensures r.Ok? ==> r.value[0] !in r.value[1..]
    ensures r.Ok? ==> forall i :: 0 <= i < |r.value| ==> Unit(Sub(After(r.value, i), r.value[i]))
    ensures r.Ok? ==> forall i :: 1 <= i < |r.value| ==> Leaves(field, r.value[i], r.value[i - 1], After(r.value, i))
  {
    var s := StartOf(field);
    if s.Err? {
      return Err(s.error);
    }
    r := Follow(field, s.value.0, s.value.1, fuel);
  }

  /** The loop of `trace_pipe`, from `start` leaving by the first exit of `pipe`. */
  method Follow(field: seq<string>, start: Pos, pipe: char, fuel: nat) returns (r: Result<seq<Pos>, Fault>)
    requires Grid(field) && IsPipe(pipe)
    ensures r.Ok? ==> |r.value| >= 2 && r.value[0] == start && r.value[1] == Add(start, Exits(pipe).0)
    ensures r.Ok? ==> start !in r.value[1..]
    ensures r.Ok? ==> forall i :: 0 <= i < |r.value| ==> Unit(Sub(After(r.value, i), r.value[i]))
    ensures r.Ok? ==> forall i :: 1 <= i < |r.value| ==> Leaves(field, r.value[i], r.value[i - 1], After(r.value, i))
  {
    ExitsDistinct(pipe, pipe);
    var from, to := start, Add(start, Exits(pipe).0);
    var visited := [start];
    var n := fuel;
    while to != start
      invariant Path(field, visited, to) && visited[0] == start && visited[|visited| - 1] == from
      invariant |visited| >= 2 ==> visited[1] == Add(start, Exits(pipe).0)
      invariant |visited| == 1 ==> to == Add(start, Exits(pipe).0)
      invariant start !in visited[1..]
      decreases n
    {
      if n == 0 {
        return Err(OutOfFuel);
      }
      n := n - 1;
      var next := Step(field, to, from);
      if next.Err? {
        return Err(next.error);
      }
      PathSnoc(field, visited, to, next.value);
      assert (visited + [to])[1..] == visited[1..] + [to];
      visited := visited + [to];
      from, to := to, next.value;
    }
    assert |visited| >= 2;
    PathClosed(field, visited);
    return Ok(visited);
  }

  /** Part 1: the farthest tile of the loop is half its length away, rounded up. */
  function Farthest(loop: seq<Pos>): (r: nat)
    ensures 2 * r == |loop| || 2 * r == |loop| + 1
  {
    (|loop| + 1) / 2
  }

  /** `[pipeline[-1]] + pipeline + [pipeline[0]]`: the loop with its ends wrapped around. */
  function Closed(loop: seq<Pos>): (c: seq<Pos>)
    requires loop != []
    ensures |c| == |loop| + 2
    ensures forall i :: 0 <= i < |loop| ==> c[i + 1] == loop[i]
  {
    [loop[|loop| - 1]] + loop + [loop[0]]
  }

  /** The tile before position i of the loop, wrapping from the first to the last. */
  function Before(v: seq<Pos>, i: nat): Pos
    requires i < |v|
  {
    if i > 0 then v[i - 1] else v[|v| - 1]
  }

  /** The triples before/at/after of `Closed` are the loop's tiles with their wrapped neighbours. */
  lemma ClosedTriple(loop: seq<Pos>, i: nat)
    requires i < |loop|
    ensures Closed(loop)[i] == Before(loop, i) && Closed(loop)[i + 1] == loop[i] && Closed(loop)[i + 2] == After(loop, i)
  {
  }

  /**
   * The `pipe_vecs` comprehension over the first k triples of `Closed(loop)`: each tile maps
   * to the tile before it minus the tile after it, a later triple overwriting an earlier one.
   */
  function PipeVecs(loop: seq<Pos>, k: nat): (m: map<Pos, Pos>)
    requires loop != [] && k <= |loop|
    ensures m.Keys == set i | 0 <= i < k :: loop[i]
  {
    if k == 0 then map[]
    else
      var c := Closed(loop);
      PipeVecs(loop, k - 1)[c[k] := Sub(c[k - 1], c[k + 1])]
  }

  /** On a loop that visits each tile once, every tile maps to its own before-minus-after. */
  lemma {:induction false} PipeVecsAt(loop: seq<Pos>, k: nat, i: nat)
    requires loop != [] && i < k <= |loop|
    requires forall a, b :: 0 <= a < b < |loop| ==> loop[a] != loop[b]
    ensures PipeVecs(loop, k)[loop[i]] == Sub(Before(loop, i), After(loop, i))
  {
    ClosedTriple(loop, k - 1);
    if i < k - 1 {
      PipeVecsAt(loop, k - 1, i);
    }
  }

  /** The contribution of tile p to a winding sum: the y-component of its vector, if it is on the loop. */
  function Crossing(vecs: map<Pos, Pos>, p: Pos): int
  {
    if p in vecs then vecs[p].1 else 0
  }

  /**
   * The winding sum of the ray cast from `p` to the right: each step moves one tile and adds
   * its crossing, for as long as the tile stepped from is on the grid.
   */
  function RayWinding(field: seq<string>, vecs: map<Pos, Pos>, p: Pos): int
    requires Grid(field)
    decreases |field[0]| - p.0
  {
    if !InGrid(field, p) then 0
    else
      var q := Add(p, (1, 0));
      Crossing(vecs, q) + RayWinding(field, vecs, q)
  }

  /** `is_enclosed`: the ray's winding sum is not zero. */
  method IsEnclosed(field: seq<string>, vecs: map<Pos, Pos>, ground: Pos) returns (r: bool)
    requires Grid(field)
    ensures r <==> RayWinding(field, vecs, ground) != 0
  {
    var cur := ground;
    var winding := 0;
    while GetPos(field, cur).Some?
      invariant winding + RayWinding(field, vecs, cur) == RayWinding(field, vecs, ground)
      decreases |field[0]| - cur.0
    {
      cur := Add(cur, (1, 0));
      if cur in vecs {
        winding := winding + vecs[cur].1;
      }
    }
    return winding != 0;
  }

  /**
   * When the loop lies inside the grid the ray sums exactly the crossings strictly to the
   * right of its start on the same row; in particular a tile of the last column is never
   * enclosed.
   */
  lemma {:induction false} RayWindingRow(field: seq<string>, vecs: map<Pos, Pos>, p: Pos)
    requires Grid(field) && InGrid(field, p)
    requires forall q :: q in vecs ==> InGrid(field, q)
    ensures RayWinding(field, vecs, p) == RowSum(vecs, p.1, p.0 + 1, |field[0]|)
    ensures p.0 == |field[0]| - 1 ==> RayWinding(field, vecs, p) == 0
    decreases |field[0]| - p.0
  {
    var q := Add(p, (1, 0));
    if InGrid(field, q) {
      RayWindingRow(field, vecs, q);
    } else {
      assert q !in vecs;
    }
  }

  /** The crossings of row y at columns from..to-1. */
  function RowSum(vecs: map<Pos, Pos>, y: int, from: int, to: int): int
    decreases to - from
  {
    if from >= to then 0 else Crossing(vecs, (from, y)) + RowSum(vecs, y, from + 1, to)
  }

  /** A tile counted by `find_enclosed`: on the grid, not on the loop, and its ray winds. */
  predicate Enclosed(field: seq<string>, vecs: map<Pos, Pos>, p: Pos)
    requires Grid(field)
  {
    InGrid(field, p) && p !in vecs && RayWinding(field, vecs, p) != 0
  }

  /** The enclosed tiles of row y before column x, left to right. */
  function EnclosedInRow(field: seq<string>, vecs: map<Pos, Pos>, y: nat, x: nat): seq<Pos>
    requires Grid(field) && y < |field| && x <= |field[0]|
  {
    if x == 0 then []
    else
      var rest := EnclosedInRow(field, vecs, y, x - 1);
      if Enclosed(field, vecs, (x - 1, y)) then rest + [(x - 1, y)] else rest
  }

  /** The list comprehension of `find_enclosed` over the first y rows, row by row. */
  function EnclosedUpTo(field: seq<string>, vecs: map<Pos, Pos>, y: nat): seq<Pos>
    requires Grid(field) && y <= |field|
  {
    if y == 0 then [] else EnclosedUpTo(field, vecs, y - 1) + EnclosedInRow(field, vecs, y - 1, |field[0]|)
  }

  /** Row y's list holds exactly its enclosed tiles before column x, in increasing column order. */
  lemma {:induction false} EnclosedInRowMeaning(field: seq<string>, vecs: map<Pos, Pos>, y: nat, x: nat)
    requires Grid(field) && y < |field| && x <= |field[0]|
    ensures forall p :: p in EnclosedInRow(field, vecs, y, x) <==> p.1 == y && 0 <= p.0 < x && Enclosed(field, vecs, p)
    ensures forall a, b :: 0 <= a < b < |EnclosedInRow(field, vecs, y, x)| ==>
      EnclosedInRow(field, vecs, y, x)[a].0 < EnclosedInRow(field, vecs, y, x)[b].0
  {
    if x > 0 {
      EnclosedInRowMeaning(field, vecs, y, x - 1);
    }
  }

  /**
   * The list holds exactly the enclosed tiles of the first y rows, each once, so its length
   * is their number.
   */
  lemma {:induction false} EnclosedUpToMeaning(field: seq<string>, vecs: map<Pos, Pos>, y: nat)
    requires Grid(field) && y <= |field|
    ensures forall p :: p in EnclosedUpTo(field, vecs, y) <==> 0 <= p.1 < y && Enclosed(field, vecs, p)
    ensures forall a, b :: 0 <= a < b < |EnclosedUpTo(field, vecs, y)| ==> EnclosedUpTo(field, vecs, y)[a] != EnclosedUpTo(field, vecs, y)[b]
  {
    if y > 0 {
      var before := EnclosedUpTo(field, vecs, y - 1);
      var row := EnclosedInRow(field, vecs, y - 1, |field[0]|);
      EnclosedUpToMeaning(field, vecs, y - 1);
      EnclosedInRowMeaning(field, vecs, y - 1, |field[0]|);
      assert forall a :: 0 <= a < |row| ==> row[a] in row;
      assert forall a :: 0 <= a < |before| ==> before[a] in before;
    }
  }

  /** The inner loop of `find_enclosed`'s comprehension: the enclosed tiles of row y, appended. */
  method RowEnclosed(field: seq<string>, vecs: map<Pos, Pos>, y: nat, found0: seq<Pos>) returns (found: seq<Pos>)
    requires Grid(field) && y < |field|
    ensures found == found0 + EnclosedInRow(field, vecs, y, |field[0]|)
  {
    found := found0;
    for x := 0 to |field[0]|
      invariant found == found0 + EnclosedInRow(field, vecs, y, x)
    {
      if (x, y) !in vecs {
        var inside := IsEnclosed(field, vecs, (x, y));
        if inside {
          found := found + [(x, y)];
        }
      }
    }
  }

  /** `find_enclosed`: the number of tiles off the loop enclosed by it. */
  method FindEnclosed(field: seq<string>, loop: seq<Pos>) returns (count: nat)
    requires Grid(field) && loop != []
    ensures count == |EnclosedUpTo(field, PipeVecs(loop, |loop|), |field|)|
  {
    var vecs := PipeVecs(loop, |loop|);
    var found: seq<Pos> := [];
    for y := 0 to |field|
      invariant found == EnclosedUpTo(field, vecs, y)
    {
      found := RowEnclosed(field, vecs, y, found);
    }
    return |found|;
  }
}

/**
 * A field on which the trace of the pipe maze revisits a tile before it is back at `S`.
 */
module PipeMazeRevisit {
  import opened Wrappers
  import opened PipeMaze

  /**
   * `trace_pipe` does not check that the pipe it steps onto connects back, so the path it
   * returns need not visit each tile once. On this 3-by-3 field `S` takes the `┌` shape and
   * the trace runs S, (1, 1), (2, 1), (2, 0), (1, 0), (1, 1) and then back to `S`: the `│`
   * at (1, 0), entered from the side, is left southwards onto the `─` already visited.
   */
  const Revisiting: seq<string> := [".│┐", "S─┘", "│.."]

  /** The tiles of `Revisiting`, row by row. */
  predicate RevisitingShape(f: seq<string>)
  {
    && |f| == 3 && |f[0]| == 3 && |f[1]| == 3 && |f[2]| == 3
    && f[0][0] == '.' && f[0][1] == '│' && f[0][2] == '┐'
    && f[1][0] == 'S' && f[1][1] == '─' && f[1][2] == '┘'
    && f[2][0] == '│' && f[2][1] == '.' && f[2][2] == '.'
  }

  lemma RevisitingField()
    ensures Grid(Revisiting) && RevisitingShape(Revisiting)
  {
  }

  lemma RevisitingStart(f: seq<string>)
    requires RevisitingShape(f)
    ensures Grid(f) && StartOf(f).Ok? && StartOf(f).value == ((0, 1), '┌')
    ensures Exits('┌').0 == (1, 0)
  {
    ExitsTable();
    assert FindS(f, 0, 0) == Some((0, 1)) by {
      assert FindS(f, 0, 0) == FindS(f, 0, 1) == FindS(f, 0, 2) == FindS(f, 0, 3) == FindS(f, 1, 0);
    }
    RevisitingFits(f);
    assert FirstFit(f, (0, 1), 0) == Some(5) by {
      assert FirstFit(f, (0, 1), 0) == FirstFit(f, (0, 1), 1) == FirstFit(f, (0, 1), 2);
      assert FirstFit(f, (0, 1), 2) == FirstFit(f, (0, 1), 3) == FirstFit(f, (0, 1), 4) == FirstFit(f, (0, 1), 5);
    }
  }

  /** Of the six pipes only `┌` joins both of its neighbours at `S`. */
  lemma RevisitingFits(f: seq<string>)
    requires RevisitingShape(f)
    ensures Grid(f)
    ensures !Fits(f, (0, 1), Pipes[0]) && !Fits(f, (0, 1), Pipes[1]) && !Fits(f, (0, 1), Pipes[2])
    ensures !Fits(f, (0, 1), Pipes[3]) && !Fits(f, (0, 1), Pipes[4]) && Fits(f, (0, 1), Pipes[5])
  {
    ExitsTable();
    NoFit(f, '│', (0, 0));
    NoFit(f, '─', (-1, 1));
    NoFit(f, '└', (0, 0));
    NoFit(f, '┘', (-1, 1));
    NoFit(f, '┐', (-1, 1));
    StartFits(f);
  }

  /** A pipe at `S` one of whose exits reaches `n`, which does not lead back, does not fit. */
  lemma NoFit(f: seq<string>, c: char, n: Pos)
    requires RevisitingShape(f) && IsPipe(c) && (n == Add(Exits(c).0, (0, 1)) || n == Add(Exits(c).1, (0, 1)))
    requires n == (0, 0) || n == (-1, 1)
    ensures Grid(f) && !Fits(f, (0, 1), c)
  {
    assert !PointsBack(f, n, (0, 1)) by { assert GetPos(f, n) == None || GetPos(f, n) == Some('.'); }
  }

  lemma StartFits(f: seq<string>)
    requires RevisitingShape(f)
    ensures Grid(f) && Fits(f, (0, 1), '┌')
  {
    ExitsTable();
    assert PointsBack(f, (1, 1), (0, 1)) by { assert GetPos(f, (1, 1)) == Some('─'); }
    assert PointsBack(f, (0, 2), (0, 1)) by { assert GetPos(f, (0, 2)) == Some('│'); }
  }

  /** The steps of the trace from `RevisitingStart`, the tile (1, 1) entered twice. */
  lemma RevisitingSteps(f: seq<string>)
    requires RevisitingShape(f)
    ensures Grid(f)
    ensures Step(f, (1, 1), (0, 1)) == Ok((2, 1)) && Step(f, (2, 1), (1, 1)) == Ok((2, 0))
    ensures Step(f, (2, 0), (2, 1)) == Ok((1, 0)) && Step(f, (1, 0), (2, 0)) == Ok((1, 1))
    ensures Step(f, (1, 1), (1, 0)) == Ok((0, 1))
  {
    StepOnto(f, (1, 1), (0, 1), '─', (2, 1));
    StepOnto(f, (2, 1), (1, 1), '┘', (2, 0));
    StepOnto(f, (2, 0), (2, 1), '┐', (1, 0));
    StepOnto(f, (1, 0), (2, 0), '│', (1, 1));
    StepOnto(f, (1, 1), (1, 0), '─', (0, 1));
  }

  /** `Step` from the pipe `c` at `pos`, entered from `from`, goes to `next`. */
  lemma StepOnto(f: seq<string>, pos: Pos, from: Pos, c: char, next: Pos)
    requires RevisitingShape(f) && 0 <= pos.0 < 3 && 0 <= pos.1 < 3 && f[pos.1][pos.0] == c && IsPipe(c)
    requires next == if Add(pos, Exits(c).0) != from then Add(pos, Exits(c).0) else Add(pos, Exits(c).1)
    ensures Grid(f) && Step(f, pos, from) == Ok(next)
  {
  }
}
