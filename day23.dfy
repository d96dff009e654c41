/**
 * A long walk (day23): the ways into and out of each tile of the hiking map, and the
 * exhaustive search for the longest walk from the start tile to the end tile that never
 * steps on the same tile twice.
 */
module LongWalk {
  import opened Wrappers

  /** An (x, y) position; y grows downwards. */
  type Point = (int, int)

  type Grid = seq<seq<char>>

  /** The tiles a tile can be entered from, and the tiles it can be left to. */
  type Io = (set<Point>, set<Point>)

  /** `io_by_pt`: the ways in and out of every tile that is not forest. */
  type IoMap = map<Point, Io>

  datatype WalkError =
    | IndexError               // a row shorter than the first row was indexed, or the map is empty
    | UnknownTile(at: Point)   // a tile that is neither path, forest nor slope
    | MissingKey(key: Point)   // a position missing from `io_by_pt` or from `rating_by_pt`

  /** `start`: the walk begins on the second tile of the top row. */
  const Start: Point := (1, 0)

  function Add(a: Point, b: Point): Point
  {
    (a.0 + b.0, a.1 + b.1)
  }

  /** `slopes`: the step a slope tile forces on whoever stands on it. */
  function Slope(c: char): Option<Point>
  {
    match c
    case '^' => Some((0, -1))
    case 'v' => Some((0, 1))
    case '<' => Some((-1, 0))
    case '>' => Some((1, 0))
    case _ => None
  }

  /** The four positions one unit step away. */
  function Around(p: Point): set<Point>
  {
    {Add(p, (0, 1)), Add(p, (0, -1)), Add(p, (1, 0)), Add(p, (-1, 0))}
  }

  /** Inside the rectangle that `io_of` tests: as wide as the first row, as high as the map. */
  predicate InBox(grid: Grid, p: Point)
  {
    |grid| > 0 && 0 <= p.0 < |grid[0]| && 0 <= p.1 < |grid|
  }

  /** `grid[y][x]` exists. */
  predicate InRow(grid: Grid, p: Point)
  {
    0 <= p.1 < |grid| && 0 <= p.0 < |grid[p.1]|
  }

  function At(grid: Grid, p: Point): char
    requires InRow(grid, p)
  {
    grid[p.1][p.0]
  }

  /** A neighbour that `io_of` keeps: inside the box, not forest, and not the start. */
  predicate Open(grid: Grid, q: Point)
  {
    InBox(grid, q) && InRow(grid, q) && At(grid, q) != '#' && q != Start
  }

  /** From `q` one may step onto `pt`: `q` is a path tile, or a slope pointing at `pt`. */
  predicate Enters(grid: Grid, q: Point, pt: Point)
    requires InRow(grid, q)
  {
    At(grid, q) == '.' || (Slope(At(grid, q)).Some? && Add(q, Slope(At(grid, q)).value) == pt)
  }

  /** Some neighbour lies in the box but past the end of its own, shorter row. */
  predicate Ragged(grid: Grid, pt: Point)
  {
    exists q :: q in Around(pt) && InBox(grid, q) && !InRow(grid, q)
  }

  /**
   * `io_of`: the open neighbours that lead onto `pt`, and the tiles `pt` may be left to. A path
   * tile may be left to any open neighbour; a slope only to the tile it points at, and to
   * nothing when that is the start; any other tile is an error.
   */
  function IoOf(grid: Grid, pt: Point): (r: Result<Io, WalkError>)
    requires InRow(grid, pt)
    ensures r.Ok? ==> r.value.0 <= Around(pt) && r.value.1 <= Around(pt) && Start !in r.value.1
    ensures r.Ok? ==> forall q :: q in r.value.0 ==> Open(grid, q) && Enters(grid, q, pt)
    ensures r.Ok? <==> !Ragged(grid, pt) && (At(grid, pt) == '.' || Slope(At(grid, pt)).Some?)
  {
    if Ragged(grid, pt) then Err(IndexError)
    else
      var valid := set q | q in Around(pt) && Open(grid, q);
      var incoming := set q | q in valid && Enters(grid, q, pt);
      var tile := At(grid, pt);
      if tile == '.' then Ok((incoming, valid))
      else if Slope(tile).Some? then
        var dest := Add(pt, Slope(tile).value);
        Ok((incoming, if dest == Start then {} else {dest}))
      else Err(UnknownTile(pt))
  }

  /** A path tile may be left to exactly its open neighbours; a slope only downhill. */
  lemma IoExits(grid: Grid, pt: Point)
    requires InRow(grid, pt) && IoOf(grid, pt).Ok?
    ensures At(grid, pt) == '.' ==> forall q :: q in IoOf(grid, pt).value.1 <==> q in Around(pt) && Open(grid, q)
    ensures Slope(At(grid, pt)).Some? ==>
              IoOf(grid, pt).value.1 == {Add(pt, Slope(At(grid, pt)).value)} - {Start}
    ensures forall q :: q in Around(pt) && Open(grid, q) && Enters(grid, q, pt) ==> q in IoOf(grid, pt).value.0
  {
  }

  /** A tile of the box that is not forest: a key of `io_by_pt`. */
  predicate Tile(grid: Grid, p: Point)
  {
    InBox(grid, p) && InRow(grid, p) && At(grid, p) != '#'
  }

  /** Every position of the box from row `y` on exists and, unless forest, has its ways in and out. */
  ghost predicate Readable(grid: Grid, y: int)
  {
    forall p :: InBox(grid, p) && y <= p.1 ==> InRow(grid, p) && (At(grid, p) != '#' ==> IoOf(grid, p).Ok?)
  }

  /** The part of `init_io_by_pt` for row `y`, from column `x` on, in the order Python builds it. */
  function RowIo(grid: Grid, y: int, x: int): Result<IoMap, WalkError>
    requires 0 <= y < |grid| && 0 <= x
    decreases |grid[0]| - x
  {
    if x >= |grid[0]| then Ok(map[])
    else if x >= |grid[y]| then Err(IndexError)
    else if grid[y][x] == '#' then RowIo(grid, y, x + 1)
    else
      match IoOf(grid, (x, y))
      case Err(e) => Err(e)
      case Ok(io) =>
        match RowIo(grid, y, x + 1)
        case Err(e) => Err(e)
        case Ok(m) => Ok(m[(x, y) := io])
  }

  /** `init_io_by_pt` for the rows from `y` on: rows top to bottom, each left to right. */
  function GridIo(grid: Grid, y: nat): Result<IoMap, WalkError>
    requires |grid| > 0
    decreases |grid| - y
  {
    if y >= |grid| then Ok(map[])
    else
      match RowIo(grid, y, 0)
      case Err(e) => Err(e)
      case Ok(m) =>
        match GridIo(grid, y + 1)
        case Err(e) => Err(e)
        case Ok(m') => Ok(m + m')
  }

  /** A row is read without error exactly when its cells from `x` on exist and are known tiles. */
  lemma {:induction false} RowIoOk(grid: Grid, y: int, x: int)
    requires 0 <= y < |grid| && 0 <= x
    ensures RowIo(grid, y, x).Ok? <==>
              forall p :: InBox(grid, p) && p.1 == y && x <= p.0 ==>
                InRow(grid, p) && (At(grid, p) != '#' ==> IoOf(grid, p).Ok?)
    decreases |grid[0]| - x
  {
    if x < |grid[0]| {
      if x >= |grid[y]| {
        assert InBox(grid, (x, y)) && !InRow(grid, (x, y));
      } else {
        RowIoOk(grid, y, x + 1);
      }
    }
  }

  /** A row read without error maps its non-forest tiles from `x` on to their `io_of`. */
  lemma {:induction false} RowIoMap(grid: Grid, y: int, x: int)
    requires 0 <= y < |grid| && 0 <= x && RowIo(grid, y, x).Ok?
    ensures forall p :: p in RowIo(grid, y, x).value <==> Tile(grid, p) && p.1 == y && x <= p.0
    ensures forall p :: p in RowIo(grid, y, x).value ==> InRow(grid, p) && IoOf(grid, p) == Ok(RowIo(grid, y, x).value[p])
    decreases |grid[0]| - x
  {
    if x < |grid[0]| {
      RowIoMap(grid, y, x + 1);
    }
  }

  lemma RowIoSpec(grid: Grid, y: int)
    requires 0 <= y < |grid|
    ensures RowIo(grid, y, 0).Ok? <==>
              forall p :: InBox(grid, p) && p.1 == y ==> InRow(grid, p) && (At(grid, p) != '#' ==> IoOf(grid, p).Ok?)
    ensures RowIo(grid, y, 0).Ok? ==>
              forall p :: p in RowIo(grid, y, 0).value <==> Tile(grid, p) && p.1 == y
    ensures RowIo(grid, y, 0).Ok? ==>
              forall p :: p in RowIo(grid, y, 0).value ==> InRow(grid, p) && IoOf(grid, p) == Ok(RowIo(grid, y, 0).value[p])
  {
    RowIoOk(grid, y, 0);
    if RowIo(grid, y, 0).Ok? {
      RowIoMap(grid, y, 0);
    }
  }

  /**
   * `init_io_by_pt` is built without error exactly when every position of the box exists and
   * every non-forest tile has its ways in and out; it then maps exactly the non-forest tiles
   * of the box to their `io_of`.
   */
  lemma {:induction false} GridIoSpec(grid: Grid, y: nat)
    requires |grid| > 0
    ensures GridIo(grid, y).Ok? <==> Readable(grid, y)
    ensures GridIo(grid, y).Ok? ==> forall p :: p in GridIo(grid, y).value <==> Tile(grid, p) && y <= p.1
    ensures GridIo(grid, y).Ok? ==>
              forall p :: p in GridIo(grid, y).value ==> InRow(grid, p) && IoOf(grid, p) == Ok(GridIo(grid, y).value[p])
    decreases |grid| - y
  {
    if y < |grid| {
      RowIoSpec(grid, y);
      GridIoSpec(grid, y + 1);
      if RowIo(grid, y, 0).Ok? && !GridIo(grid, y + 1).Ok? {
        var p :| InBox(grid, p) && y + 1 <= p.1 && !(InRow(grid, p) && (At(grid, p) != '#' ==> IoOf(grid, p).Ok?));
        assert !Readable(grid, y);
      }
    }
  }

  // ---------------------------------------------------------------------------------------
  // Walks

  /** `end`: the second-to-last tile of the bottom row. */
  function Goal(grid: Grid): Point
    requires |grid| > 0
  {
    (|grid[|grid| - 1]| - 2, |grid| - 1)
  }

  /** The keys of `rating_by_pt`: every position of the box. */
  function Box(grid: Grid): set<Point>
    requires |grid| > 0
  {
    set x, y | 0 <= x < |grid[0]| && 0 <= y < |grid| :: (x, y)
  }

  function Last(t: seq<Point>): Point
    requires t != []
  {
    t[|t| - 1]
  }

  function Members(t: seq<Point>): set<Point>
  {
    set p | p in t
  }

  /** Every step of `t` leaves a tile other than the goal to one of its exits. */
  predicate Steps(init: IoMap, goal: Point, t: seq<Point>)
    decreases |t|
  {
    |t| <= 1 ||
    (Steps(init, goal, t[..|t| - 1]) &&
     var a := t[|t| - 2];
     a != goal && a in init && t[|t| - 1] in init[a].1)
  }

  /** No tile occurs twice in `t`. */
  predicate Distinct(t: seq<Point>)
    decreases |t|
  {
    t == [] || (Distinct(t[..|t| - 1]) && Last(t) !in t[..|t| - 1])
  }

  /**
   * A walk the search can follow: from the start, one exit at a time, never twice on a tile,
   * and never on past the goal.
   */
  predicate Trail(init: IoMap, goal: Point, t: seq<Point>)
  {
    t != [] && t[0] == Start && Steps(init, goal, t) && Distinct(t)
  }

  /**
   * A walk whose last tile the search cannot look up: it is missing from `rating_by_pt`, or it
   * is not the goal and has no entry in `io_by_pt`.
   */
  predicate Failing(init: IoMap, goal: Point, keys: set<Point>, t: seq<Point>)
    requires t != []
  {
    Last(t) !in keys || (Last(t) != goal && Last(t) !in init)
  }

  /**
   * What `find_longest_path` answers: it fails exactly when some walk fails, and otherwise
   * gives the number of steps of the longest walk to the goal, or 0 when there is none.
   */
  ghost predicate Answers(init: IoMap, goal: Point, keys: set<Point>, r: Result<nat, WalkError>)
  {
    (r.Ok? <==> forall t :: Trail(init, goal, t) ==> !Failing(init, goal, keys, t)) &&
    (r.Err? ==> r.error.MissingKey?) &&
    (r.Ok? ==> forall t :: Trail(init, goal, t) && Last(t) == goal ==> |t| - 1 <= r.value) &&
    (r.Ok? && r.value != 0 ==> exists t :: Trail(init, goal, t) && Last(t) == goal && |t| - 1 == r.value)
  }

  lemma {:induction false} StepsAt(init: IoMap, goal: Point, t: seq<Point>, i: nat)
    requires Steps(init, goal, t) && i + 1 < |t|
    ensures t[i] != goal && t[i] in init && t[i + 1] in init[t[i]].1
    decreases |t|
  {
    if i + 2 < |t| {
      StepsAt(init, goal, t[..|t| - 1], i);
    }
  }

  lemma {:induction false} StepsPrefix(init: IoMap, goal: Point, t: seq<Point>, n: nat)
    requires Steps(init, goal, t) && n <= |t|
    ensures Steps(init, goal, t[..n])
    decreases |t|
  {
    if n < |t| {
      StepsPrefix(init, goal, t[..|t| - 1], n);
      assert t[..|t| - 1][..n] == t[..n];
    } else {
      assert t[..n] == t;
    }
  }

  lemma {:induction false} DistinctAt(t: seq<Point>, i: nat, j: nat)
    requires Distinct(t) && i < j < |t|
    ensures t[i] != t[j]
    decreases |t|
  {
    if j < |t| - 1 {
      DistinctAt(t[..|t| - 1], i, j);
    } else {
      assert t[i] in t[..|t| - 1];
    }
  }

  lemma {:induction false} DistinctPrefix(t: seq<Point>, n: nat)
    requires Distinct(t) && n <= |t|
    ensures Distinct(t[..n])
    decreases |t|
  {
    if n < |t| {
      DistinctPrefix(t[..|t| - 1], n);
      assert t[..|t| - 1][..n] == t[..n];
    } else {
      assert t[..n] == t;
    }
  }

  /** A prefix of a walk is a walk. */
  lemma TrailPrefix(init: IoMap, goal: Point, t: seq<Point>, n: nat)
    requires Trail(init, goal, t) && 0 < n <= |t|
    ensures Trail(init, goal, t[..n])
  {
    StepsPrefix(init, goal, t, n);
    DistinctPrefix(t, n);
  }

  /** A walk goes on by any exit of its last tile that it has not yet visited, unless it is at the goal. */
  lemma TrailExtend(init: IoMap, goal: Point, t: seq<Point>, c: Point)
    requires Trail(init, goal, t) && Last(t) != goal && Last(t) in init
    requires c in init[Last(t)].1 && c !in Members(t)
    ensures Trail(init, goal, t + [c]) && Last(t + [c]) == c && Members(t + [c]) == Members(t) + {c}
  {
    var u := t + [c];
    assert u[..|u| - 1] == t;
    assert c !in t;
    assert Members(u) == Members(t) + {c};
  }

  /** The tiles of a walk before its last one are keys of `io_by_pt`. */
  lemma {:induction false} TrailInit(init: IoMap, goal: Point, t: seq<Point>)
    requires Trail(init, goal, t)
    ensures forall p :: p in Members(t) && p != Last(t) ==> p in init
  {
    forall p | p in Members(t) && p != Last(t) ensures p in init {
      var i :| 0 <= i < |t| && t[i] == p;
      StepsAt(init, goal, t, i);
    }
  }

  /** A walk visits as many tiles as it is long. */
  lemma {:induction false} DistinctSize(t: seq<Point>)
    requires Distinct(t)
    ensures |Members(t)| == |t|
    decreases |t|
  {
    if t != [] {
      var u := t[..|t| - 1];
      DistinctSize(u);
      assert t == u + [Last(t)];
      assert Members(t) == Members(u) + {Last(t)};
    }
  }

  /** Once at the goal, a walk cannot go on: the only walk it is a prefix of is itself. */
  lemma GoalEnds(init: IoMap, goal: Point, t: seq<Point>, u: seq<Point>)
    requires Trail(init, goal, u) && t != [] && t <= u && Last(t) == goal
    ensures u == t
  {
    if |t| < |u| {
      StepsAt(init, goal, u, |t| - 1);
    }
  }

  /** A walk longer than `t` that starts with `t` goes on by an exit of `Last(t)` it has not visited. */
  lemma NextStep(init: IoMap, goal: Point, t: seq<Point>, u: seq<Point>)
    requires Trail(init, goal, u) && t != [] && t <= u && |t| < |u|
    ensures Last(t) != goal && Last(t) in init
    ensures u[|t|] in init[Last(t)].1 && u[|t|] !in Members(t)
    ensures t + [u[|t|]] <= u
  {
    StepsAt(init, goal, u, |t| - 1);
    if u[|t|] in Members(t) {
      var i :| 0 <= i < |t| && t[i] == u[|t|];
      DistinctAt(u, i, |t|);
    }
    assert u[..|t| + 1] == t + [u[|t|]];
  }

  /** A walk that starts with `t` is `t` itself, or goes on by an unvisited exit of `Last(t)`. */
  lemma Continues(init: IoMap, goal: Point, t: seq<Point>, u: seq<Point>)
    requires Trail(init, goal, u) && t != [] && t <= u
    ensures u == t || (Last(t) != goal && Last(t) in init && u[|t|] in init[Last(t)].1 - Members(t))
  {
    if |t| < |u| {
      NextStep(init, goal, t, u);
    }
  }

  // ---------------------------------------------------------------------------------------
  // The search tree

  /** Every position `io_by_pt` names: its keys and all their exits. */
  ghost function Universe(init: IoMap): set<Point>
  {
    init.Keys + (set k, p | k in init && p in init[k].1 :: p)
  }

  /** The exits the search tries from `pos` after visiting `visited`: none at the goal or off the map. */
  function Kids(init: IoMap, goal: Point, pos: Point, visited: set<Point>): set<Point>
  {
    if pos == goal || pos !in init then {} else init[pos].1 - visited
  }

  lemma KidsInUniverse(init: IoMap, goal: Point, pos: Point, visited: set<Point>)
    ensures Kids(init, goal, pos, visited) <= Universe(init) - visited
  {
    if pos != goal && pos in init {
      forall p | p in init[pos].1 ensures p in Universe(init) {
        assert p in (set k, q | k in init && q in init[k].1 :: q);
      }
    }
  }

  lemma VisitOne(u: set<Point>, visited: set<Point>, c: Point)
    requires c in u - visited
    ensures |u - (visited + {c})| < |u - visited|
  {
    assert u - (visited + {c}) == (u - visited) - {c};
  }

  /**
   * The number of jobs the search pops below a job at `pos` that has visited `visited`: the
   * job itself and those below each of its exits.
   */
  ghost function Nodes(init: IoMap, goal: Point, pos: Point, visited: set<Point>): nat
    decreases |Universe(init) - visited|, 1, 0
  {
    KidsInUniverse(init, goal, pos, visited);
    1 + KidsNodes(init, goal, visited, Kids(init, goal, pos, visited))
  }

  /** The jobs popped below the exits `s`, each taken from a job that has visited `visited`. */
  ghost function KidsNodes(init: IoMap, goal: Point, visited: set<Point>, s: set<Point>): nat
    requires s <= Universe(init) - visited
    decreases |Universe(init) - visited|, 0, |s|
  {
    if s == {} then 0
    else
      var c :| c in s;
      VisitOne(Universe(init), visited, c);
      Nodes(init, goal, c, visited + {c}) + KidsNodes(init, goal, visited, s - {c})
  }

  /** `KidsNodes` does not depend on the order it takes the exits in. */
  lemma KidsNodesRemove(init: IoMap, goal: Point, visited: set<Point>, s: set<Point>, c: Point)
    requires s <= Universe(init) - visited && c in s
    ensures KidsNodes(init, goal, visited, s) ==
            Nodes(init, goal, c, visited + {c}) + KidsNodes(init, goal, visited, s - {c})
    decreases |s|
  {
    var a :| a in s && KidsNodes(init, goal, visited, s) ==
                       Nodes(init, goal, a, visited + {a}) + KidsNodes(init, goal, visited, s - {a});
    if a != c {
      KidsNodesRemove(init, goal, visited, s - {a}, c);
      KidsNodesRemove(init, goal, visited, s - {c}, a);
      assert s - {a} - {c} == s - {c} - {a};
    }
  }

  // ---------------------------------------------------------------------------------------
  // Jobs

  /**
   * A job of the worklist: the current tile, the tiles visited so far and the job's own copy
   * of `io_by_pt`. The walk that led to it is kept for the proof only.
   */
  datatype Job = Job(pos: Point, visited: set<Point>, io: IoMap, ghost trail: seq<Point>)

  /** The copy of `io_by_pt` a job holds, built by `Prune` from the initial one. */
  function Prune(io: IoMap, cur: Point, out: Point): (r: IoMap)
    ensures r.Keys == io.Keys
  {
    map k | k in io :: (io[k].0 - {cur}, io[k].1 - {out})
  }

  /**
   * What the repeated pruning leaves of `init`: every tile left on the way has been dropped
   * from the ways in, and every tile stepped onto from the ways out.
   */
  function Trimmed(init: IoMap, visited: set<Point>, pos: Point): (r: IoMap)
    ensures r.Keys == init.Keys
  {
    map k | k in init :: (init[k].0 - (visited - {pos}), init[k].1 - (visited - {Start}))
  }

  /** The job follows a walk, has visited its tiles, stands on its last one and holds the trimmed map. */
  ghost predicate JobOk(init: IoMap, goal: Point, j: Job)
  {
    Trail(init, goal, j.trail) && j.pos == Last(j.trail) && j.visited == Members(j.trail) &&
    j.io == Trimmed(init, j.visited, j.pos)
  }

  ghost predicate AllOk(init: IoMap, goal: Point, jobs: seq<Job>)
  {
    forall j :: j in jobs ==> JobOk(init, goal, j)
  }

  /** The first job stands on the start and holds `init_io_by_pt` unchanged. */
  lemma FirstJob(init: IoMap, goal: Point)
    ensures JobOk(init, goal, Job(Start, {Start}, init, [Start]))
  {
    assert Members([Start]) == {Start};
    var t := Trimmed(init, {Start}, Start);
    assert {Start} - {Start} == {};
    forall k | k in init ensures t[k] == init[k] {
      assert t[k].0 == init[k].0 - {};
      assert t[k].0 == init[k].0;
      assert t[k].1 == init[k].1;
    }
    assert t == init;
  }

  /**
   * A job's copy of `io_by_pt` only ever loses visited tiles from the ways out, so the exits
   * it tries are those of `init_io_by_pt` that it has not visited.
   */
  lemma JobExits(init: IoMap, goal: Point, j: Job)
    requires JobOk(init, goal, j) && j.pos in init
    ensures j.pos in j.io && j.io[j.pos].1 - j.visited == init[j.pos].1 - j.visited
  {
  }

  /** The job made for exit `c`: one more visited tile, and the copy pruned as the source does. */
  function Child(j: Job, c: Point): Job
  {
    Job(c, j.visited + {c}, Prune(j.io, j.pos, c), j.trail + [c])
  }

  lemma ChildOk(init: IoMap, goal: Point, j: Job, c: Point)
    requires JobOk(init, goal, j) && j.pos != goal && j.pos in init && c in init[j.pos].1 - j.visited
    ensures JobOk(init, goal, Child(j, c))
  {
    TrailExtend(init, goal, j.trail, c);
    assert Start in j.visited by {
      assert j.trail[0] in j.trail;
    }
    assert j.pos in j.visited by {
      assert Last(j.trail) in j.trail;
    }
    PruneTrimmed(init, j.visited, j.pos, c);
  }

  /**
   * Pruning the trimmed copy for a step from `pos` to an unvisited `c` gives the copy trimmed
   * by the walk one tile longer: one prune per step keeps a job's copy equal to the initial map
   * with the walk taken out.
   */
  lemma PruneTrimmed(init: IoMap, visited: set<Point>, pos: Point, c: Point)
    requires pos in visited && Start in visited && c !in visited
    ensures Prune(Trimmed(init, visited, pos), pos, c) == Trimmed(init, visited + {c}, c)
  {
    var a, b := Prune(Trimmed(init, visited, pos), pos, c), Trimmed(init, visited + {c}, c);
    forall k | k in a ensures a[k] == b[k] {
      assert a[k].0 == init[k].0 - (visited - {pos}) - {pos};
      assert a[k].0 == b[k].0;
      assert a[k].1 == init[k].1 - (visited - {Start}) - {c};
      assert a[k].1 == b[k].1;
    }
    assert a == b;
  }

  ghost function Positions(jobs: seq<Job>): set<Point>
  {
    set j | j in jobs :: j.pos
  }

  /** The search-tree size of the pending jobs. */
  ghost function SumNodes(init: IoMap, goal: Point, jobs: seq<Job>): nat
    decreases |jobs|
  {
    if jobs == [] then 0
    else
      var j := jobs[|jobs| - 1];
      SumNodes(init, goal, jobs[..|jobs| - 1]) + Nodes(init, goal, j.pos, j.visited)
  }

  lemma SumNodesSnoc(init: IoMap, goal: Point, jobs: seq<Job>, j: Job)
    ensures SumNodes(init, goal, jobs + [j]) == SumNodes(init, goal, jobs) + Nodes(init, goal, j.pos, j.visited)
  {
    assert (jobs + [j])[..|jobs|] == jobs;
  }

  lemma {:induction false} SumNodesAppend(init: IoMap, goal: Point, a: seq<Job>, b: seq<Job>)
    ensures SumNodes(init, goal, a + b) == SumNodes(init, goal, a) + SumNodes(init, goal, b)
    decreases |b|
  {
    if b == [] {
      assert a + b == a;
    } else {
      var b' := b[..|b| - 1];
      SumNodesAppend(init, goal, a, b');
      assert a + b == (a + b') + [b[|b| - 1]];
      SumNodesSnoc(init, goal, a + b', b[|b| - 1]);
    }
  }

  // ---------------------------------------------------------------------------------------
  // Ratings and the sort

  /** `rating_by_pt[v] += d` for every visited tile `v`. */
  function Bump(rating: map<Point, int>, vs: set<Point>, d: int): (r: map<Point, int>)
    requires vs <= rating.Keys
    ensures r.Keys == rating.Keys
  {
    map k | k in rating :: if k in vs then rating[k] + d else rating[k]
  }

  /** The sort key of a job: the rating of its tile (every job is looked up before the sort). */
  function Key(rating: map<Point, int>, j: Job): int
  {
    if j.pos in rating then rating[j.pos] else 0
  }

  /** Insert `x` after every job of `t` whose key is not greater, as a stable sort does. */
  function Insert(rating: map<Point, int>, t: seq<Job>, x: Job): seq<Job>
    decreases |t|
  {
    if t == [] || Key(rating, t[|t| - 1]) <= Key(rating, x) then t + [x]
    else Insert(rating, t[..|t| - 1], x) + [t[|t| - 1]]
  }

  /** `jobs.sort(key=lambda job: rating_by_pt[job[0]])`: a stable insertion sort by rating. */
  function SortJobs(rating: map<Point, int>, s: seq<Job>): seq<Job>
    decreases |s|
  {
    if s == [] then [] else Insert(rating, SortJobs(rating, s[..|s| - 1]), s[|s| - 1])
  }

  predicate SortedBy(rating: map<Point, int>, s: seq<Job>)
  {
    forall i, j :: 0 <= i < j < |s| ==> Key(rating, s[i]) <= Key(rating, s[j])
  }

  lemma {:induction false} InsertPerm(rating: map<Point, int>, t: seq<Job>, x: Job)
    ensures multiset(Insert(rating, t, x)) == multiset(t) + multiset{x}
    decreases |t|
  {
    if !(t == [] || Key(rating, t[|t| - 1]) <= Key(rating, x)) {
      var u := t[..|t| - 1];
      InsertPerm(rating, u, x);
      assert t == u + [t[|t| - 1]];
    }
  }

  lemma {:induction false} InsertSum(init: IoMap, goal: Point, rating: map<Point, int>, t: seq<Job>, x: Job)
    ensures SumNodes(init, goal, Insert(rating, t, x)) == SumNodes(init, goal, t) + Nodes(init, goal, x.pos, x.visited)
    decreases |t|
  {
    if t == [] || Key(rating, t[|t| - 1]) <= Key(rating, x) {
      SumNodesSnoc(init, goal, t, x);
    } else {
      var u := t[..|t| - 1];
      InsertSum(init, goal, rating, u, x);
      SumNodesSnoc(init, goal, Insert(rating, u, x), t[|t| - 1]);
    }
  }

  lemma {:induction false} InsertSorted(rating: map<Point, int>, t: seq<Job>, x: Job)
    requires SortedBy(rating, t)
    ensures SortedBy(rating, Insert(rating, t, x))
    decreases |t|
  {
    if !(t == [] || Key(rating, t[|t| - 1]) <= Key(rating, x)) {
      var u, l := t[..|t| - 1], t[|t| - 1];
      InsertSorted(rating, u, x);
      InsertPerm(rating, u, x);
      var v := Insert(rating, u, x);
      forall i | 0 <= i < |v| ensures Key(rating, v[i]) <= Key(rating, l) {
        assert v[i] in multiset(v);
        if v[i] != x {
          assert v[i] in multiset(u);
          var k :| 0 <= k < |u| && u[k] == v[i];
          assert t[k] == u[k];
        }
      }
    }
  }

  /**
   * The sort only reorders the jobs: the same jobs as often as before, in the order of their
   * ratings, and the same search-tree size.
   */
  lemma {:induction false} SortFacts(init: IoMap, goal: Point, rating: map<Point, int>, s: seq<Job>)
    ensures multiset(SortJobs(rating, s)) == multiset(s)
    ensures SortedBy(rating, SortJobs(rating, s))
    ensures SumNodes(init, goal, SortJobs(rating, s)) == SumNodes(init, goal, s)
    decreases |s|
  {
    if s != [] {
      var u := s[..|s| - 1];
      SortFacts(init, goal, rating, u);
      InsertPerm(rating, SortJobs(rating, u), s[|s| - 1]);
      InsertSorted(rating, SortJobs(rating, u), s[|s| - 1]);
      InsertSum(init, goal, rating, SortJobs(rating, u), s[|s| - 1]);
      assert s == u + [s[|s| - 1]];
    }
  }

  // ---------------------------------------------------------------------------------------
  // The worklist

  /** A walk the search still has to account for: it fails, or it reaches the goal in more than `best` steps. */
  predicate Pending(init: IoMap, goal: Point, keys: set<Point>, best: int, t: seq<Point>)
    requires t != []
  {
    Failing(init, goal, keys, t) || (Last(t) == goal && |t| - 1 > best)
  }

  /** Every walk still to be accounted for continues the walk of some pending job. */
  ghost predicate Covered(init: IoMap, goal: Point, keys: set<Point>, jobs: seq<Job>, best: int)
  {
    forall t :: Trail(init, goal, t) && Pending(init, goal, keys, best, t) ==>
      exists j :: j in jobs && j.trail <= t
  }

  /** `max_path_length` is 0 or the length of a walk to the goal. */
  ghost predicate Found(init: IoMap, goal: Point, best: int)
  {
    best == 0 || exists t :: Trail(init, goal, t) && Last(t) == goal && |t| - 1 == best
  }

  ghost predicate SomeFailing(init: IoMap, goal: Point, keys: set<Point>)
  {
    exists t :: Trail(init, goal, t) && Failing(init, goal, keys, t)
  }

  /** Replacing the popped `job` by `kids` keeps every pending walk covered. */
  lemma Recover(init: IoMap, goal: Point, keys: set<Point>, rest: seq<Job>, job: Job, kids: seq<Job>,
                best: int, best': int)
    requires best <= best' && Covered(init, goal, keys, rest + [job], best)
    requires forall t :: Trail(init, goal, t) && job.trail <= t && Pending(init, goal, keys, best', t) ==>
               exists k :: k in kids && k.trail <= t
    ensures Covered(init, goal, keys, rest + kids, best')
  {
    forall t | Trail(init, goal, t) && Pending(init, goal, keys, best', t)
      ensures exists j :: j in rest + kids && j.trail <= t
    {
      assert Pending(init, goal, keys, best, t);
      var j :| j in rest + [job] && j.trail <= t;
      if j in rest {
        assert j in rest + kids;
      } else {
        var k :| k in kids && k.trail <= t;
        assert k in rest + kids;
      }
    }
  }

  /** A job at the goal whose tiles all have a rating leaves nothing pending beyond `best'`. */
  lemma GoalSettles(init: IoMap, goal: Point, keys: set<Point>, job: Job, best': int)
    requires JobOk(init, goal, job) && job.pos == goal && job.visited <= keys && |job.visited| - 1 <= best'
    ensures forall t :: Trail(init, goal, t) && job.trail <= t ==> !Pending(init, goal, keys, best', t)
  {
    DistinctSize(job.trail);
    forall t | Trail(init, goal, t) && job.trail <= t ensures !Pending(init, goal, keys, best', t) {
      GoalEnds(init, goal, job.trail, t);
      assert Last(t) in job.visited;
    }
  }

  /** A job with no unvisited exit leaves nothing pending. */
  lemma DeadEnd(init: IoMap, goal: Point, keys: set<Point>, job: Job, best: int)
    requires JobOk(init, goal, job) && job.pos != goal && job.pos in init && init.Keys <= keys
    requires init[job.pos].1 - job.visited == {}
    ensures forall t :: Trail(init, goal, t) && job.trail <= t ==> !Pending(init, goal, keys, best, t)
  {
    forall t | Trail(init, goal, t) && job.trail <= t ensures !Pending(init, goal, keys, best, t) {
      Continues(init, goal, job.trail, t);
    }
  }

  /** Every pending walk through `job` continues through one of its children. */
  lemma Branches(init: IoMap, goal: Point, keys: set<Point>, job: Job, kids: seq<Job>, best: int)
    requires JobOk(init, goal, job) && job.pos != goal && job.pos in init && init.Keys <= keys
    requires init[job.pos].1 - job.visited <= Positions(kids)
    requires forall k :: k in kids ==> k.trail == job.trail + [k.pos]
    ensures forall t :: Trail(init, goal, t) && job.trail <= t && Pending(init, goal, keys, best, t) ==>
              exists k :: k in kids && k.trail <= t
  {
    forall t | Trail(init, goal, t) && job.trail <= t && Pending(init, goal, keys, best, t)
      ensures exists k :: k in kids && k.trail <= t
    {
      if |job.trail| < |t| {
        NextStep(init, goal, job.trail, t);
        var c := t[|job.trail|];
        assert c in Positions(kids);
        var k :| k in kids && k.pos == c;
        assert k.trail <= t;
      }
    }
  }

  /** The tiles a job has visited all have a rating, once its own tile is a key of `io_by_pt`. */
  lemma VisitedRated(init: IoMap, goal: Point, keys: set<Point>, job: Job)
    requires JobOk(init, goal, job) && job.pos in init && init.Keys <= keys
    ensures job.visited <= keys
  {
    TrailInit(init, goal, job.trail);
  }

  /** A visited tile without a rating can only be the job's own tile, so its walk fails. */
  lemma UnratedFails(init: IoMap, goal: Point, keys: set<Point>, job: Job, v: Point)
    requires JobOk(init, goal, job) && init.Keys <= keys && v in job.visited && v !in keys
    ensures SomeFailing(init, goal, keys)
  {
    TrailInit(init, goal, job.trail);
    assert Failing(init, goal, keys, job.trail);
  }

  /** Reaching the goal by a walk of `|visited| - 1` steps keeps `Found`. */
  lemma FoundGoal(init: IoMap, goal: Point, job: Job, best: nat)
    requires JobOk(init, goal, job) && job.pos == goal && Found(init, goal, best)
    ensures Found(init, goal, if best < |job.visited| - 1 then |job.visited| - 1 else best)
  {
    DistinctSize(job.trail);
  }

  /**
   * The `for out_pt in cur_out` loop: one child job per unvisited exit, in whatever order the
   * set yields them.
   */
  method Expand(job: Job, out: set<Point>, ghost init: IoMap, ghost goal: Point) returns (kids: seq<Job>)
    requires JobOk(init, goal, job) && job.pos != goal && job.pos in init
    requires out == init[job.pos].1 - job.visited
    ensures AllOk(init, goal, kids) && Positions(kids) == out
    ensures forall k :: k in kids ==> k.trail == job.trail + [k.pos]
    ensures SumNodes(init, goal, kids) + 1 == Nodes(init, goal, job.pos, job.visited)
  {
    kids := [];
    var todo := out;
    KidsInUniverse(init, goal, job.pos, job.visited);
    while todo != {}
      invariant todo <= out && Expanding(init, goal, job, out, todo, kids)
      decreases |todo|
    {
      var c :| c in todo;
      ExpandStep(init, goal, job, out, todo, kids, c);
      kids := kids + [Child(job, c)];
      todo := todo - {c};
    }
  }

  /** The invariant of `Expand`: `kids` holds one good child for each exit already taken from `todo`. */
  ghost predicate Expanding(init: IoMap, goal: Point, job: Job, out: set<Point>, todo: set<Point>, kids: seq<Job>)
    requires out <= Universe(init) - job.visited && todo <= out
  {
    AllOk(init, goal, kids) && Positions(kids) == out - todo &&
    (forall k :: k in kids ==> k.trail == job.trail + [k.pos]) &&
    SumNodes(init, goal, kids) + KidsNodes(init, goal, job.visited, todo) ==
      KidsNodes(init, goal, job.visited, out)
  }

  lemma ExpandStep(init: IoMap, goal: Point, job: Job, out: set<Point>, todo: set<Point>, kids: seq<Job>, c: Point)
    requires JobOk(init, goal, job) && job.pos != goal && job.pos in init
    requires out == init[job.pos].1 - job.visited && out <= Universe(init) - job.visited
    requires c in todo && todo <= out && Expanding(init, goal, job, out, todo, kids)
    ensures Expanding(init, goal, job, out, todo - {c}, kids + [Child(job, c)])
  {
    var kid := Child(job, c);
    ChildOk(init, goal, job, c);
    SnocOk(init, goal, job, kids, kid);
    assert KidsNodes(init, goal, job.visited, todo) ==
           Nodes(init, goal, c, kid.visited) + KidsNodes(init, goal, job.visited, todo - {c}) by {
      KidsNodesRemove(init, goal, job.visited, todo, c);
    }
    SumNodesSnoc(init, goal, kids, kid);
  }

  lemma SnocOk(init: IoMap, goal: Point, job: Job, kids: seq<Job>, kid: Job)
    requires AllOk(init, goal, kids) && JobOk(init, goal, kid) && kid.trail == job.trail + [kid.pos]
    requires forall k :: k in kids ==> k.trail == job.trail + [k.pos]
    ensures AllOk(init, goal, kids + [kid]) && Positions(kids + [kid]) == Positions(kids) + {kid.pos}
    ensures forall k :: k in kids + [kid] ==> k.trail == job.trail + [k.pos]
  {
  }

  /**
   * One turn of the `while jobs` loop: pop the last job, handle it with `Visit`, and sort the
   * jobs by the rating of their tiles with `Rank`.
   */
  method Round(init: IoMap, goal: Point, rating: map<Point, int>, jobs: seq<Job>, best: nat)
    returns (r: Result<(seq<Job>, map<Point, int>, nat), WalkError>)
    requires jobs != [] && init.Keys <= rating.Keys
    requires AllOk(init, goal, jobs) && Covered(init, goal, rating.Keys, jobs, best) && Found(init, goal, best)
    ensures r.Err? ==> r.error.MissingKey? && SomeFailing(init, goal, rating.Keys)
    ensures r.Ok? ==> r.value.1.Keys == rating.Keys && AllOk(init, goal, r.value.0)
    ensures r.Ok? ==> Covered(init, goal, rating.Keys, r.value.0, r.value.2) && Found(init, goal, r.value.2)
    ensures r.Ok? ==> SumNodes(init, goal, r.value.0) < SumNodes(init, goal, jobs)
  {
    var job := jobs[|jobs| - 1];
    var rest := jobs[..|jobs| - 1];
    assert jobs == rest + [job];
    assert job in jobs;
    var v := Visit(init, goal, rating, rest, job, best);
    if v.Err? {
      return Err(v.error);
    }
    var (kids, rating', best') := v.value;
    SumNodesSnoc(init, goal, rest, job);
    SumNodesAppend(init, goal, rest, kids);
    r := Rank(init, goal, rating.Keys, rating', rest + kids, best');
  }

  /**
   * The body of the loop for one popped `job`: the jobs it pushes, the new ratings and the new
   * `max_path_length`. The pushed jobs stand in for `job` in covering the pending walks.
   */
  method Visit(init: IoMap, goal: Point, rating: map<Point, int>, rest: seq<Job>, job: Job, best: nat)
    returns (r: Result<(seq<Job>, map<Point, int>, nat), WalkError>)
    requires init.Keys <= rating.Keys && JobOk(init, goal, job)
    requires Covered(init, goal, rating.Keys, rest + [job], best) && Found(init, goal, best)
    ensures r.Err? ==> r.error.MissingKey? && SomeFailing(init, goal, rating.Keys)
    ensures r.Ok? ==> r.value.1.Keys == rating.Keys && AllOk(init, goal, r.value.0)
    ensures r.Ok? ==> Covered(init, goal, rating.Keys, rest + r.value.0, r.value.2) && Found(init, goal, r.value.2)
    ensures r.Ok? ==> SumNodes(init, goal, r.value.0) < Nodes(init, goal, job.pos, job.visited)
  {
    if job.pos == goal {
      if !(job.visited <= rating.Keys) {
        var v :| v in job.visited && v !in rating;
        UnratedFails(init, goal, rating.Keys, job, v);
        return Err(MissingKey(v));
      }
      var best' := if best < |job.visited| - 1 then |job.visited| - 1 else best;
      FoundGoal(init, goal, job, best);
      GoalSettles(init, goal, rating.Keys, job, best');
      Recover(init, goal, rating.Keys, rest, job, [], best, best');
      return Ok(([], Bump(rating, job.visited, 1), best'));
    }
    if job.pos !in job.io {
      assert Failing(init, goal, rating.Keys, job.trail);
      return Err(MissingKey(job.pos));
    }
    JobExits(init, goal, job);
    var out := job.io[job.pos].1 - job.visited;
    if out == {} {
      VisitedRated(init, goal, rating.Keys, job);
      DeadEnd(init, goal, rating.Keys, job, best);
      Recover(init, goal, rating.Keys, rest, job, [], best, best);
      return Ok(([], Bump(rating, job.visited, -1), best));
    }
    var kids := Expand(job, out, init, goal);
    Branches(init, goal, rating.Keys, job, kids, best);
    Recover(init, goal, rating.Keys, rest, job, kids, best, best);
    return Ok((kids, rating, best));
  }

  /**
   * `jobs.sort(key=lambda job: rating_by_pt[job[0]])`: fails when some job's tile has no rating,
   * and otherwise reorders the jobs, which keeps every invariant.
   */
  method Rank(init: IoMap, goal: Point, keys: set<Point>, rating: map<Point, int>, jobs: seq<Job>, best: nat)
    returns (r: Result<(seq<Job>, map<Point, int>, nat), WalkError>)
    requires rating.Keys == keys && AllOk(init, goal, jobs) && Covered(init, goal, keys, jobs, best)
    ensures r.Err? ==> r.error.MissingKey? && SomeFailing(init, goal, keys)
    ensures r.Ok? ==> r.value.1 == rating && r.value.2 == best && AllOk(init, goal, r.value.0)
    ensures r.Ok? ==> Covered(init, goal, keys, r.value.0, best)
    ensures r.Ok? ==> SortedBy(rating, r.value.0) && multiset(r.value.0) == multiset(jobs)
    ensures r.Ok? ==> SumNodes(init, goal, r.value.0) == SumNodes(init, goal, jobs)
  {
    if i :| 0 <= i < |jobs| && jobs[i].pos !in rating {
      assert jobs[i] in jobs;
      assert Failing(init, goal, keys, jobs[i].trail);
      return Err(MissingKey(jobs[i].pos));
    }
    var sorted := SortJobs(rating, jobs);
    SortFacts(init, goal, rating, jobs);
    Reordered(init, goal, keys, jobs, sorted, best);
    return Ok((sorted, rating, best));
  }

  /** The pending jobs may be taken in any order: a reordering keeps every invariant. */
  lemma Reordered(init: IoMap, goal: Point, keys: set<Point>, a: seq<Job>, b: seq<Job>, best: int)
    requires multiset(a) == multiset(b)
    requires AllOk(init, goal, a) && Covered(init, goal, keys, a, best)
    ensures AllOk(init, goal, b) && Covered(init, goal, keys, b, best)
  {
    forall j | j in b ensures j in a {
      assert j in multiset(b);
    }
    forall j | j in a ensures j in b {
      assert j in multiset(a);
    }
  }

  /**
   * The worklist of `find_longest_path` over `init_io_by_pt`, from the start, with the ratings
   * `rating0`. Whatever order the jobs are taken in, it fails exactly when some walk fails, and
   * otherwise returns the length of the longest walk to the goal (0 when there is none).
   */
  method Search(init: IoMap, goal: Point, rating0: map<Point, int>) returns (r: Result<nat, WalkError>)
    requires init.Keys <= rating0.Keys
    ensures Answers(init, goal, rating0.Keys, r)
  {
    var jobs := [Job(Start, {Start}, init, [Start])];
    var rating := rating0;
    var best: nat := 0;
    FirstJob(init, goal);
    forall t | Trail(init, goal, t) && Pending(init, goal, rating0.Keys, best, t)
      ensures exists j :: j in jobs && j.trail <= t
    {
      assert jobs[0].trail <= t;
    }
    while jobs != []
      invariant rating.Keys == rating0.Keys
      invariant AllOk(init, goal, jobs) && Covered(init, goal, rating0.Keys, jobs, best) && Found(init, goal, best)
      decreases SumNodes(init, goal, jobs)
    {
      var res := Round(init, goal, rating, jobs, best);
      if res.Err? {
        return Err(res.error);
      }
      jobs, rating, best := res.value.0, res.value.1, res.value.2;
    }
    return Ok(best);
  }

  /**
   * `find_longest_path`: the number of steps of the longest walk from the start to `end` that
   * never visits a tile twice, or 0 when no walk gets there.
   */
  method FindLongestPath(grid: Grid) returns (r: Result<nat, WalkError>)
    ensures |grid| == 0 ==> r == Err(IndexError)
    ensures |grid| > 0 && GridIo(grid, 0).Err? ==> r == Err(GridIo(grid, 0).error)
    ensures |grid| > 0 && GridIo(grid, 0).Ok? ==> Answers(GridIo(grid, 0).value, Goal(grid), Box(grid), r)
  {
    if |grid| == 0 {
      return Err(IndexError);
    }
    var goal := Goal(grid);
    var init := GridIo(grid, 0);
    if init.Err? {
      return Err(init.error);
    }
    var rating := map p | p in Box(grid) :: 0;
    GridIoSpec(grid, 0);
    r := Search(init.value, goal, rating);
  }
}
