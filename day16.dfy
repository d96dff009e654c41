/**
 * The floor will be lava (day16): a beam enters the contraption, turns at mirrors, splits at
 * splitters and energizes every tile it passes; the beam states are explored as a worklist
 * with a set of those already queued.
 */
module Contraption {
  import opened Wrappers
  import Text

  const Energized := '#'
  const Dark := '.'

  /** A direction or an offset (x, y); y grows downwards. */
  type Vec = (int, int)

  /** A beam: where it is and where it is heading. */
  type Beam = (Vec, Vec)

  /** The directions a beam leaves a tile by: a mirror or splitter turns it, any other tile passes it on. */
  function Turn(cell: char, v: Vec): (r: seq<Vec>)
    ensures 1 <= |r| <= 2
  {
    var (x, y) := v;
    if cell == '|' then (if x != 0 then [(0, -1), (0, 1)] else [v])
    else if cell == '-' then (if y != 0 then [(-1, 0), (1, 0)] else [v])
    else if cell == '\\' then [(y, x)]
    else if cell == '/' then [(-y, -x)]
    else [v]
  }

  /** The four unit directions. */
  predicate Cardinal(v: Vec)
  {
    v == (0, 1) || v == (0, -1) || v == (-1, 0) || v == (1, 0)
  }

  /**
   * Mirrors turn a unit beam a quarter turn and undo themselves; `\` swaps right with down and
   * `/` swaps right with up.
   */
  lemma MirrorSpec(v: Vec)
    ensures Turn('\\', v) == [(v.1, v.0)] && Turn('/', v) == [(-v.1, -v.0)]
    ensures Turn('\\', Turn('\\', v)[0]) == [v] && Turn('/', Turn('/', v)[0]) == [v]
    ensures Cardinal(v) ==> Cardinal(Turn('\\', v)[0]) && Cardinal(Turn('/', v)[0])
    ensures Cardinal(v) ==> Turn('\\', v)[0] != v && Turn('\\', v)[0] != (-v.0, -v.1)
    ensures Cardinal(v) ==> Turn('/', v)[0] != v && Turn('/', v)[0] != (-v.0, -v.1)
    ensures Turn('\\', (1, 0)) == [(0, 1)] && Turn('/', (1, 0)) == [(0, -1)]
  {
  }

  /**
   * A splitter met flat side on sends the beam both ways along its length; met end on, it lets
   * the beam pass. Tiles without a mirror or splitter always let it pass.
   */
  lemma SplitterSpec(v: Vec, cell: char)
    requires Cardinal(v)
    ensures Turn('|', v) == if v.0 != 0 then [(0, -1), (0, 1)] else [v]
    ensures Turn('-', v) == if v.1 != 0 then [(-1, 0), (1, 0)] else [v]
    ensures cell !in "|-\\/" ==> Turn(cell, v) == [v]
    ensures forall w :: w in Turn('|', v) + Turn('-', v) ==> Cardinal(w)
  {
  }

  /** Inside the grid, with the width taken from the first row. */
  predicate Inside(grid: seq<string>, loc: Vec)
  {
    0 <= loc.1 < |grid| && 0 <= loc.0 < |grid[0]|
  }

  function Add(a: Vec, b: Vec): Vec { (a.0 + b.0, a.1 + b.1) }

  /** The beams leaving `loc` in the directions `out`, each one tile further on. */
  function Successors(loc: Vec, out: seq<Vec>): (r: seq<Beam>)
    ensures |r| == |out| && forall k :: 0 <= k < |out| ==> r[k] == (Add(loc, out[k]), out[k])
  {
    seq(|out|, k requires 0 <= k < |out| => (Add(loc, out[k]), out[k]))
  }

  /** The beams a beam gives next: none once it has left the grid, else one per leaving direction. */
  function Next(grid: seq<string>, b: Beam): seq<Beam>
  {
    if !Inside(grid, b.0) || b.0.0 >= |grid[b.0.1]| then [] else Successors(b.0, Turn(grid[b.0.1][b.0.0], b.1))
  }

  /** Each beam of `path` is one of the beams its predecessor gives. */
  ghost predicate Path(grid: seq<string>, path: seq<Beam>)
  {
    forall i :: 0 <= i < |path| - 1 ==> path[i + 1] in Next(grid, path[i])
  }

  /** The beam `b` comes out of the beam `start` in some number of steps. */
  ghost predicate Reachable(grid: seq<string>, start: Beam, b: Beam)
  {
    exists path :: |path| >= 1 && path[0] == start && path[|path| - 1] == b && Path(grid, path)
  }

  /** Tile (x, y) holds a beam that comes out of `start`. */
  ghost predicate Lit(grid: seq<string>, start: Beam, x: int, y: int)
  {
    exists b :: Reachable(grid, start, b) && b.0 == (x, y) && Inside(grid, b.0)
  }

  lemma ReachStart(grid: seq<string>, start: Beam)
    ensures Reachable(grid, start, start)
  {
    assert Path(grid, [start]);
  }

  lemma ReachNext(grid: seq<string>, start: Beam, b: Beam, c: Beam)
    requires Reachable(grid, start, b) && c in Next(grid, b)
    ensures Reachable(grid, start, c)
  {
    var path :| |path| >= 1 && path[0] == start && path[|path| - 1] == b && Path(grid, path);
    var longer := path + [c];
    forall i | 0 <= i < |longer| - 1 ensures longer[i + 1] in Next(grid, longer[i]) {
      if i < |path| - 1 {
        assert longer[i] == path[i] && longer[i + 1] == path[i + 1];
      }
    }
    assert Path(grid, longer);
  }

  /** Every beam of every path out of a set closed under `Next` stays in the set. */
  lemma {:induction false} ClosedPath(grid: seq<string>, done: set<Beam>, path: seq<Beam>, i: nat)
    requires forall b, c :: b in done && c in Next(grid, b) ==> c in done
    requires |path| >= 1 && path[0] in done && Path(grid, path) && i < |path|
    ensures path[i] in done
  {
    if i > 0 {
      ClosedPath(grid, done, path, i - 1);
    }
  }

  /** The largest size of a coordinate a beam's direction can have: the starting direction's, or 1. */
  function Reach(v: Vec): (k: nat)
    ensures k >= 1
  {
    var a := if v.0 < 0 then -v.0 else v.0;
    var b := if v.1 < 0 then -v.1 else v.1;
    if a <= 1 && b <= 1 then 1 else if a <= b then b else a
  }

  predicate Within(v: Vec, k: int)
  {
    -k <= v.0 <= k && -k <= v.1 <= k
  }

  lemma WithinReach(v: Vec)
    ensures Within(v, Reach(v))
  {
  }

  lemma TurnWithin(cell: char, v: Vec, k: int)
    requires k >= 1 && Within(v, k)
    ensures forall w :: w in Turn(cell, v) ==> Within(w, k)
  {
  }

  function Width(grid: seq<string>): nat
  {
    if grid == [] then 0 else |grid[0]|
  }

  /** A beam `trace_light` can queue: the first one, or one within k of the grid heading at most k. */
  predicate InBox(grid: seq<string>, start: Beam, k: int, b: Beam)
  {
    b == start || (-k <= b.0.0 < Width(grid) + k && -k <= b.0.1 < |grid| + k && Within(b.1, k))
  }

  /** All the beams `InBox` allows, as a finite set. */
  function Box(grid: seq<string>, start: Beam, k: int): set<Beam>
  {
    {start} + set x: int, y: int, a: int, b: int |
      -k <= x < Width(grid) + k && -k <= y < |grid| + k && -k <= a <= k && -k <= b <= k :: ((x, y), (a, b))
  }

  lemma SubsetSize<T>(a: set<T>, b: set<T>)
    requires a <= b
    ensures |a| <= |b|
  {
    assert b == a + (b - a);
  }

  /** However many beams were queued, there are no more than the box holds. */
  lemma BoxHolds(grid: seq<string>, start: Beam, k: nat, seen: set<Beam>)
    requires forall b :: b in seen ==> InBox(grid, start, k, b)
    ensures |seen| <= |Box(grid, start, k)|
  {
    var box := Box(grid, start, k);
    forall b | b in seen ensures b in box {
      if b != start {
        var ((x, y), (a, c)) := b;
        assert b == ((x, y), (a, c));
      }
    }
    SubsetSize(seen, box);
  }

  /** The beams after a beam in the box head at most as far, and stay in the box. */
  lemma NextInBox(grid: seq<string>, start: Beam, b: Beam)
    requires Within(b.1, Reach(start.1))
    ensures forall c :: c in Next(grid, b) ==> InBox(grid, start, Reach(start.1), c) && Within(c.1, Reach(start.1))
  {
    if Inside(grid, b.0) && b.0.0 < |grid[b.0.1]| {
      TurnWithin(grid[b.0.1][b.0.0], b.1, Reach(start.1));
    }
  }

  /** The beams of a sequence, as a set. */
  function Members(lights: seq<Beam>): set<Beam>
  {
    if lights == [] then {} else Members(lights[..|lights| - 1]) + {lights[|lights| - 1]}
  }

  lemma MembersSnoc(lights: seq<Beam>, c: Beam)
    ensures Members(lights + [c]) == Members(lights) + {c}
  {
    assert (lights + [c])[..|lights|] == lights;
  }

  lemma {:induction false} MembersIn(lights: seq<Beam>)
    ensures forall c :: c in Members(lights) <==> c in lights
  {
    if lights != [] {
      var init := lights[..|lights| - 1];
      MembersIn(init);
      assert lights == init + [lights[|lights| - 1]];
    }
  }

  /** The tiles that hold a processed beam inside the grid. */
  function LitCells(grid: seq<string>, done: set<Beam>): set<Vec>
  {
    set b | b in done && Inside(grid, b.0) :: b.0
  }

  lemma LitCellsAdd(grid: seq<string>, done: set<Beam>, cur: Beam)
    ensures LitCells(grid, done + {cur}) == LitCells(grid, done) + if Inside(grid, cur.0) then {cur.0} else {}
  {
  }

  /** The result grid: the grid's shape, `#` exactly on the tiles in `cells`, `.` elsewhere. */
  ghost predicate Marked(grid: seq<string>, result: seq<string>, cells: set<Vec>)
  {
    && |result| == |grid|
    && (forall y :: 0 <= y < |grid| ==> |result[y]| == |grid[y]|)
    && forall x, y :: 0 <= y < |grid| && 0 <= x < |grid[y]| ==>
         result[y][x] == if (x, y) in cells then Energized else Dark
  }

  lemma MarkStep(grid: seq<string>, result: seq<string>, cells: set<Vec>, x: nat, y: nat)
    requires Marked(grid, result, cells) && y < |grid| && x < |grid[y]|
    ensures Marked(grid, result[y := result[y][x := Energized]], cells + {(x, y)})
  {
  }

  /** The worklist as it stands: what was queued is what was processed plus what waits. */
  ghost predicate Traced(grid: seq<string>, start: Beam, result: seq<string>, lights: seq<Beam>, seen: set<Beam>, done: set<Beam>)
  {
    && start in seen
    && seen == done + Members(lights)
    && (forall b, c :: b in done && c in Next(grid, b) ==> c in seen)
    && (forall b :: b in seen ==> Reachable(grid, start, b) && Within(b.1, Reach(start.1)) && InBox(grid, start, Reach(start.1), b))
    && Marked(grid, result, LitCells(grid, done))
  }

  lemma TraceStart(grid: seq<string>, start: Beam, result: seq<string>)
    requires result == seq(|grid|, y requires 0 <= y < |grid| => seq(|grid[y]|, _ => Dark))
    ensures Traced(grid, start, result, [start], {start}, {})
  {
    ReachStart(grid, start);
    WithinReach(start.1);
    MembersSnoc([], start);
    assert [] + [start] == [start];
  }

  /** A beam that has left the grid is dropped and marks nothing. */
  lemma TraceOutside(grid: seq<string>, start: Beam, result: seq<string>, lights: seq<Beam>, seen: set<Beam>, done: set<Beam>, cur: Beam)
    requires Traced(grid, start, result, lights + [cur], seen, done) && !Inside(grid, cur.0)
    ensures Traced(grid, start, result, lights, seen, done + {cur})
  {
    MembersSnoc(lights, cur);
    LitCellsAdd(grid, done, cur);
  }

  /** The beams after a reachable beam in the box are reachable and in the box. */
  lemma ReachAll(grid: seq<string>, start: Beam, cur: Beam)
    requires Reachable(grid, start, cur) && Within(cur.1, Reach(start.1))
    ensures forall c :: c in Next(grid, cur) ==>
      Reachable(grid, start, c) && Within(c.1, Reach(start.1)) && InBox(grid, start, Reach(start.1), c)
  {
    NextInBox(grid, start, cur);
    forall c | c in Next(grid, cur) ensures Reachable(grid, start, c) {
      ReachNext(grid, start, cur, c);
    }
  }

  lemma QueueSets(seen: set<Beam>, done: set<Beam>, queued: set<Beam>, cur: Beam, nexts: set<Beam>, seen2: set<Beam>, queued2: set<Beam>)
    requires seen == done + queued + {cur} && seen2 == seen + nexts && queued2 == queued + (nexts - seen)
    ensures seen2 == (done + {cur}) + queued2
  {
  }

  /** Marking the tile of a beam inside the grid and queuing the beams after it. */
  lemma TraceVisit(grid: seq<string>, start: Beam, result: seq<string>, lights: seq<Beam>, seen: set<Beam>, done: set<Beam>,
                   cur: Beam, lights2: seq<Beam>, seen2: set<Beam>)
    requires Traced(grid, start, result, lights + [cur], seen, done)
    requires Inside(grid, cur.0) && cur.0.0 < |grid[cur.0.1]|
    requires seen2 == seen + Members(Next(grid, cur))
    requires Members(lights2) == Members(lights) + (Members(Next(grid, cur)) - seen)
    ensures Traced(grid, start, result[cur.0.1 := result[cur.0.1][cur.0.0 := Energized]], lights2, seen2, done + {cur})
  {
    MembersSnoc(lights, cur);
    QueueSets(seen, done, Members(lights), cur, Members(Next(grid, cur)), seen2, Members(lights2));
    MembersIn(Next(grid, cur));
    VisitClosed(grid, done, cur, seen, seen2);
    VisitReach(grid, start, cur, seen, seen2);
    LitCellsAdd(grid, done, cur);
    MarkStep(grid, result, LitCells(grid, done), cur.0.0, cur.0.1);
  }

  lemma VisitClosed(grid: seq<string>, done: set<Beam>, cur: Beam, seen: set<Beam>, seen2: set<Beam>)
    requires forall b, c :: b in done && c in Next(grid, b) ==> c in seen
    requires seen <= seen2 && forall c :: c in Next(grid, cur) ==> c in seen2
    ensures forall b, c :: b in done + {cur} && c in Next(grid, b) ==> c in seen2
  {
  }

  lemma VisitReach(grid: seq<string>, start: Beam, cur: Beam, seen: set<Beam>, seen2: set<Beam>)
    requires forall b :: b in seen ==> Reachable(grid, start, b) && Within(b.1, Reach(start.1)) && InBox(grid, start, Reach(start.1), b)
    requires cur in seen && forall c :: c in seen2 ==> c in seen || c in Next(grid, cur)
    ensures forall b :: b in seen2 ==> Reachable(grid, start, b) && Within(b.1, Reach(start.1)) && InBox(grid, start, Reach(start.1), b)
  {
    ReachAll(grid, start, cur);
  }

  /** With nothing left to process, the marked tiles are exactly the lit ones. */
  lemma TraceEnd(grid: seq<string>, start: Beam, result: seq<string>, done: set<Beam>)
    requires Traced(grid, start, result, [], done, done)
    ensures forall x, y :: 0 <= y < |grid| && 0 <= x < |grid[y]| ==>
      (result[y][x] == Energized <==> Lit(grid, start, x, y)) && (result[y][x] == Energized || result[y][x] == Dark)
  {
    forall x, y | 0 <= y < |grid| && 0 <= x < |grid[y]|
      ensures (x, y) in LitCells(grid, done) <==> Lit(grid, start, x, y)
    {
      if Lit(grid, start, x, y) {
        var b :| Reachable(grid, start, b) && b.0 == (x, y) && Inside(grid, b.0);
        var path :| |path| >= 1 && path[0] == start && path[|path| - 1] == b && Path(grid, path);
        ClosedPath(grid, done, path, |path| - 1);
      }
    }
  }

  lemma MembersTake(s: seq<Beam>, i: nat)
    requires i < |s|
    ensures Members(s[..i + 1]) == Members(s[..i]) + {s[i]}
  {
    assert s[..i + 1] == s[..i] + [s[i]];
    MembersSnoc(s[..i], s[i]);
  }

  lemma AddStep(seen: set<Beam>, queued: set<Beam>, a: set<Beam>, seen2: set<Beam>, queued2: set<Beam>, c: Beam)
    requires seen2 == seen + a && queued2 == queued + (a - seen) && c !in seen2
    ensures seen2 + {c} == seen + (a + {c}) && queued2 + {c} == queued + ((a + {c}) - seen)
    ensures |seen2 + {c}| == |seen2| + 1
  {
  }

  lemma SkipStep(seen: set<Beam>, queued: set<Beam>, a: set<Beam>, seen2: set<Beam>, queued2: set<Beam>, c: Beam)
    requires seen2 == seen + a && queued2 == queued + (a - seen) && c in seen2
    ensures seen2 == seen + (a + {c}) && queued2 == queued + ((a + {c}) - seen)
  {
  }

  lemma NextInside(grid: seq<string>, cur: Beam)
    requires Inside(grid, cur.0) && cur.0.0 < |grid[cur.0.1]|
    ensures Next(grid, cur) == Successors(cur.0, Turn(grid[cur.0.1][cur.0.0], cur.1))
  {
  }

  lemma TracedShape(grid: seq<string>, start: Beam, result: seq<string>, lights: seq<Beam>, seen: set<Beam>, done: set<Beam>)
    requires Traced(grid, start, result, lights, seen, done)
    ensures |result| == |grid| && forall y :: 0 <= y < |grid| ==> |result[y]| == |grid[y]|
  {
  }

  /** The inner loop of `trace_light`: queue every beam after `loc` that was never queued. */
  method Enqueue(loc: Vec, out: seq<Vec>, lights: seq<Beam>, seen: set<Beam>) returns (lights2: seq<Beam>, seen2: set<Beam>)
    ensures seen2 == seen + Members(Successors(loc, out))
    ensures Members(lights2) == Members(lights) + (Members(Successors(loc, out)) - seen)
    ensures |lights2| - |lights| == |seen2| - |seen|
  {
    ghost var nexts := Successors(loc, out);
    lights2, seen2 := lights, seen;
    for i := 0 to |out|
      invariant seen2 == seen + Members(nexts[..i])
      invariant Members(lights2) == Members(lights) + (Members(nexts[..i]) - seen)
      invariant |lights2| - |lights| == |seen2| - |seen|
    {
      var nextLight := (Add(loc, out[i]), out[i]);
      MembersTake(nexts, i);
      if nextLight !in seen2 {
        MembersSnoc(lights2, nextLight);
        AddStep(seen, Members(lights), Members(nexts[..i]), seen2, Members(lights2), nextLight);
        seen2 := seen2 + {nextLight};
        lights2 := lights2 + [nextLight];
      } else {
        SkipStep(seen, Members(lights), Members(nexts[..i]), seen2, Members(lights2), nextLight);
      }
    }
    assert nexts[..|out|] == nexts;
  }

  datatype TraceError = ShortRow  // a row shorter than the first raised IndexError

  /**
   * One turn of the `trace_light` loop: pop the last queued beam; drop it if it has left the
   * grid, otherwise mark its tile and queue the beams after it that were never queued.
   */
  method Advance(grid: seq<string>, start: Beam, result: seq<string>, lights: seq<Beam>, seen: set<Beam>, ghost done: set<Beam>)
    returns (r: Result<(seq<string>, seq<Beam>, set<Beam>), TraceError>, ghost done2: set<Beam>)
    requires Traced(grid, start, result, lights, seen, done) && lights != []
    ensures r.Ok? ==> Traced(grid, start, r.value.0, r.value.1, r.value.2, done2)
    ensures r.Ok? ==> |r.value.2| > |seen| || (|r.value.2| == |seen| && |r.value.1| < |lights|)
    ensures r.Err? ==> exists y :: 0 <= y < |grid| && |grid[y]| < |grid[0]|
  {
    TracedShape(grid, start, result, lights, seen, done);
    var cur := lights[|lights| - 1];
    var rest := lights[..|lights| - 1];
    assert lights == rest + [cur];
    var (loc, vector) := cur;
    var (x, y) := loc;
    done2 := done + {cur};
    if y < 0 || y >= |result| || x < 0 || x >= |result[0]| {
      TraceOutside(grid, start, result, rest, seen, done, cur);
      return Ok((result, rest, seen)), done2;
    }
    if x >= |result[y]| {
      assert |grid[y]| < |grid[0]|;
      return Err(ShortRow), done2;
    }
    NextInside(grid, cur);
    var marked := result[y := result[y][x := Energized]];
    var out := Turn(grid[y][x], vector);
    var lights2, seen2 := Enqueue(loc, out, rest, seen);
    TraceVisit(grid, start, result, rest, seen, done, cur, lights2, seen2);
    return Ok((marked, lights2, seen2)), done2;
  }

  /**
   * `trace_light`: the tiles energized by the beam `start`, as `#` on a grid of `.` of the
   * same shape. A tile is `#` exactly when some beam out of `start` passes over it.
   */
  method TraceLight(grid: seq<string>, start: Beam) returns (r: Result<seq<string>, TraceError>)
    ensures r.Ok? ==> |r.value| == |grid| && forall y :: 0 <= y < |grid| ==> |r.value[y]| == |grid[y]|
    ensures r.Ok? ==> forall x, y :: 0 <= y < |grid| && 0 <= x < |grid[y]| ==>
      (r.value[y][x] == Energized <==> Lit(grid, start, x, y)) && (r.value[y][x] == Energized || r.value[y][x] == Dark)
    ensures r.Err? ==> exists y :: 0 <= y < |grid| && |grid[y]| < |grid[0]|
  {
    var result := seq(|grid|, y requires 0 <= y < |grid| => seq(|grid[y]|, _ => Dark));
    var lights := [start];
    var seen := {start};
    ghost var done: set<Beam> := {};
    ghost var box := Box(grid, start, Reach(start.1));
    TraceStart(grid, start, result);
    while lights != []
      invariant Traced(grid, start, result, lights, seen, done)
      decreases |box| - |seen|, |lights|
    {
      BoxHolds(grid, start, Reach(start.1), seen);
      var step;
      step, done := Advance(grid, start, result, lights, seen, done);
      if step.Err? {
        return Err(step.error);
      }
      result, lights, seen := step.value.0, step.value.1, step.value.2;
    }
    TraceEnd(grid, start, result, done);
    TracedShape(grid, start, result, [], seen, done);
    return Ok(result);
  }

  /** `sum_energized`: how many tiles are `#`. */
  function SumEnergized(grid: seq<string>): nat
  {
    if grid == [] then 0 else Text.CountChar(grid[0], Energized) + SumEnergized(grid[1..])
  }

  /** The count is 0 exactly when no tile is energized, and at most the number of tiles. */
  lemma {:induction false} SumEnergizedSpec(grid: seq<string>)
    ensures SumEnergized(grid) == 0 <==> forall y :: 0 <= y < |grid| ==> Energized !in grid[y]
    ensures SumEnergized(grid) <= Tiles(grid)
  {
    if grid != [] {
      SumEnergizedSpec(grid[1..]);
      Text.CountCharZero(grid[0], Energized);
      CountBound(grid[0], Energized);
      assert forall y :: 1 <= y < |grid| ==> grid[y] == grid[1..][y - 1];
    }
  }

  function Tiles(grid: seq<string>): nat
  {
    if grid == [] then 0 else |grid[0]| + Tiles(grid[1..])
  }

  lemma {:induction false} CountBound(s: string, c: char)
    ensures Text.CountChar(s, c) <= |s|
  {
    if s != [] {
      CountBound(s[..|s| - 1], c);
    }
  }

  /** `parse_input`: the stripped non-empty lines. */
  function ParseInput(raw: seq<string>): seq<string>
  {
    Text.Lines(raw)
  }
}
