/**
 * Sand slabs (day22): bricks of unit cubes fall straight down onto the floor and onto each
 * other. The support graph says which bricks rest on which, which bricks can be taken away
 * without anything falling, and how many bricks fall when one is taken away.
 */
module Bricks {
  import opened Wrappers

  /** An (x, y, z) position; z grows upwards and the floor lies below z = 1. */
  type Point = (int, int, int)

  /** A brick, given by its two end cubes. */
  type Brick = (Point, Point)

  /** Half-open extents `[lo, hi)` on the x, y and z axes. */
  type MinMax = ((int, int), (int, int), (int, int))

  /** For each settled brick, the bricks right below it and the bricks right above it. */
  type BelowAbove = map<Brick, (set<Brick>, set<Brick>)>

  datatype BrickError =
    | MissingBrick(brick: Brick)   // a `KeyError` in `chain_reaction`
    | OutOfFuel                    // the chain reaction took more rounds than its bound

  function Min(a: int, b: int): int { if a <= b then a else b }

  function Max(a: int, b: int): int { if a <= b then b else a }

  // ---------------------------------------------------------------------------------------
  // Geometry

  /** The extent of a brick on each axis, as `minmax_of` computes it. */
  function MinMaxOf(b: Brick): (r: MinMax)
    ensures r.0.0 < r.0.1 && r.1.0 < r.1.1 && r.2.0 < r.2.1
  {
    ((Min(b.0.0, b.1.0), Max(b.0.0, b.1.0) + 1),
     (Min(b.0.1, b.1.1), Max(b.0.1, b.1.1) + 1),
     (Min(b.0.2, b.1.2), Max(b.0.2, b.1.2) + 1))
  }

  /** The lowest z of a brick, the key `settle` sorts by. */
  function MinZ(b: Brick): int
  {
    Min(b.0.2, b.1.2)
  }

  /** The point lies in the box. */
  predicate Inside(p: Point, m: MinMax)
  {
    m.0.0 <= p.0 < m.0.1 && m.1.0 <= p.1 < m.1.1 && m.2.0 <= p.2 < m.2.1
  }

  /** `range(lo, hi)`. */
  function Span(lo: int, hi: int): seq<int>
    decreases hi - lo
  {
    if lo >= hi then [] else [lo] + Span(lo + 1, hi)
  }

  /** The cubes `(x, y, z)` for `x` in `xs`, in that order. */
  function Row(xs: seq<int>, y: int, z: int): seq<Point>
  {
    if xs == [] then [] else [(xs[0], y, z)] + Row(xs[1..], y, z)
  }

  /** The rows of one layer, for `y` in `ys`. */
  function Layer(xs: seq<int>, ys: seq<int>, z: int): seq<Point>
  {
    if ys == [] then [] else Row(xs, ys[0], z) + Layer(xs, ys[1..], z)
  }

  /** The layers of a box, for `z` in `zs`. */
  function Stack(xs: seq<int>, ys: seq<int>, zs: seq<int>): seq<Point>
  {
    if zs == [] then [] else Layer(xs, ys, zs[0]) + Stack(xs, ys, zs[1..])
  }

  /** `cubes_of`: the unit cubes of a brick, z outermost and x innermost. */
  function CubesOf(b: Brick): seq<Point>
  {
    var m := MinMaxOf(b);
    Stack(Span(m.0.0, m.0.1), Span(m.1.0, m.1.1), Span(m.2.0, m.2.1))
  }

  lemma {:induction false} SpanSpec(lo: int, hi: int)
    ensures forall v :: v in Span(lo, hi) <==> lo <= v < hi
    ensures |Span(lo, hi)| == if lo < hi then hi - lo else 0
    decreases hi - lo
  {
    if lo < hi {
      SpanSpec(lo + 1, hi);
    }
  }

  lemma {:induction false} RowSpec(xs: seq<int>, y: int, z: int)
    ensures forall p :: p in Row(xs, y, z) <==> p.0 in xs && p.1 == y && p.2 == z
    ensures |Row(xs, y, z)| == |xs|
  {
    if xs != [] {
      RowSpec(xs[1..], y, z);
      assert xs == [xs[0]] + xs[1..];
    }
  }

  lemma MulStep(a: nat, b: nat)
    ensures a * (b + 1) == a + a * b
  {
  }

  lemma {:induction false} LayerSpec(xs: seq<int>, ys: seq<int>, z: int)
    ensures forall p :: p in Layer(xs, ys, z) <==> p.0 in xs && p.1 in ys && p.2 == z
    ensures |Layer(xs, ys, z)| == |xs| * |ys|
  {
    if ys != [] {
      RowSpec(xs, ys[0], z);
      LayerSpec(xs, ys[1..], z);
      assert ys == [ys[0]] + ys[1..];
      MulStep(|xs|, |ys[1..]|);
    }
  }

  lemma {:induction false} StackSpec(xs: seq<int>, ys: seq<int>, zs: seq<int>)
    ensures forall p :: p in Stack(xs, ys, zs) <==> p.0 in xs && p.1 in ys && p.2 in zs
    ensures |Stack(xs, ys, zs)| == |xs| * |ys| * |zs|
  {
    if zs != [] {
      LayerSpec(xs, ys, zs[0]);
      StackSpec(xs, ys, zs[1..]);
      assert zs == [zs[0]] + zs[1..];
      MulStep(|xs| * |ys|, |zs[1..]|);
    }
  }

  /** `cubes_of` lists exactly the unit cubes of the brick's box, as many as its volume. */
  lemma CubesSpec(b: Brick)
    ensures forall p :: p in CubesOf(b) <==> Inside(p, MinMaxOf(b))
    ensures var m := MinMaxOf(b);
            |CubesOf(b)| == (m.0.1 - m.0.0) * (m.1.1 - m.1.0) * (m.2.1 - m.2.0)
  {
    CubesIn(b);
    CubesCount(b);
  }

  lemma CubesIn(b: Brick)
    ensures forall p :: p in CubesOf(b) <==> Inside(p, MinMaxOf(b))
  {
    var m := MinMaxOf(b);
    var xs, ys, zs := Span(m.0.0, m.0.1), Span(m.1.0, m.1.1), Span(m.2.0, m.2.1);
    StackSpec(xs, ys, zs);
    assert CubesOf(b) == Stack(xs, ys, zs);
    forall p ensures p in CubesOf(b) <==> Inside(p, m) {
      SpanSpec(m.0.0, m.0.1);
      SpanSpec(m.1.0, m.1.1);
      SpanSpec(m.2.0, m.2.1);
    }
  }

  lemma CubesCount(b: Brick)
    ensures var m := MinMaxOf(b);
            |CubesOf(b)| == (m.0.1 - m.0.0) * (m.1.1 - m.1.0) * (m.2.1 - m.2.0)
  {
    var m := MinMaxOf(b);
    var xs, ys, zs := Span(m.0.0, m.0.1), Span(m.1.0, m.1.1), Span(m.2.0, m.2.1);
    assert |Stack(xs, ys, zs)| == |xs| * |ys| * |zs| by {
      StackSpec(xs, ys, zs);
    }
    assert CubesOf(b) == Stack(xs, ys, zs);
    SpanLength(m.0.0, m.0.1);
    SpanLength(m.1.0, m.1.1);
    SpanLength(m.2.0, m.2.1);
    MulCong(|xs|, |ys|, |zs|, m.0.1 - m.0.0, m.1.1 - m.1.0, m.2.1 - m.2.0);
  }

  lemma SpanLength(lo: int, hi: int)
    requires lo < hi
    ensures |Span(lo, hi)| == hi - lo
  {
    SpanSpec(lo, hi);
  }

  lemma MulCong(a: int, b: int, c: int, x: int, y: int, z: int)
    requires a == x && b == y && c == z
    ensures a * b * c == x * y * z
  {
  }

  /** `intersect_minmax`: the boxes overlap on all three axes. */
  predicate Intersects(a: MinMax, b: MinMax)
  {
    a.0.0 < b.0.1 && a.0.1 > b.0.0 &&
    a.1.0 < b.1.1 && a.1.1 > b.1.0 &&
    a.2.0 < b.2.1 && a.2.1 > b.2.0
  }

  /** Two bricks' boxes overlap exactly when they share a unit cube, so overlap is symmetric. */
  lemma IntersectsCubes(a: Brick, b: Brick)
    ensures Intersects(MinMaxOf(a), MinMaxOf(b)) <==> exists p :: p in CubesOf(a) && p in CubesOf(b)
    ensures Intersects(MinMaxOf(a), MinMaxOf(b)) <==> Intersects(MinMaxOf(b), MinMaxOf(a))
  {
    CubesSpec(a);
    CubesSpec(b);
    var ma, mb := MinMaxOf(a), MinMaxOf(b);
    if Intersects(ma, mb) {
      var p := (Max(ma.0.0, mb.0.0), Max(ma.1.0, mb.1.0), Max(ma.2.0, mb.2.0));
      assert Inside(p, ma) && Inside(p, mb);
      assert p in CubesOf(a) && p in CubesOf(b);
    }
  }

  /** A brick's box meets itself. */
  lemma SelfIntersects(b: Brick)
    ensures Intersects(MinMaxOf(b), MinMaxOf(b))
  {
  }

  /** `z_move`: the brick shifted by `steps` along z. */
  function ZMove(b: Brick, steps: int): Brick
  {
    ((b.0.0, b.0.1, b.0.2 + steps), (b.1.0, b.1.1, b.1.2 + steps))
  }

  /** `z_move` shifts only the z extent, and moving back undoes it. */
  lemma ZMoveSpec(b: Brick, steps: int)
    ensures var m := MinMaxOf(b);
            MinMaxOf(ZMove(b, steps)) == (m.0, m.1, (m.2.0 + steps, m.2.1 + steps))
    ensures MinZ(ZMove(b, steps)) == MinZ(b) + steps
    ensures ZMove(ZMove(b, steps), -steps) == b
  {
  }

  /** The cubes of a moved brick are its cubes moved. */
  lemma ZMoveCubes(b: Brick, steps: int)
    ensures forall p :: p in CubesOf(ZMove(b, steps)) <==> (p.0, p.1, p.2 - steps) in CubesOf(b)
  {
    CubesSpec(b);
    CubesSpec(ZMove(b, steps));
    ZMoveSpec(b, steps);
  }

  // ---------------------------------------------------------------------------------------
  // The order `settle` takes the bricks in

  /** Puts `x` after every brick of `s` whose lowest z is not below its own. */
  function Insert(x: Brick, s: seq<Brick>): seq<Brick>
  {
    if s == [] || MinZ(s[0]) < MinZ(x) then [x] + s else [s[0]] + Insert(x, s[1..])
  }

  /**
   * `sorted(bricks, key=lowest z, reverse=True)`: highest first, bricks with the same key in
   * their input order (Python's sort is stable also when reversed).
   */
  function SortDown(bs: seq<Brick>): seq<Brick>
  {
    if bs == [] then [] else Insert(bs[|bs| - 1], SortDown(bs[..|bs| - 1]))
  }

  /** The lowest z never grows along the sequence, so `pop()` yields it in ascending order. */
  ghost predicate Descending(s: seq<Brick>)
  {
    forall i, j :: 0 <= i < j < |s| ==> MinZ(s[j]) <= MinZ(s[i])
  }

  /** A sequence starting with `a` descends when its tail does and stays at or below `a`. */
  lemma DescendingCons(a: Brick, t: seq<Brick>)
    ensures Descending([a] + t) <==> Descending(t) && forall y :: y in t ==> MinZ(y) <= MinZ(a)
  {
    var s := [a] + t;
    if Descending(t) && forall y :: y in t ==> MinZ(y) <= MinZ(a) {
      forall i, j | 0 <= i < j < |s| ensures MinZ(s[j]) <= MinZ(s[i]) {
        assert s[j] == t[j - 1];
        if i > 0 {
          assert s[i] == t[i - 1];
        }
      }
    }
    if Descending(s) {
      forall i, j | 0 <= i < j < |t| ensures MinZ(t[j]) <= MinZ(t[i]) {
        assert t[i] == s[i + 1] && t[j] == s[j + 1];
      }
      forall y | y in t ensures MinZ(y) <= MinZ(a) {
        var k :| 0 <= k < |t| && t[k] == y;
        assert s[k + 1] == y && s[0] == a;
      }
    }
  }

  lemma {:induction false} InsertElems(x: Brick, s: seq<Brick>)
    ensures multiset(Insert(x, s)) == multiset(s) + multiset{x}
    ensures forall y :: y in Insert(x, s) <==> y == x || y in s
  {
    if s != [] && MinZ(s[0]) >= MinZ(x) {
      InsertElems(x, s[1..]);
      assert s == [s[0]] + s[1..];
    }
  }

  lemma {:induction false} InsertSpec(x: Brick, s: seq<Brick>)
    requires Descending(s)
    ensures Descending(Insert(x, s))
    ensures multiset(Insert(x, s)) == multiset(s) + multiset{x}
  {
    InsertElems(x, s);
    if s == [] || MinZ(s[0]) < MinZ(x) {
      if s != [] {
        DescendingCons(s[0], s[1..]);
        assert s == [s[0]] + s[1..];
      }
      DescendingCons(x, s);
    } else {
      assert s == [s[0]] + s[1..];
      DescendingCons(s[0], s[1..]);
      InsertSpec(x, s[1..]);
      InsertElems(x, s[1..]);
      DescendingCons(s[0], Insert(x, s[1..]));
    }
  }

  /** `settle` pops the bricks in ascending order of lowest z, and it pops every one of them. */
  lemma {:induction false} SortSpec(bs: seq<Brick>)
    ensures Descending(SortDown(bs))
    ensures multiset(SortDown(bs)) == multiset(bs)
  {
    if bs != [] {
      var init := bs[..|bs| - 1];
      SortSpec(init);
      InsertSpec(bs[|bs| - 1], SortDown(init));
      assert bs == init + [bs[|bs| - 1]];
    }
  }

  /** Two bricks share no cube. */
  predicate Disjoint(a: Brick, b: Brick)
  {
    !Intersects(MinMaxOf(a), MinMaxOf(b))
  }

  lemma DisjointSymmetric(a: Brick, b: Brick)
    ensures Disjoint(a, b) == Disjoint(b, a)
  {
  }

  /** No two bricks of the snapshot share a cube, as in a snapshot of falling bricks. */
  ghost predicate Apart(s: seq<Brick>)
  {
    forall i, j :: 0 <= i < |s| && 0 <= j < |s| && i != j ==> Disjoint(s[i], s[j])
  }

  lemma ApartCons(a: Brick, t: seq<Brick>)
    ensures Apart([a] + t) <==> Apart(t) && forall y :: y in t ==> Disjoint(a, y)
  {
    var s := [a] + t;
    if Apart(t) && forall y :: y in t ==> Disjoint(a, y) {
      forall i, j | 0 <= i < |s| && 0 <= j < |s| && i != j ensures Disjoint(s[i], s[j]) {
        if i > 0 {
          assert s[i] == t[i - 1];
        }
        if j > 0 {
          assert s[j] == t[j - 1];
        }
        DisjointSymmetric(s[i], s[j]);
      }
    }
    if Apart(s) {
      forall i, j | 0 <= i < |t| && 0 <= j < |t| && i != j ensures Disjoint(t[i], t[j]) {
        assert t[i] == s[i + 1] && t[j] == s[j + 1];
      }
      forall y | y in t ensures Disjoint(a, y) {
        var k :| 0 <= k < |t| && t[k] == y;
        assert s[k + 1] == y && s[0] == a;
      }
    }
  }

  lemma {:induction false} InsertApart(x: Brick, s: seq<Brick>)
    requires Apart(s) && forall y :: y in s ==> Disjoint(x, y)
    ensures Apart(Insert(x, s))
  {
    if s == [] || MinZ(s[0]) < MinZ(x) {
      ApartCons(x, s);
    } else {
      assert s == [s[0]] + s[1..];
      ApartCons(s[0], s[1..]);
      InsertApart(x, s[1..]);
      InsertElems(x, s[1..]);
      DisjointSymmetric(x, s[0]);
      ApartCons(s[0], Insert(x, s[1..]));
    }
  }

  lemma {:induction false} SortElems(bs: seq<Brick>)
    ensures forall y :: y in SortDown(bs) <==> y in bs
  {
    if bs != [] {
      var init := bs[..|bs| - 1];
      SortElems(init);
      InsertElems(bs[|bs| - 1], SortDown(init));
      assert bs == init + [bs[|bs| - 1]];
    }
  }

  /** Sorting keeps the snapshot apart. */
  lemma {:induction false} SortApart(bs: seq<Brick>)
    requires Apart(bs)
    ensures Apart(SortDown(bs))
  {
    if bs != [] {
      var n := |bs| - 1;
      var init := bs[..n];
      assert Apart(init) by {
        forall i, j | 0 <= i < |init| && 0 <= j < |init| && i != j ensures Disjoint(init[i], init[j]) {
          assert init[i] == bs[i] && init[j] == bs[j];
        }
      }
      SortApart(init);
      SortElems(init);
      forall y | y in SortDown(init) ensures Disjoint(bs[n], y) {
        var k :| 0 <= k < |init| && init[k] == y;
        assert bs[k] == y;
      }
      InsertApart(bs[n], SortDown(init));
    }
  }

  // ---------------------------------------------------------------------------------------
  // Settling

  /** The stopped bricks whose boxes meet `m`. */
  function Meeting(stopped: map<Brick, MinMax>, m: MinMax): set<Brick>
  {
    set s | s in stopped && Intersects(stopped[s], m)
  }

  /** Adds `b` to the above-set of every brick in `below`. */
  function AddAbove(ba: BelowAbove, below: set<Brick>, b: Brick): (r: BelowAbove)
    ensures r.Keys == ba.Keys
  {
    map k | k in ba :: if k in below then (ba[k].0, ba[k].1 + {b}) else ba[k]
  }

  function Clamp(z: int): nat
  {
    if z < 0 then 0 else z
  }

  /** How far the bricks still moving can fall, plus their number: each round lowers it. */
  function Weight(moving: seq<Brick>): nat
  {
    if moving == [] then 0 else Weight(moving[..|moving| - 1]) + Clamp(MinZ(moving[|moving| - 1])) + 1
  }

  lemma WeightSnoc(rest: seq<Brick>, b: Brick)
    ensures Weight(rest + [b]) == Weight(rest) + Clamp(MinZ(b)) + 1
  {
    assert (rest + [b])[..|rest|] == rest;
  }

  /**
   * One round of `settle`: the last moving brick stops on the floor when one more drop would
   * take it below z = 1, stops on the bricks its dropped box would meet, or else drops by one
   * and goes back on the pile. Each round lowers the weight of the pile.
   */
  function Round(moving: seq<Brick>, stopped: map<Brick, MinMax>, ba: BelowAbove)
      : (r: (seq<Brick>, map<Brick, MinMax>, BelowAbove))
    requires moving != [] && stopped.Keys == ba.Keys
    ensures r.1.Keys == r.2.Keys && Weight(r.0) < Weight(moving)
  {
    var b := moving[|moving| - 1];
    var rest := moving[..|moving| - 1];
    WeightSnoc(rest, b);
    var next := MinMaxOf(ZMove(b, -1));
    if next.2.0 < 1 then (rest, stopped[b := MinMaxOf(b)], ba[b := ({}, {})])
    else
      var below := Meeting(stopped, next);
      if below != {} then (rest, stopped[b := MinMaxOf(b)], AddAbove(ba, below, b)[b := (below, {})])
      else
        WeightSnoc(rest, ZMove(b, -1));
        (rest + [ZMove(b, -1)], stopped, ba)
  }

  /** The rounds of `settle` from the given state until no brick is moving. */
  function Fall(moving: seq<Brick>, stopped: map<Brick, MinMax>, ba: BelowAbove): BelowAbove
    requires stopped.Keys == ba.Keys
    decreases Weight(moving)
  {
    if moving == [] then ba
    else
      var (moving', stopped', ba') := Round(moving, stopped, ba);
      Fall(moving', stopped', ba')
  }

  /** What `settle` returns. */
  function Settled(bricks: seq<Brick>): BelowAbove
  {
    Fall(SortDown(bricks), map[], map[])
  }

  lemma AddAboveStep(ba: BelowAbove, below: set<Brick>, todo: set<Brick>, b: Brick, k: Brick)
    requires k in ba && k in todo && todo <= below
    ensures var r := AddAbove(ba, below - todo, b);
            r[k := (r[k].0, r[k].1 + {b})] == AddAbove(ba, below - (todo - {k}), b)
  {
    assert below - (todo - {k}) == (below - todo) + {k};
  }

  /** The `for ibrick in intersected` loop of `settle`. */
  method AddAboveAll(ba: BelowAbove, below: set<Brick>, b: Brick) returns (r: BelowAbove)
    requires below <= ba.Keys
    ensures r == AddAbove(ba, below, b)
  {
    r := ba;
    var todo := below;
    while todo != {}
      invariant todo <= below
      invariant r == AddAbove(ba, below - todo, b)
      decreases |todo|
    {
      var k :| k in todo;
      AddAboveStep(ba, below, todo, b, k);
      r := r[k := (r[k].0, r[k].1 + {b})];
      todo := todo - {k};
    }
    assert below - todo == below;
  }

  /** `settle`. */
  method Settle(bricks: seq<Brick>) returns (ba: BelowAbove)
    ensures ba == Settled(bricks)
  {
    var moving := SortDown(bricks);
    var stopped: map<Brick, MinMax> := map[];
    ba := map[];
    while moving != []
      invariant stopped.Keys == ba.Keys
      invariant Fall(moving, stopped, ba) == Settled(bricks)
      decreases Weight(moving)
    {
      var brick := moving[|moving| - 1];
      var rest := moving[..|moving| - 1];
      var nextBrick := ZMove(brick, -1);
      var nextMinMax := MinMaxOf(nextBrick);
      if nextMinMax.2.0 < 1 {
        stopped := stopped[brick := MinMaxOf(brick)];
        ba := ba[brick := ({}, {})];
        moving := rest;
        continue;
      }
      var intersected := Meeting(stopped, nextMinMax);
      if intersected != {} {
        ba := AddAboveAll(ba, intersected, brick);
        ba := ba[brick := (intersected, {})];
        stopped := stopped[brick := MinMaxOf(brick)];
        moving := rest;
        continue;
      }
      assert (rest + [nextBrick])[..|rest|] == rest;
      moving := rest + [nextBrick];
    }
  }

  // ---------------------------------------------------------------------------------------
  // What settling establishes

  /** The boxes of the two bricks overlap on the x and y axes. */
  predicate XYMeet(a: Brick, b: Brick)
  {
    var ma, mb := MinMaxOf(a), MinMaxOf(b);
    ma.0.0 < mb.0.1 && ma.0.1 > mb.0.0 && ma.1.0 < mb.1.1 && ma.1.1 > mb.1.0
  }

  /** `m` is beside `k` or wholly above it. */
  predicate Clear(k: Brick, m: Brick)
  {
    XYMeet(k, m) ==> MinMaxOf(m).2.0 >= MinMaxOf(k).2.1
  }

  lemma ClearDisjoint(k: Brick, m: Brick)
    requires Clear(k, m)
    ensures Disjoint(k, m) && Disjoint(m, k)
  {
  }

  /** A brick that stops is below or beside every brick still to come. */
  lemma LandClear(b: Brick, m: Brick)
    requires Disjoint(b, m) && MinZ(b) <= MinZ(m)
    ensures Clear(b, m)
  {
  }

  /** A drop that meets nothing keeps a moving brick above the stopped ones. */
  lemma DropClear(k: Brick, b: Brick)
    requires Clear(k, b) && !Intersects(MinMaxOf(k), MinMaxOf(ZMove(b, -1)))
    ensures Clear(k, ZMove(b, -1))
  {
    ZMoveSpec(b, -1);
  }

  /** The lowest moving brick, dropped by one, still shares no cube with the others. */
  lemma DropDisjoint(b: Brick, m: Brick)
    requires Disjoint(b, m) && MinZ(b) <= MinZ(m)
    ensures Disjoint(ZMove(b, -1), m)
  {
    ZMoveSpec(b, -1);
  }

  /** A brick above or beside `k` is not under it. */
  lemma ClearNotUnder(k: Brick, b: Brick)
    requires Clear(k, b)
    ensures !Intersects(MinMaxOf(b), MinMaxOf(ZMove(k, -1)))
  {
    ZMoveSpec(k, -1);
  }

  /** Nothing resting at z >= 1 is under a brick at z = 1. */
  lemma FloorClear(s: Brick, b: Brick)
    requires Clear(s, b) && MinZ(s) >= 1 && MinZ(b) == 1
    ensures !Intersects(MinMaxOf(s), MinMaxOf(ZMove(b, -1)))
  {
    ZMoveSpec(b, -1);
  }

  /** Every brick named in a below- or above-set is a key. */
  ghost predicate Closed(ba: BelowAbove)
  {
    forall k :: k in ba ==> ba[k].0 <= ba.Keys && ba[k].1 <= ba.Keys
  }

  /** `b` is below `a` exactly when `a` is above `b`. */
  ghost predicate Dual(ba: BelowAbove)
  {
    forall a, b :: a in ba && b in ba ==> (b in ba[a].0 <==> a in ba[b].1)
  }

  /** The below-set of a brick is exactly the other bricks its box meets once dropped by one. */
  ghost predicate Exact(ba: BelowAbove)
  {
    forall k, s :: k in ba && s in ba && s != k ==>
      (s in ba[k].0 <==> Intersects(MinMaxOf(s), MinMaxOf(ZMove(k, -1))))
  }

  /** A brick has no supports exactly when it lies on the floor. */
  ghost predicate OnFloor(ba: BelowAbove)
  {
    forall k :: k in ba ==> MinZ(k) >= 1 && (ba[k].0 == {} <==> MinZ(k) == 1)
  }

  /** The support graph a settled snapshot has. */
  ghost predicate Supports(ba: BelowAbove)
  {
    Closed(ba) && Dual(ba) && Exact(ba) && OnFloor(ba)
  }

  /** No brick reaches below z = 1. */
  ghost predicate Grounded(s: seq<Brick>)
  {
    forall i :: 0 <= i < |s| ==> MinZ(s[i]) >= 1
  }

  /** The bricks still moving, in the order `pop()` leaves them. */
  ghost predicate Moving(s: seq<Brick>)
  {
    Apart(s) && Descending(s) && Grounded(s)
  }

  /** Every moving brick is beside or above every stopped one. */
  ghost predicate ClearOf(ks: set<Brick>, s: seq<Brick>)
  {
    forall k, i :: k in ks && 0 <= i < |s| ==> Clear(k, s[i])
  }

  /** `stopped` maps each brick to its box. */
  ghost predicate Boxes(stopped: map<Brick, MinMax>)
  {
    forall k :: k in stopped ==> stopped[k] == MinMaxOf(k)
  }

  lemma BoxesAdd(stopped: map<Brick, MinMax>, b: Brick)
    requires Boxes(stopped)
    ensures Boxes(stopped[b := MinMaxOf(b)])
  {
  }

  /** The state of `settle` between rounds. */
  ghost predicate Settling(moving: seq<Brick>, stopped: map<Brick, MinMax>, ba: BelowAbove)
  {
    stopped.Keys == ba.Keys && Boxes(stopped) && Supports(ba) && Moving(moving) && ClearOf(ba.Keys, moving)
  }

  lemma LandGraph(ba: BelowAbove, b: Brick, below: set<Brick>)
    requires Closed(ba) && Dual(ba) && b !in ba && below <= ba.Keys
    ensures var r := AddAbove(ba, below, b)[b := (below, {})];
            Closed(r) && Dual(r)
  {
  }

  lemma LandExact(ba: BelowAbove, b: Brick, below: set<Brick>)
    requires Closed(ba) && Exact(ba) && b !in ba && below <= ba.Keys
    requires forall s :: s in ba ==> (s in below <==> Intersects(MinMaxOf(s), MinMaxOf(ZMove(b, -1))))
    requires forall k :: k in ba ==> !Intersects(MinMaxOf(b), MinMaxOf(ZMove(k, -1)))
    ensures Exact(AddAbove(ba, below, b)[b := (below, {})])
  {
  }

  lemma LandFloor(ba: BelowAbove, b: Brick, below: set<Brick>)
    requires OnFloor(ba) && b !in ba && MinZ(b) >= 1 && (below == {} <==> MinZ(b) == 1)
    ensures OnFloor(AddAbove(ba, below, b)[b := (below, {})])
  {
  }

  lemma LandMoving(rest: seq<Brick>, ks: set<Brick>, b: Brick, ks': set<Brick>)
    requires Moving(rest + [b]) && ClearOf(ks, rest + [b]) && ks' == ks + {b}
    ensures Moving(rest) && ClearOf(ks', rest)
    ensures MinZ(b) >= 1 && forall k :: k in ks ==> Clear(k, b)
  {
    var s := rest + [b];
    var n := |rest|;
    assert s[n] == b;
    forall i | 0 <= i < n ensures s[i] == rest[i] {
    }
    forall k, i | k in ks' && 0 <= i < n ensures Clear(k, rest[i]) {
      if k == b {
        LandClear(b, rest[i]);
      }
    }
  }

  lemma LandKeys(stopped: map<Brick, MinMax>, ba: BelowAbove, b: Brick, below: set<Brick>)
    requires stopped.Keys == ba.Keys
    ensures var r := AddAbove(ba, below, b)[b := (below, {})];
            r.Keys == ba.Keys + {b} && r.Keys == stopped[b := MinMaxOf(b)].Keys &&
            (b !in ba ==> |r.Keys| == |ba.Keys| + 1)
  {
  }

  /** The lowest moving brick is no stopped brick, and no stopped brick rests on it. */
  lemma LandFresh(ks: set<Brick>, b: Brick)
    requires forall k :: k in ks ==> Clear(k, b)
    ensures b !in ks
    ensures forall k :: k in ks ==> !Intersects(MinMaxOf(b), MinMaxOf(ZMove(k, -1)))
  {
    if b in ks {
      ClearDisjoint(b, b);
      SelfIntersects(b);
    }
    forall k | k in ks ensures !Intersects(MinMaxOf(b), MinMaxOf(ZMove(k, -1))) {
      ClearNotUnder(k, b);
    }
  }

  /** A brick stops on the floor or on the bricks it would meet. */
  lemma LandStep(rest: seq<Brick>, stopped: map<Brick, MinMax>, ba: BelowAbove, b: Brick, below: set<Brick>)
    requires Settling(rest + [b], stopped, ba)
    requires below == Meeting(stopped, MinMaxOf(ZMove(b, -1)))
    requires below == {} <==> MinZ(b) == 1
    ensures b !in ba
    ensures Settling(rest, stopped[b := MinMaxOf(b)], AddAbove(ba, below, b)[b := (below, {})])
    ensures |AddAbove(ba, below, b)[b := (below, {})].Keys| == |ba.Keys| + 1
  {
    LandKeys(stopped, ba, b, below);
    LandMoving(rest, ba.Keys, b, AddAbove(ba, below, b)[b := (below, {})].Keys);
    LandFresh(ba.Keys, b);
    LandGraph(ba, b, below);
    LandExact(ba, b, below);
    LandFloor(ba, b, below);
    BoxesAdd(stopped, b);
  }

  lemma DropMoving(rest: seq<Brick>, ks: set<Brick>, b: Brick)
    requires Moving(rest + [b]) && ClearOf(ks, rest + [b]) && MinZ(b) >= 2
    requires forall k :: k in ks ==> !Intersects(MinMaxOf(k), MinMaxOf(ZMove(b, -1)))
    ensures Moving(rest + [ZMove(b, -1)]) && ClearOf(ks, rest + [ZMove(b, -1)])
  {
    var s, t := rest + [b], rest + [ZMove(b, -1)];
    var n := |rest|;
    ZMoveSpec(b, -1);
    assert s[n] == b && t[n] == ZMove(b, -1);
    forall i | 0 <= i < n ensures s[i] == rest[i] && t[i] == rest[i] {
    }
    forall i, j | 0 <= i < |t| && 0 <= j < |t| && i != j ensures Disjoint(t[i], t[j]) {
      if i == n {
        DropDisjoint(b, t[j]);
      } else if j == n {
        DropDisjoint(b, t[i]);
        DisjointSymmetric(t[i], t[j]);
      }
    }
    forall k, i | k in ks && 0 <= i < |t| ensures Clear(k, t[i]) {
      if i == n {
        DropClear(k, b);
      }
    }
  }

  /** A brick that meets nothing when dropped falls by one. */
  lemma DropStep(rest: seq<Brick>, stopped: map<Brick, MinMax>, ba: BelowAbove, b: Brick)
    requires Settling(rest + [b], stopped, ba)
    requires Meeting(stopped, MinMaxOf(ZMove(b, -1))) == {} && MinMaxOf(ZMove(b, -1)).2.0 >= 1
    ensures Settling(rest + [ZMove(b, -1)], stopped, ba)
  {
    ZMoveSpec(b, -1);
    forall k | k in ba ensures !Intersects(MinMaxOf(k), MinMaxOf(ZMove(b, -1))) {
      assert k !in Meeting(stopped, MinMaxOf(ZMove(b, -1)));
    }
    DropMoving(rest, ba.Keys, b);
  }

  /** At z = 1 a brick meets nothing when dropped. */
  lemma FloorMeeting(rest: seq<Brick>, stopped: map<Brick, MinMax>, ba: BelowAbove, b: Brick)
    requires Settling(rest + [b], stopped, ba) && MinMaxOf(ZMove(b, -1)).2.0 < 1
    ensures MinZ(b) == 1 && Meeting(stopped, MinMaxOf(ZMove(b, -1))) == {}
  {
    LandMoving(rest, ba.Keys, b, ba.Keys + {b});
    ZMoveSpec(b, -1);
    forall s | s in stopped ensures !Intersects(stopped[s], MinMaxOf(ZMove(b, -1))) {
      FloorClear(s, b);
    }
  }

  /** A round that stops a brick on the floor. */
  lemma FloorRound(rest: seq<Brick>, stopped: map<Brick, MinMax>, ba: BelowAbove, b: Brick)
    requires Settling(rest + [b], stopped, ba) && MinMaxOf(ZMove(b, -1)).2.0 < 1
    ensures Settling(rest, stopped[b := MinMaxOf(b)], ba[b := ({}, {})])
    ensures |ba[b := ({}, {})].Keys| == |ba.Keys| + 1
  {
    FloorMeeting(rest, stopped, ba, b);
    assert AddAbove(ba, {}, b) == ba;
    LandStep(rest, stopped, ba, b, {});
  }

  /** A round that stops a brick on the bricks it would meet. */
  lemma LandRound(rest: seq<Brick>, stopped: map<Brick, MinMax>, ba: BelowAbove, b: Brick, below: set<Brick>)
    requires Settling(rest + [b], stopped, ba) && MinMaxOf(ZMove(b, -1)).2.0 >= 1
    requires below == Meeting(stopped, MinMaxOf(ZMove(b, -1))) && below != {}
    ensures Settling(rest, stopped[b := MinMaxOf(b)], AddAbove(ba, below, b)[b := (below, {})])
    ensures |AddAbove(ba, below, b)[b := (below, {})].Keys| == |ba.Keys| + 1
  {
    ZMoveSpec(b, -1);
    LandStep(rest, stopped, ba, b, below);
  }

  /** A round keeps the state of `settle` and only moves a brick from the pile to the stopped ones. */
  lemma RoundSpec(moving: seq<Brick>, stopped: map<Brick, MinMax>, ba: BelowAbove)
    requires moving != [] && Settling(moving, stopped, ba)
    ensures var (moving', stopped', ba') := Round(moving, stopped, ba);
            Settling(moving', stopped', ba') && |ba'.Keys| + |moving'| == |ba.Keys| + |moving|
  {
    var b := moving[|moving| - 1];
    var rest := moving[..|moving| - 1];
    assert moving == rest + [b];
    var next := MinMaxOf(ZMove(b, -1));
    ZMoveSpec(b, -1);
    if next.2.0 < 1 {
      FloorRound(rest, stopped, ba, b);
    } else {
      var below := Meeting(stopped, next);
      if below != {} {
        LandRound(rest, stopped, ba, b, below);
      } else {
        DropStep(rest, stopped, ba, b);
      }
    }
  }

  lemma {:induction false} FallSpec(moving: seq<Brick>, stopped: map<Brick, MinMax>, ba: BelowAbove)
    requires Settling(moving, stopped, ba)
    ensures Supports(Fall(moving, stopped, ba))
    ensures |Fall(moving, stopped, ba).Keys| == |ba.Keys| + |moving|
    decreases Weight(moving)
  {
    if moving != [] {
      RoundSpec(moving, stopped, ba);
      var (moving', stopped', ba') := Round(moving, stopped, ba);
      FallSpec(moving', stopped', ba');
    }
  }

  /** `k` is brick `o` moved down by some whole number of steps (possibly none). */
  predicate Lowered(k: Brick, o: Brick)
  {
    k.0.2 <= o.0.2 && k == ZMove(o, k.0.2 - o.0.2)
  }

  /** Every brick in `cur` is some input brick moved down. */
  ghost predicate Into(cur: set<Brick>, src: seq<Brick>)
  {
    forall k :: k in cur ==> exists j :: 0 <= j < |src| && Lowered(k, src[j])
  }

  /** Every input brick has a moved-down copy in `cur`. */
  ghost predicate Onto(cur: set<Brick>, src: seq<Brick>)
  {
    forall j :: 0 <= j < |src| ==> exists k :: k in cur && Lowered(k, src[j])
  }

  /** The stopped bricks together with the moving ones. */
  function Current(ks: set<Brick>, moving: seq<Brick>): set<Brick>
  {
    ks + set x | x in moving
  }

  lemma LoweredDrop(b: Brick, o: Brick)
    requires Lowered(b, o)
    ensures Lowered(ZMove(b, -1), o)
  {
  }

  /** Adding the brick one unit under `b` keeps every brick traced to an input brick. */
  lemma DropInto(cur: set<Brick>, cur': set<Brick>, b: Brick, src: seq<Brick>)
    requires Into(cur, src) && b in cur
    requires cur' <= cur + {ZMove(b, -1)}
    ensures Into(cur', src)
  {
    forall k | k in cur' ensures exists j :: 0 <= j < |src| && Lowered(k, src[j]) {
      if k !in cur {
        var j :| 0 <= j < |src| && Lowered(b, src[j]);
        LoweredDrop(b, src[j]);
      }
    }
  }

  /** Replacing `b` by the brick one unit lower keeps a copy of every input brick. */
  lemma DropOnto(cur: set<Brick>, cur': set<Brick>, b: Brick, src: seq<Brick>)
    requires Onto(cur, src)
    requires ZMove(b, -1) in cur' && cur - {b} <= cur'
    ensures Onto(cur', src)
  {
    forall j | 0 <= j < |src| ensures exists k :: k in cur' && Lowered(k, src[j]) {
      var k :| k in cur && Lowered(k, src[j]);
      if k == b {
        LoweredDrop(b, src[j]);
      }
    }
  }

  /** A round either moves the last brick from the pile to the stopped ones or lowers it by one. */
  lemma RoundShape(moving: seq<Brick>, stopped: map<Brick, MinMax>, ba: BelowAbove)
    requires moving != [] && stopped.Keys == ba.Keys
    ensures var n := |moving| - 1;
            || (Round(moving, stopped, ba).0 == moving[..n] && Round(moving, stopped, ba).2.Keys == ba.Keys + {moving[n]})
            || (Round(moving, stopped, ba).0 == moving[..n] + [ZMove(moving[n], -1)] && Round(moving, stopped, ba).2.Keys == ba.Keys)
  {
  }

  /** What a round does to the current bricks: nothing, or one brick lowered by one. */
  lemma RoundCurrent(moving: seq<Brick>, stopped: map<Brick, MinMax>, ba: BelowAbove)
    requires moving != [] && stopped.Keys == ba.Keys
    ensures var cur, cur' := Current(ba.Keys, moving), Current(Round(moving, stopped, ba).2.Keys, Round(moving, stopped, ba).0);
            var b := moving[|moving| - 1];
            || cur' == cur
            || (b in cur && ZMove(b, -1) in cur' && cur' <= cur + {ZMove(b, -1)} && cur - {b} <= cur')
  {
    var n := |moving| - 1;
    var rest, b := moving[..n], moving[n];
    assert moving == rest + [b];
    assert (set x | x in moving) == (set x | x in rest) + {b};
    assert (set x | x in rest + [ZMove(b, -1)]) == (set x | x in rest) + {ZMove(b, -1)};
    RoundShape(moving, stopped, ba);
  }

  /** The rounds keep every current brick traced to an input brick. */
  lemma {:induction false} FallInto(moving: seq<Brick>, stopped: map<Brick, MinMax>, ba: BelowAbove, src: seq<Brick>)
    requires stopped.Keys == ba.Keys && Into(Current(ba.Keys, moving), src)
    ensures Into(Fall(moving, stopped, ba).Keys, src)
    decreases Weight(moving)
  {
    if moving == [] {
      assert Current(ba.Keys, moving) == ba.Keys;
    } else {
      var (moving', stopped', ba') := Round(moving, stopped, ba);
      RoundCurrent(moving, stopped, ba);
      var cur, cur' := Current(ba.Keys, moving), Current(ba'.Keys, moving');
      if cur' != cur {
        DropInto(cur, cur', moving[|moving| - 1], src);
      }
      FallInto(moving', stopped', ba', src);
    }
  }

  /** The rounds keep a current copy of every input brick. */
  lemma {:induction false} FallOnto(moving: seq<Brick>, stopped: map<Brick, MinMax>, ba: BelowAbove, src: seq<Brick>)
    requires stopped.Keys == ba.Keys && Onto(Current(ba.Keys, moving), src)
    ensures Onto(Fall(moving, stopped, ba).Keys, src)
    decreases Weight(moving)
  {
    if moving == [] {
      assert Current(ba.Keys, moving) == ba.Keys;
    } else {
      var (moving', stopped', ba') := Round(moving, stopped, ba);
      RoundCurrent(moving, stopped, ba);
      var cur, cur' := Current(ba.Keys, moving), Current(ba'.Keys, moving');
      if cur' != cur {
        DropOnto(cur, cur', moving[|moving| - 1], src);
      }
      FallOnto(moving', stopped', ba', src);
    }
  }

  /** Every brick `settle` returns is an input brick moved down by a whole number of steps. */
  lemma SettleLowered(bricks: seq<Brick>)
    ensures forall k :: k in Settled(bricks) ==> exists i :: 0 <= i < |bricks| && Lowered(k, bricks[i])
  {
    SortElems(bricks);
    var s := SortDown(bricks);
    var cur := Current({}, s);
    forall k | k in cur ensures exists j :: 0 <= j < |bricks| && Lowered(k, bricks[j]) {
      assert k in bricks;
      var j :| 0 <= j < |bricks| && bricks[j] == k;
      assert Lowered(k, bricks[j]);
    }
    FallInto(s, map[], map[], bricks);
  }

  /** Every input brick comes out of `settle` moved down by a whole number of steps. */
  lemma SettleKeeps(bricks: seq<Brick>)
    ensures forall i :: 0 <= i < |bricks| ==> exists k :: k in Settled(bricks) && Lowered(k, bricks[i])
  {
    StartOnto(bricks);
    FallOnto(SortDown(bricks), map[], map[], bricks);
    var ks := Settled(bricks).Keys;
    forall i | 0 <= i < |bricks| ensures exists k :: k in Settled(bricks) && Lowered(k, bricks[i]) {
      var k :| k in ks && Lowered(k, bricks[i]);
    }
  }

  lemma StartOnto(bricks: seq<Brick>)
    ensures Onto(Current({}, SortDown(bricks)), bricks)
  {
    SortElems(bricks);
    forall j | 0 <= j < |bricks| ensures exists k :: k in Current({}, SortDown(bricks)) && Lowered(k, bricks[j]) {
      assert bricks[j] in bricks;
      assert bricks[j] in Current({}, SortDown(bricks)) && Lowered(bricks[j], bricks[j]);
    }
  }

  /**
   * For a snapshot of bricks that share no cube and rest at z >= 1, `settle` keeps every
   * brick, and its below- and above-sets are each other's converse, name only settled bricks,
   * and hold exactly the bricks right under and right over each brick; a brick has no support
   * exactly when it lies on the floor.
   */
  lemma SettleSpec(bricks: seq<Brick>)
    requires Apart(bricks) && Grounded(bricks)
    ensures Supports(Settled(bricks))
    ensures |Settled(bricks).Keys| == |bricks|
  {
    SortSpec(bricks);
    SortApart(bricks);
    SortElems(bricks);
    var s := SortDown(bricks);
    assert |s| == |bricks| by {
      assert |multiset(s)| == |multiset(bricks)|;
    }
    forall i | 0 <= i < |s| ensures MinZ(s[i]) >= 1 {
      assert s[i] in bricks;
    }
    FallSpec(s, map[], map[]);
  }


  // ---------------------------------------------------------------------------------------
  // Disintegration

  /** The bricks that are the only support of some brick (`critical_bricks`). */
  function Critical(ba: BelowAbove): set<Brick>
  {
    set k, s | k in ba && s in ba[k].0 && |ba[k].0| == 1 :: s
  }

  /** `distintegratable`: the settled bricks that are nobody's only support. */
  function Disintegratable(ba: BelowAbove): set<Brick>
  {
    ba.Keys - Critical(ba)
  }

  lemma Singleton(c: set<Brick>, s: Brick)
    requires s in c && |c| == 1
    ensures c == {s}
  {
    assert |c - {s}| == 0;
  }

  /** A brick can be taken away exactly when no brick rests on it alone. */
  lemma DisintegratableSpec(ba: BelowAbove, b: Brick)
    ensures b in Disintegratable(ba) <==> b in ba && forall k :: k in ba ==> ba[k].0 != {b}
  {
    if b in ba && b !in Disintegratable(ba) {
      var k, s :| k in ba && s in ba[k].0 && |ba[k].0| == 1 && s == b;
      Singleton(ba[k].0, s);
    }
    if b in ba && exists k :: k in ba && ba[k].0 == {b} {
      var k :| k in ba && ba[k].0 == {b};
      assert b in ba[k].0 && |ba[k].0| == 1;
      assert b in Critical(ba);
    }
  }

  /** In a graph whose below- and above-sets agree, the same in terms of the bricks above `b`. */
  lemma DisintegratableAbove(ba: BelowAbove, b: Brick)
    requires Closed(ba) && Dual(ba) && b in ba
    ensures b in Disintegratable(ba) <==> forall a :: a in ba[b].1 ==> exists c :: c in ba[a].0 && c != b
  {
    DisintegratableSpec(ba, b);
    if b in Disintegratable(ba) {
      forall a | a in ba[b].1 ensures exists c :: c in ba[a].0 && c != b {
        assert b in ba[a].0 && ba[a].0 != {b};
        assert !(ba[a].0 <= {b});
      }
    } else {
      var k :| k in ba && ba[k].0 == {b};
      assert b in ba[k].0;
      assert k in ba[b].1 && forall c :: c in ba[k].0 ==> c == b;
    }
  }

  // ---------------------------------------------------------------------------------------
  // Chain reaction

  /** Once `brick` is gone, a supported brick whose supports all lie in `c` or are `brick` lies in `c`. */
  ghost predicate Closes(ba: BelowAbove, brick: Brick, c: set<Brick>)
  {
    forall s :: s in ba && ba[s].0 != {} && ba[s].0 <= c + {brick} ==> s in c
  }

  /** The bricks that fall when `brick` is taken away: those in every settled set that `Closes`. */
  ghost function Falling(ba: BelowAbove, brick: Brick): set<Brick>
  {
    set s | s in ba && forall c :: c <= ba.Keys && Closes(ba, brick, c) ==> s in c
  }

  /** A brick whose supports all fall, or are the one taken away, falls too. */
  lemma FallingCloses(ba: BelowAbove, brick: Brick)
    ensures Falling(ba, brick) <= ba.Keys && Closes(ba, brick, Falling(ba, brick))
  {
    var f := Falling(ba, brick);
    forall s | s in ba && ba[s].0 != {} && ba[s].0 <= f + {brick} ensures s in f {
      forall c | c <= ba.Keys && Closes(ba, brick, c) ensures s in c {
        assert f <= c;
      }
    }
  }

  /** Nothing else falls: every settled set that `Closes` holds all the falling bricks. */
  lemma FallingLeast(ba: BelowAbove, brick: Brick, c: set<Brick>)
    requires c <= ba.Keys && Closes(ba, brick, c)
    ensures Falling(ba, brick) <= c
  {
  }

  /** The empty set closes exactly when no brick rests on `b` alone. */
  lemma ClosesEmpty(ba: BelowAbove, b: Brick)
    ensures Closes(ba, b, {}) <==> forall k :: k in ba ==> ba[k].0 != {b}
  {
    if !Closes(ba, b, {}) {
      var s :| s in ba && ba[s].0 != {} && ba[s].0 <= {} + {b};
      var t :| t in ba[s].0;
      assert ba[s].0 == {b};
    }
    if exists k :: k in ba && ba[k].0 == {b} {
      var k :| k in ba && ba[k].0 == {b};
      assert b in ba[k].0;
    }
  }

  /** Nothing falls exactly when the empty set closes. */
  lemma FallingEmpty(ba: BelowAbove, b: Brick)
    ensures Falling(ba, b) == {} <==> Closes(ba, b, {})
  {
    FallingCloses(ba, b);
    if Closes(ba, b, {}) {
      FallingLeast(ba, b, {});
    }
  }

  /** Taking a brick away makes nothing fall exactly when it is disintegratable. */
  lemma DisintegratableFalls(ba: BelowAbove, b: Brick)
    requires b in ba
    ensures b in Disintegratable(ba) <==> Falling(ba, b) == {}
  {
    DisintegratableSpec(ba, b);
    ClosesEmpty(ba, b);
    FallingEmpty(ba, b);
  }

  function Members(s: seq<Brick>): set<Brick>
  {
    set x | x in s
  }

  /** `chain_reaction` may look at the graph: its sets name settled bricks and agree, and `brick` is settled. */
  ghost predicate Good(ba: BelowAbove, brick: Brick)
  {
    Closed(ba) && Dual(ba) && brick in ba
  }

  /** The bricks above `r` are exactly those that `r` supports. */
  ghost predicate Supported(ba: BelowAbove, r: Brick)
    requires r in ba
  {
    ba[r].1 <= ba.Keys && forall s :: s in ba ==> (r in ba[s].0 <==> s in ba[r].1)
  }

  lemma GoodSupported(ba: BelowAbove, brick: Brick, r: Brick)
    requires Good(ba, brick) && r in ba
    ensures Supported(ba, r)
  {
  }

  /**
   * What `chain_reaction` knows at the top of its loop, `popped` being the bricks already
   * taken off `jobs` and `f` a set of bricks that closes: the copy lost exactly the popped
   * bricks from its below-sets, the jobs and the popped bricks are `brick` and the falling
   * ones, the falling bricks lie in `f`, and every supported brick whose supports were all
   * popped is falling.
   */
  ghost predicate Chain(ba: BelowAbove, brick: Brick, f: set<Brick>, cba: BelowAbove, popped: set<Brick>,
                        jobs: seq<Brick>, falling: set<Brick>)
  {
    cba.Keys == ba.Keys &&
    (forall k :: k in cba ==> cba[k] == (ba[k].0 - popped, ba[k].1)) &&
    Members(jobs) <= falling + {brick} && popped <= falling + {brick} &&
    falling + {brick} <= popped + Members(jobs) &&
    falling <= f &&
    forall s :: s in ba && ba[s].0 != {} && ba[s].0 <= popped ==> s in falling
  }

  /** The invariant of `Relieve`'s loop, `todo` being the bricks of `above` not yet relieved. */
  ghost predicate Relieving(ba: BelowAbove, brick: Brick, f: set<Brick>, cba: BelowAbove, popped: set<Brick>,
                            removed: Brick, above: set<Brick>, todo: set<Brick>, jobs: seq<Brick>, falling: set<Brick>)
  {
    removed in ba && above == ba[removed].1 && Supported(ba, removed) &&
    cba.Keys == ba.Keys &&
    (forall k :: k in cba ==>
       cba[k].1 == ba[k].1 &&
       cba[k].0 == ba[k].0 - (if k in above && k !in todo then popped + {removed} else popped)) &&
    Members(jobs) <= falling + {brick} && popped + {removed} <= falling + {brick} &&
    falling + {brick} <= popped + {removed} + Members(jobs) &&
    falling <= f &&
    forall s :: s in ba && ba[s].0 != {} && ba[s].0 <= popped + {removed} ==> s in falling || s in todo
  }

  lemma PopMembers(stack: seq<Brick>)
    requires stack != []
    ensures Members(stack) == Members(stack[..|stack| - 1]) + {stack[|stack| - 1]}
  {
    assert stack == stack[..|stack| - 1] + [stack[|stack| - 1]];
  }

  lemma RelieveStart(ba: BelowAbove, brick: Brick, f: set<Brick>, cba: BelowAbove, popped: set<Brick>,
                     stack: seq<Brick>, falling: set<Brick>)
    requires stack != [] && stack[|stack| - 1] in ba && Supported(ba, stack[|stack| - 1])
    requires Chain(ba, brick, f, cba, popped, stack, falling)
    ensures var removed := stack[|stack| - 1];
            Relieving(ba, brick, f, cba, popped, removed, ba[removed].1, ba[removed].1, stack[..|stack| - 1], falling)
  {
    var removed := stack[|stack| - 1];
    PopMembers(stack);
    forall s | s in ba && ba[s].0 != {} && ba[s].0 <= popped + {removed}
      ensures s in falling || s in ba[removed].1
    {
      if !(ba[s].0 <= popped) {
        assert removed in ba[s].0;
      }
    }
  }

  lemma RelieveStep(ba: BelowAbove, brick: Brick, f: set<Brick>, cba: BelowAbove, popped: set<Brick>,
                    removed: Brick, above: set<Brick>, todo: set<Brick>, jobs: seq<Brick>, falling: set<Brick>,
                    s: Brick)
    requires Relieving(ba, brick, f, cba, popped, removed, above, todo, jobs, falling)
    requires Closes(ba, brick, f) && s in todo && todo <= above && s in cba
    ensures var nb := cba[s].0 - {removed};
            Relieving(ba, brick, f, cba[s := (nb, cba[s].1)], popped, removed, above, todo - {s},
                      if nb == {} then jobs + [s] else jobs, if nb == {} then falling + {s} else falling)
  {
    var nb := cba[s].0 - {removed};
    assert nb == ba[s].0 - (popped + {removed});
    assert Members(jobs + [s]) == Members(jobs) + {s};
    if nb == {} {
      assert removed in ba[s].0;
    }
  }

  lemma RelieveEnd(ba: BelowAbove, brick: Brick, f: set<Brick>, cba: BelowAbove, popped: set<Brick>,
                   removed: Brick, above: set<Brick>, jobs: seq<Brick>, falling: set<Brick>)
    requires Relieving(ba, brick, f, cba, popped, removed, above, {}, jobs, falling)
    ensures Chain(ba, brick, f, cba, popped + {removed}, jobs, falling)
  {
    forall k | k in cba ensures cba[k] == (ba[k].0 - (popped + {removed}), ba[k].1) {
      if k !in above {
        assert removed !in ba[k].0;
        assert ba[k].0 - popped == ba[k].0 - (popped + {removed});
      }
    }
  }

  /**
   * The inner loop of `chain_reaction`: `removed`, just popped, is dropped from the below-set
   * of every brick in `above`; a brick left without support falls and becomes a job.
   */
  method Relieve(cba: BelowAbove, removed: Brick, above: set<Brick>, jobs: seq<Brick>, falling: set<Brick>,
                 ghost ba: BelowAbove, ghost brick: Brick, ghost f: set<Brick>, ghost popped: set<Brick>,
                 ghost good: bool)
    returns (r: Result<(BelowAbove, seq<Brick>, set<Brick>), BrickError>)
    requires cba.Keys == ba.Keys
    requires good ==> Closes(ba, brick, f) && Relieving(ba, brick, f, cba, popped, removed, above, above, jobs, falling)
    ensures r.Ok? ==> r.value.0.Keys == ba.Keys
    ensures good ==> r.Ok? && Chain(ba, brick, f, r.value.0, popped + {removed}, r.value.1, r.value.2)
  {
    var c, js, fs := cba, jobs, falling;
    var todo := above;
    while todo != {}
      invariant todo <= above && c.Keys == ba.Keys
      invariant good ==> Relieving(ba, brick, f, c, popped, removed, above, todo, js, fs)
      decreases |todo|
    {
      var s :| s in todo;
      if s !in c {
        return Err(MissingBrick(s));
      }
      var nb := c[s].0 - {removed};
      if good {
        RelieveStep(ba, brick, f, c, popped, removed, above, todo, js, fs, s);
      }
      c := c[s := (nb, c[s].1)];
      if nb == {} {
        fs := fs + {s};
        js := js + [s];
      }
      todo := todo - {s};
    }
    if good {
      RelieveEnd(ba, brick, f, c, popped, removed, above, js, fs);
    }
    return Ok((c, js, fs));
  }

  /**
   * `chain_reaction`: the bricks that fall when `brick` is taken away, for a graph whose sets
   * name settled bricks and agree. The loop runs at most `fuel` rounds.
   */
  method ChainReaction(ba: BelowAbove, brick: Brick, fuel: nat) returns (r: Result<set<Brick>, BrickError>)
    ensures Good(ba, brick) && r.Ok? ==> r.value == Falling(ba, brick)
    ensures Good(ba, brick) && r.Err? ==> r.error == OutOfFuel
    ensures 0 < fuel && brick !in ba ==> r == Err(MissingBrick(brick))
  {
    var cba := ba;
    var jobs := [brick];
    var falling := {};
    ghost var popped := {};
    ghost var good := Good(ba, brick);
    ghost var f := Falling(ba, brick);
    FallingCloses(ba, brick);
    if good {
      ChainStart(ba, brick, f);
    }
    var rounds := 0;
    while jobs != []
      invariant cba.Keys == ba.Keys && rounds <= fuel
      invariant good ==> Chain(ba, brick, f, cba, popped, jobs, falling)
      invariant rounds == 0 ==> jobs == [brick]
      invariant 0 < rounds ==> brick in ba
      decreases fuel - rounds
    {
      if rounds == fuel {
        return Err(OutOfFuel);
      }
      rounds := rounds + 1;
      var res := ChainRound(cba, jobs, falling, ba, brick, f, popped, good);
      if res.Err? {
        return Err(res.error);
      }
      popped := popped + {jobs[|jobs| - 1]};
      cba, jobs, falling := res.value.0, res.value.1, res.value.2;
    }
    if good {
      ChainEnd(ba, brick, f, cba, popped, falling);
    }
    return Ok(falling);
  }

  /** One round of `chain_reaction`'s loop: pop the last job and relieve the bricks it held up. */
  method ChainRound(cba: BelowAbove, jobs: seq<Brick>, falling: set<Brick>,
                    ghost ba: BelowAbove, ghost brick: Brick, ghost f: set<Brick>, ghost popped: set<Brick>,
                    ghost good: bool)
    returns (r: Result<(BelowAbove, seq<Brick>, set<Brick>), BrickError>)
    requires jobs != [] && cba.Keys == ba.Keys
    requires good ==> Good(ba, brick) && f == Falling(ba, brick) && Chain(ba, brick, f, cba, popped, jobs, falling)
    ensures r.Ok? ==> r.value.0.Keys == ba.Keys && jobs[|jobs| - 1] in ba
    ensures jobs[|jobs| - 1] !in ba ==> r == Err(MissingBrick(jobs[|jobs| - 1]))
    ensures good ==> r.Ok? && Chain(ba, brick, f, r.value.0, popped + {jobs[|jobs| - 1]}, r.value.1, r.value.2)
  {
    var removed := jobs[|jobs| - 1];
    if good {
      JobsSettled(ba, brick, f, cba, popped, jobs, falling);
    }
    if removed !in cba {
      return Err(MissingBrick(removed));
    }
    var above, rest := cba[removed].1, jobs[..|jobs| - 1];
    if good {
      RoundStart(ba, brick, f, cba, popped, jobs, falling);
      assert above == ba[removed].1;
    }
    r := Relieve(cba, removed, above, rest, falling, ba, brick, f, popped, good);
  }

  /** Every job is a settled brick. */
  lemma JobsSettled(ba: BelowAbove, brick: Brick, f: set<Brick>, cba: BelowAbove, popped: set<Brick>,
                    jobs: seq<Brick>, falling: set<Brick>)
    requires jobs != []
    requires Good(ba, brick) && f == Falling(ba, brick) && Chain(ba, brick, f, cba, popped, jobs, falling)
    ensures jobs[|jobs| - 1] in ba
  {
    assert jobs[|jobs| - 1] in Members(jobs);
  }

  lemma RoundStart(ba: BelowAbove, brick: Brick, f: set<Brick>, cba: BelowAbove, popped: set<Brick>,
                   jobs: seq<Brick>, falling: set<Brick>)
    requires jobs != [] && jobs[|jobs| - 1] in ba
    requires Good(ba, brick) && f == Falling(ba, brick) && Chain(ba, brick, f, cba, popped, jobs, falling)
    ensures var removed := jobs[|jobs| - 1];
            Closes(ba, brick, f) &&
            Relieving(ba, brick, f, cba, popped, removed, ba[removed].1, ba[removed].1, jobs[..|jobs| - 1], falling)
  {
    FallingCloses(ba, brick);
    GoodSupported(ba, brick, jobs[|jobs| - 1]);
    RelieveStart(ba, brick, f, cba, popped, jobs, falling);
  }

  lemma ChainStart(ba: BelowAbove, brick: Brick, f: set<Brick>)
    ensures Chain(ba, brick, f, ba, {}, [brick], {})
  {
    assert Members([brick]) == {brick};
    forall k | k in ba ensures ba[k] == (ba[k].0 - {}, ba[k].1) {
      assert ba[k].0 - {} == ba[k].0;
    }
  }

  lemma ChainEnd(ba: BelowAbove, brick: Brick, f: set<Brick>, cba: BelowAbove, popped: set<Brick>, falling: set<Brick>)
    requires f == Falling(ba, brick) && Chain(ba, brick, f, cba, popped, [], falling)
    ensures falling == Falling(ba, brick)
  {
    assert Members([]) == {};
    FallingCloses(ba, brick);
    FallingLeast(ba, brick, falling);
  }

  // ---------------------------------------------------------------------------------------
  // Chainable

  /** The number of bricks that fall, summed over the bricks of `bs` each taken away on its own. */
  ghost function Total(ba: BelowAbove, bs: set<Brick>): nat
  {
    if bs == {} then 0
    else
      var b :| b in bs;
      |Falling(ba, b)| + Total(ba, bs - {b})
  }

  lemma SupportsGood(ba: BelowAbove, b: Brick)
    requires Supports(ba) && b in ba
    ensures Good(ba, b)
  {
  }

  /** `Total` does not depend on the order it takes the bricks in. */
  lemma TotalRemove(ba: BelowAbove, bs: set<Brick>, b: Brick)
    requires b in bs
    ensures Total(ba, bs) == |Falling(ba, b)| + Total(ba, bs - {b})
    decreases |bs|
  {
    var a :| a in bs && Total(ba, bs) == |Falling(ba, a)| + Total(ba, bs - {a});
    if a != b {
      TotalRemove(ba, bs - {a}, b);
      TotalRemove(ba, bs - {b}, a);
      assert bs - {a} - {b} == bs - {b} - {a};
    }
  }

  /**
   * `chainable`: for a snapshot of bricks that share no cube and rest at z >= 1, the number of
   * bricks that fall, summed over the bricks that are not disintegratable, each taken away on its own.
   */
  method Chainable(bricks: seq<Brick>, fuel: nat) returns (r: Result<nat, BrickError>)
    ensures Apart(bricks) && Grounded(bricks) && r.Ok? ==>
      r.value == Total(Settled(bricks), Settled(bricks).Keys - Disintegratable(Settled(bricks)))
    ensures Apart(bricks) && Grounded(bricks) && r.Err? ==> r.error == OutOfFuel
  {
    var ba := Settle(bricks);
    ghost var ok := Apart(bricks) && Grounded(bricks);
    if ok {
      SettleSpec(bricks);
    }
    r := SumFalling(ba, ba.Keys - Disintegratable(ba), fuel, ok);
  }

  /** The loop of `chainable`: the falling counts of the bricks in `todo`, added up. */
  method SumFalling(ba: BelowAbove, todo: set<Brick>, fuel: nat, ghost ok: bool) returns (r: Result<nat, BrickError>)
    requires todo <= ba.Keys
    requires ok ==> Supports(ba)
    ensures ok && r.Ok? ==> r.value == Total(ba, todo)
    ensures ok && r.Err? ==> r.error == OutOfFuel
  {
    var left := todo;
    var total: nat := 0;
    while left != {}
      invariant left <= todo
      invariant ok ==> total + Total(ba, left) == Total(ba, todo)
      decreases |left|
    {
      var b :| b in left;
      if ok {
        SupportsGood(ba, b);
      }
      var falling := ChainReaction(ba, b, fuel);
      if falling.Err? {
        return Err(falling.error);
      }
      TotalRemove(ba, left, b);
      total := total + |falling.value|;
      left := left - {b};
    }
    return Ok(total);
  }
}
