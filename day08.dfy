/**
 * Haunted Wasteland: walking a network of (left, right) nodes by a cyclic list of directions
 * until a destination node is reached, and the least common multiple of several walk lengths.
 */
module Wasteland {
  import opened Wrappers

  /** Each node name maps to its (left, right) successors. */
  type Network = map<string, (string, string)>

  datatype WalkError =
    | UnknownNode(name: string)  // `nodes[name]` raises KeyError
    | Trapped(name: string)      // both successors of the node are the node itself
    | NoDirections               // `i % len(directions)` with no directions
    | OutOfFuel                  // the walk is longer than the step bound given
    | NoValues                   // `lcm()` of nothing reads `values[0]`
    | ZeroGcd                    // `math.gcd(0, 0)` is 0, and the floor division raises

  /** `direction_idx`: 'L' picks the left successor, anything else the right one. */
  function DirectionIndex(c: char): (r: nat)
    ensures r < 2 && (r == 0 <==> c == 'L')
  {
    if c == 'L' then 0 else 1
  }

  /** One move from `node` at direction counter i; Python's `%` floors, as Dafny's does here. */
  function Step(nodes: Network, node: string, directions: string, i: int): string
    requires node in nodes && directions != []
  {
    if DirectionIndex(directions[i % |directions|]) == 0 then nodes[node].0 else nodes[node].1
  }

  /**
   * The loop of `navigate` from `node` with counter i, allowed `fuel` more moves: the counter
   * and node at the first destination, or the error that stops it.
   */
  function Walk(nodes: Network, node: string, dest: set<string>, directions: string, i: int, fuel: nat)
    : Result<(int, string), WalkError>
    decreases fuel
  {
    if node in dest then Ok((i, node))
    else if node !in nodes then Err(UnknownNode(node))
    else if nodes[node].0 == node && nodes[node].1 == node then Err(Trapped(node))
    else if directions == [] then Err(NoDirections)
    else if fuel == 0 then Err(OutOfFuel)
    else Walk(nodes, Step(nodes, node, directions, i), dest, directions, i + 1, fuel - 1)
  }

  /** `navigate`, with at most `fuel` moves. */
  method Navigate(nodes: Network, src: string, dest: set<string>, directions: string, startDir: int, fuel: nat)
    returns (r: Result<(int, string), WalkError>)
    ensures r == Walk(nodes, src, dest, directions, startDir, fuel)
  {
    var i := startDir;
    var lastVisited := src;
    var left := fuel;
    while lastVisited !in dest
      invariant Walk(nodes, lastVisited, dest, directions, i, left) == Walk(nodes, src, dest, directions, startDir, fuel)
      decreases left
    {
      if lastVisited !in nodes {
        return Err(UnknownNode(lastVisited));
      }
      var lr := nodes[lastVisited];
      if lr.0 == lastVisited && lr.1 == lastVisited {
        return Err(Trapped(lastVisited));
      }
      if |directions| == 0 {
        return Err(NoDirections);
      }
      if left == 0 {
        return Err(OutOfFuel);
      }
      var next := DirectionIndex(directions[i % |directions|]);
      lastVisited := if next == 0 then lr.0 else lr.1;
      i := i + 1;
      left := left - 1;
    }
    return Ok((i, lastVisited));
  }

  /** Where k moves lead from `node`, ignoring destinations; None at an unknown node. */
  function Follow(nodes: Network, node: string, directions: string, i: int, k: nat): Option<string>
    decreases k
  {
    if k == 0 then Some(node)
    else if node !in nodes || directions == [] then None
    else Follow(nodes, Step(nodes, node, directions, i), directions, i + 1, k - 1)
  }

  /**
   * A successful walk ends at the first destination its moves reach: the counter has grown by
   * the number of moves, and no earlier position was a destination.
   */
  lemma {:induction false} WalkArrives(nodes: Network, node: string, dest: set<string>, directions: string,
                                       i: int, fuel: nat)
    requires Walk(nodes, node, dest, directions, i, fuel).Ok?
    ensures var (j, last) := Walk(nodes, node, dest, directions, i, fuel).value;
      && i <= j <= i + fuel && last in dest
      && Follow(nodes, node, directions, i, j - i) == Some(last)
      && forall k :: 0 <= k < j - i ==>
           Follow(nodes, node, directions, i, k).Some? && Follow(nodes, node, directions, i, k).value !in dest
    decreases fuel
  {
    if node !in dest {
      var next := Step(nodes, node, directions, i);
      WalkArrives(nodes, next, dest, directions, i + 1, fuel - 1);
      var j := Walk(nodes, node, dest, directions, i, fuel).value.0;
      forall k | 0 <= k < j - i
        ensures Follow(nodes, node, directions, i, k).Some? && Follow(nodes, node, directions, i, k).value !in dest
      {
        if k > 0 {
          assert Follow(nodes, node, directions, i, k) == Follow(nodes, next, directions, i + 1, k - 1);
        }
      }
    }
  }

  /** A trapped node is a dead end: every number of moves from it stays on it. */
  lemma {:induction false} TrappedStays(nodes: Network, node: string, directions: string, i: int, k: nat)
    requires node in nodes && nodes[node] == (node, node) && directions != []
    ensures Follow(nodes, node, directions, i, k) == Some(node)
    decreases k
  {
    if k > 0 {
      TrappedStays(nodes, node, directions, i + 1, k - 1);
    }
  }

  /** A walk reports a trap only at a reachable node, not a destination, that leads only to itself. */
  lemma {:induction false} WalkTrapped(nodes: Network, node: string, dest: set<string>, directions: string,
                                       i: int, fuel: nat)
    requires Walk(nodes, node, dest, directions, i, fuel).Err?
    requires Walk(nodes, node, dest, directions, i, fuel).error.Trapped?
    ensures var n := Walk(nodes, node, dest, directions, i, fuel).error.name;
      && n in nodes && nodes[n] == (n, n) && n !in dest
      && exists k :: 0 <= k <= fuel && Follow(nodes, node, directions, i, k) == Some(n)
    decreases fuel
  {
    var n := Walk(nodes, node, dest, directions, i, fuel).error.name;
    if nodes[node].0 == node && nodes[node].1 == node {
      assert Follow(nodes, node, directions, i, 0) == Some(n);
    } else {
      var next := Step(nodes, node, directions, i);
      WalkTrapped(nodes, next, dest, directions, i + 1, fuel - 1);
      var k :| 0 <= k <= fuel - 1 && Follow(nodes, next, directions, i + 1, k) == Some(n);
      assert Follow(nodes, node, directions, i, k + 1) == Some(n);
    }
  }

  // ---------------------------------------------------------------------------------------
  // Least common multiple

  function Abs(x: int): nat { if x < 0 then -x else x }

  /** `math.gcd` on non-negative numbers, by Euclid's algorithm. */
  function Gcd(a: nat, b: nat): nat
    decreases b
  {
    if b == 0 then a else Gcd(b, a % b)
  }

  ghost predicate Divides(d: int, n: int)
  {
    exists q :: n == q * d
  }

  lemma DividesSum(d: int, x: int, y: int, k: int)
    requires Divides(d, x) && Divides(d, y)
    ensures Divides(d, k * x + y)
  {
    var qx :| x == qx * d;
    var qy :| y == qy * d;
    assert k * x + y == (k * qx + qy) * d;
  }

  /** The gcd divides both numbers, and is positive unless both are 0. */
  lemma {:induction false} GcdDivides(a: nat, b: nat)
    ensures Divides(Gcd(a, b), a) && Divides(Gcd(a, b), b)
    ensures a > 0 || b > 0 ==> Gcd(a, b) > 0
    decreases b
  {
    if b == 0 {
      assert a == 1 * a && b == 0 * a;
    } else {
      GcdDivides(b, a % b);
      DividesSum(Gcd(a, b), b, a % b, a / b);
    }
  }

  /** One step of `lcm`: `abs(result * v) // math.gcd(result, v)`. */
  function LcmStep(result: int, v: int): Result<int, WalkError>
  {
    var g := Gcd(Abs(result), Abs(v));
    if g == 0 then Err(ZeroGcd) else Ok(Abs(result * v) / g)
  }

  function LcmFrom(result: int, rest: seq<int>): Result<int, WalkError>
    decreases |rest|
  {
    if rest == [] then Ok(result)
    else match LcmStep(result, rest[0])
      case Err(e) => Err(e)
      case Ok(next) => LcmFrom(next, rest[1..])
  }

  /** `lcm(*values)`: the first value, combined with each further value in turn. */
  function LcmOf(values: seq<int>): Result<int, WalkError>
  {
    if values == [] then Err(NoValues) else LcmFrom(values[0], values[1..])
  }

  /** `lcm`, accumulating `result` in a loop. */
  method Lcm(values: seq<int>) returns (r: Result<int, WalkError>)
    ensures r == LcmOf(values)
  {
    if |values| == 0 {
      return Err(NoValues);
    }
    var result := values[0];
    for i := 1 to |values|
      invariant LcmFrom(result, values[i..]) == LcmOf(values)
    {
      assert values[i..][1..] == values[i + 1..];
      var g := Gcd(Abs(result), Abs(values[i]));
      if g == 0 {
        return Err(ZeroGcd);
      }
      result := Abs(result * values[i]) / g;
    }
    return Ok(result);
  }

  predicate AllPositive(values: seq<int>)
  {
    forall k :: 0 <= k < |values| ==> values[k] > 0
  }

  /** With positive numbers, one step gives a positive common multiple of both. */
  lemma LcmStepMultiple(a: int, v: int)
    requires a > 0 && v > 0
    ensures LcmStep(a, v).Ok? && LcmStep(a, v).value > 0
    ensures Divides(a, LcmStep(a, v).value) && Divides(v, LcmStep(a, v).value)
  {
    var g := Gcd(a, v);
    GcdDivides(a, v);
    var qa :| a == qa * g;
    var qv :| v == qv * g;
    PositiveFactor(qv, g, v);
    PositiveProduct(a, v);
    PositiveProduct(a, qv);
    Regroup(a, qv, g);
    DivExact(a * v, g, a * qv);
    Regroup(qa, g, qv);
    assert a * qv == qa * v;
    assert a * qv == qv * a;
  }

  lemma Regroup(x: int, y: int, z: int)
    ensures x * (y * z) == (x * y) * z && (x * y) * z == x * (z * y)
  {
  }

  lemma PositiveProduct(x: int, y: int)
    requires x > 0 && y > 0
    ensures x * y > 0
  {
  }

  lemma AtLeastOnce(t: int, g: int)
    requires t >= 1 && g > 0
    ensures t * g >= g
  {
  }

  lemma PositiveFactor(q: int, g: int, x: int)
    requires g > 0 && x > 0 && x == q * g
    ensures q > 0
  {
    if q <= 0 {
      NonPositiveProduct(q, g);
    }
  }

  lemma NonPositiveProduct(q: int, g: int)
    requires q <= 0 && g > 0
    ensures q * g <= 0
  {
  }

  /** Division undoes an exact multiplication. */
  lemma DivExact(x: int, g: int, q: int)
    requires g > 0 && x == q * g
    ensures x / g == q
  {
    var d := x / g;
    var r := x % g;
    assert x == d * g + r;
    assert (d - q) * g == -r;
    SmallMultiple(d - q, g, -r);
  }

  lemma SmallMultiple(t: int, g: int, y: int)
    requires g > 0 && t * g == y && -g < y <= 0
    ensures t == 0
  {
    if t > 0 {
      AtLeastOnce(t, g);
    } else if t < 0 {
      AtLeastOnce(-t, g);
    }
  }

  lemma DividesTrans(d: int, m: int, n: int)
    requires Divides(d, m) && Divides(m, n)
    ensures Divides(d, n)
  {
    var q1 :| m == q1 * d;
    var q2 :| n == q2 * m;
    assert n == (q2 * q1) * d;
  }

  ghost predicate DividesAll(s: seq<int>, n: int)
  {
    forall k :: 0 <= k < |s| ==> Divides(s[k], n)
  }

  lemma DividesAllCons(s: seq<int>, n: int)
    requires s != [] && Divides(s[0], n) && DividesAll(s[1..], n)
    ensures DividesAll(s, n)
  {
    forall k | 1 <= k < |s| ensures Divides(s[k], n) {
      assert s[1..][k - 1] == s[k];
    }
  }

  lemma {:induction false} LcmFromMultiple(result: int, rest: seq<int>)
    requires result > 0 && AllPositive(rest)
    ensures LcmFrom(result, rest).Ok? && LcmFrom(result, rest).value > 0
    ensures Divides(result, LcmFrom(result, rest).value)
    ensures DividesAll(rest, LcmFrom(result, rest).value)
    decreases |rest|
  {
    if rest == [] {
      assert result == 1 * result;
    } else {
      LcmStepMultiple(result, rest[0]);
      var next := LcmStep(result, rest[0]).value;
      assert AllPositive(rest[1..]);
      LcmFromMultiple(next, rest[1..]);
      var r := LcmFrom(next, rest[1..]).value;
      DividesTrans(result, next, r);
      DividesTrans(rest[0], next, r);
      DividesAllCons(rest, r);
    }
  }

  /**
   * For positive numbers, `lcm` is a positive multiple of every one of them, and the lcm of
   * one number is that number.
   */
  lemma LcmMultiple(values: seq<int>)
    requires values != [] && AllPositive(values)
    ensures LcmOf(values).Ok? && LcmOf(values).value > 0
    ensures DividesAll(values, LcmOf(values).value)
    ensures |values| == 1 ==> LcmOf(values).value == values[0]
  {
    LcmFromMultiple(values[0], values[1..]);
    DividesAllCons(values, LcmOf(values).value);
  }

  // ---------------------------------------------------------------------------------------
  // All walks at once

  /** The step counts of the walks from every start, or the first walk's error. */
  function Phases(nodes: Network, starts: seq<string>, dest: set<string>, directions: string, fuel: nat)
    : (r: Result<seq<int>, WalkError>)
    ensures r.Ok? ==> |r.value| == |starts| && forall k :: 0 <= k < |starts| ==>
      Walk(nodes, starts[k], dest, directions, 0, fuel).Ok? &&
      r.value[k] == Walk(nodes, starts[k], dest, directions, 0, fuel).value.0
    ensures r.Err? <==> exists k :: 0 <= k < |starts| && Walk(nodes, starts[k], dest, directions, 0, fuel).Err?
  {
    if starts == [] then Ok([])
    else
      var n := |starts| - 1;
      assert forall k :: 0 <= k < n ==> starts[..n][k] == starts[k];
      match Phases(nodes, starts[..n], dest, directions, fuel)
      case Err(e) => Err(e)
      case Ok(ps) =>
        match Walk(nodes, starts[n], dest, directions, 0, fuel)
        case Err(e) => Err(e)
        case Ok(w) => Ok(ps + [w.0])
  }

  /**
   * `navigate_all`: walk from every start (in the order the set is enumerated) and take the lcm
   * of the step counts.
   */
  method NavigateAll(nodes: Network, starts: seq<string>, dest: set<string>, directions: string, fuel: nat)
    returns (r: Result<int, WalkError>)
    ensures match Phases(nodes, starts, dest, directions, fuel)
      case Err(e) => r == Err(e)
      case Ok(ps) => r == LcmOf(ps)
  {
    var phases: seq<int> := [];
    for k := 0 to |starts|
      invariant Phases(nodes, starts[..k], dest, directions, fuel) == Ok(phases)
    {
      assert starts[..k + 1][..k] == starts[..k];
      var w := Navigate(nodes, starts[k], dest, directions, 0, fuel);
      if w.Err? {
        assert Phases(nodes, starts[..k + 1], dest, directions, fuel) == Err(w.error);
        PhasesFail(nodes, starts, dest, directions, fuel, k + 1, w.error);
        return Err(w.error);
      }
      phases := phases + [w.value.0];
    }
    assert starts[..|starts|] == starts;
    r := Lcm(phases);
  }

  /** An error in the walks from a prefix of the starts is the error of all of them. */
  lemma {:induction false} PhasesFail(nodes: Network, starts: seq<string>, dest: set<string>, directions: string,
                                      fuel: nat, k: nat, e: WalkError)
    requires k <= |starts| && Phases(nodes, starts[..k], dest, directions, fuel) == Err(e)
    ensures Phases(nodes, starts, dest, directions, fuel) == Err(e)
    decreases |starts| - k
  {
    if k < |starts| {
      assert starts[..k + 1][..k] == starts[..k];
      PhasesFail(nodes, starts, dest, directions, fuel, k + 1, e);
    } else {
      assert starts[..k] == starts;
    }
  }

  /** When every walk takes at least one step, the answer is a multiple of every walk's length. */
  lemma NavigateAllMultiple(nodes: Network, starts: seq<string>, dest: set<string>, directions: string, fuel: nat)
    requires starts != []
    requires Phases(nodes, starts, dest, directions, fuel).Ok?
    requires AllPositive(Phases(nodes, starts, dest, directions, fuel).value)
    ensures var ps := Phases(nodes, starts, dest, directions, fuel).value;
      LcmOf(ps).Ok? && LcmOf(ps).value > 0 && DividesAll(ps, LcmOf(ps).value)
  {
    LcmMultiple(Phases(nodes, starts, dest, directions, fuel).value);
  }
}
