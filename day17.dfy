/**
 * Clumsy crucible (day17): a uniform-cost search over (block, last direction) states, each move
 * going straight for a bounded number of blocks and then turning, with a priority frontier that
 * replaces an entry by marking it removed and queuing a cheaper one.
 */
module Crucible {
  import opened Wrappers
  import Text

  /** A block (x, y) or a direction; y grows downwards. */
  type Vec = (int, int)

  /** A search state: a block and the index into `Directions` of the last move, -1 before the first. */
  type Node = (Vec, int)

  /** The marker `update` writes into a replaced heap entry. */
  const Removed: Node := ((-1, -1), -1)

  const Directions: seq<Vec> := [(1, 0), (0, 1), (-1, 0), (0, -1)]

  // The frontier.

  /** Python's order on nodes: tuples compare lexicographically. */
  predicate NodeBefore(a: Node, b: Node)
  {
    a.0.0 < b.0.0 || (a.0.0 == b.0.0 && (a.0.1 < b.0.1 || (a.0.1 == b.0.1 && a.1 < b.1)))
  }

  /** The heap's order on entries `[cost, node]`: by cost, then by node. */
  predicate Before(a: (int, Node), b: (int, Node))
  {
    a.0 < b.0 || (a.0 == b.0 && NodeBefore(a.1, b.1))
  }

  /** The heap order is a strict total order, so the least entry is unique. */
  lemma BeforeOrder(a: (int, Node), b: (int, Node), c: (int, Node))
    ensures !Before(a, a)
    ensures a != b ==> Before(a, b) || Before(b, a)
    ensures Before(a, b) ==> !Before(b, a)
    ensures Before(a, b) && Before(b, c) ==> Before(a, c)
  {
  }

  /** Entry `e` is a live entry of `nodes` and comes before every other live entry. */
  predicate Least(nodes: map<Node, int>, e: (int, Node))
  {
    && e.1 in nodes && e.0 == nodes[e.1]
    && forall n :: n in nodes && n != e.1 ==> Before(e, (nodes[n], n))
  }

  /**
   * Entry `e` is a live entry of `nodes` and no live entry costs less. `update` rewrites an
   * entry inside the heap, which keeps the heap ordered by cost but not by node, so among
   * entries of equal cost `heappop` may yield any one.
   */
  predicate Cheapest(nodes: map<Node, int>, e: (int, Node))
  {
    && e.1 in nodes && e.0 == nodes[e.1]
    && forall n :: n in nodes ==> e.0 <= nodes[n]
  }

  /**
   * The removed entries left in the heap once a live entry of cost `c` is popped: those below
   * `c` came out before it, those above `c` all stay, and of those costing `c` any may stay.
   */
  ghost predicate Popped(stale: seq<int>, stale2: seq<int>, c: int)
  {
    && multiset(stale2) <= multiset(stale)
    && (forall x :: x in stale2 ==> x >= c)
    && (forall x :: x > c ==> multiset(stale2)[x] == multiset(stale)[x])
  }

  /** The removed entries costing more than `c`, in order. */
  function Above(stale: seq<int>, c: int): (r: seq<int>)
    ensures forall x :: multiset(r)[x] == if x > c then multiset(stale)[x] else 0
    ensures forall x :: x in r ==> x > c
  {
    if stale == [] then []
    else
      assert stale == [stale[0]] + stale[1..];
      (if stale[0] > c then [stale[0]] else []) + Above(stale[1..], c)
  }

  /** The least live entry of a non-empty frontier. */
  method LeastEntry(nodes: map<Node, int>) returns (e: (int, Node))
    requires nodes != map[]
    ensures Least(nodes, e)
  {
    var keys := nodes.Keys;
    var k :| k in keys;
    e := (nodes[k], k);
    keys := keys - {k};
    while keys != {}
      invariant keys <= nodes.Keys && e.1 in nodes && e.0 == nodes[e.1] && e.1 !in keys
      invariant forall n :: n in nodes && n !in keys && n != e.1 ==> Before(e, (nodes[n], n))
      decreases |keys|
    {
      var n :| n in keys;
      if Before((nodes[n], n), e) {
        e := (nodes[n], n);
      }
      keys := keys - {n};
    }
  }

  datatype FrontierError = KeyError | EmptyHeap

  /**
   * `Frontier`: the heap seen through its contents. `nodes` maps each queued node to the cost
   * of its live entry; `stale` holds the costs of the entries `update` marked removed that are
   * still in the heap. The heap holds one entry per node plus the removed ones.
   */
  class Frontier {
    var nodes: map<Node, int>
    var stale: seq<int>

    /** `len(heap)`. */
    function HeapSize(): nat
      reads this
    {
      |nodes| + |stale|
    }

    constructor ()
      ensures nodes == map[] && stale == []
    {
      nodes := map[];
      stale := [];
    }

    /** `push`: queue a node that is not queued; a queued node keeps its cost. */
    method Push(node: Node, cost: int)
      requires node != Removed
      modifies this
      ensures nodes == if node in old(nodes) then old(nodes) else old(nodes)[node := cost]
      ensures stale == old(stale)
    {
      if node !in nodes {
        nodes := nodes[node := cost];
      }
    }

    /**
     * `pop`: drop the removed entries that come first, then take a live entry of least cost
     * out; with no live entry `heappop` runs out of entries and raises.
     */
    method Pop() returns (r: Result<(int, Node), FrontierError>)
      modifies this
      ensures old(nodes) == map[] ==> r == Err(EmptyHeap) && nodes == map[] && stale == []
      ensures old(nodes) != map[] ==> && r.Ok? && Cheapest(old(nodes), r.value)
                                      && nodes == old(nodes) - {r.value.1}
                                      && Popped(old(stale), stale, r.value.0)
    {
      if nodes == map[] {
        stale := [];
        return Err(EmptyHeap);
      }
      var e := LeastEntry(nodes);
      nodes := nodes - {e.1};
      stale := Above(stale, e.0);
      return Ok(e);
    }

    /** `update`: mark a queued node's entry removed and queue it again at `cost`. */
    method Update(node: Node, cost: int) returns (r: Result<(), FrontierError>)
      requires node != Removed
      modifies this
      ensures r.Ok? <==> node in old(nodes)
      ensures r.Err? ==> r.error == KeyError && nodes == old(nodes) && stale == old(stale)
      ensures r.Ok? ==> nodes == old(nodes)[node := cost] && stale == old(stale) + [old(nodes)[node]]
    {
      if node !in nodes {
        return Err(KeyError);
      }
      stale := stale + [nodes[node]];
      nodes := nodes[node := cost];
      return Ok(());
    }

    /** `cost_of`: the cost of a queued node. */
    function CostOf(node: Node): (r: Result<int, FrontierError>)
      reads this
      ensures r.Ok? <==> node in nodes
      ensures r.Ok? ==> r.value == nodes[node]
      ensures r.Err? ==> r.error == KeyError
    {
      if node in nodes then Ok(nodes[node]) else Err(KeyError)
    }
  }

  // Moves.

  function Add(a: Vec, b: Vec): Vec { (a.0 + b.0, a.1 + b.1) }

  function Scale(v: Vec, t: int): Vec { (t * v.0, t * v.1) }

  function Dot(a: Vec, b: Vec): int { a.0 * b.0 + a.1 * b.1 }

  /** `dotsum`: the componentwise sum of a list of vectors. */
  function SumAll(vs: seq<Vec>): Vec
  {
    if vs == [] then (0, 0) else Add(vs[0], SumAll(vs[1..]))
  }

  function Copies(v: Vec, t: nat): seq<Vec>
  {
    seq(t, _ => v)
  }

  /** `dotsum(*([p] + t * [v]))` is the block t steps from p along v. */
  lemma {:induction false} SumCopies(p: Vec, v: Vec, t: nat)
    ensures SumAll([p] + Copies(v, t)) == Add(p, Scale(v, t))
  {
    if t > 0 {
      SumCopies(p, v, t - 1);
      var rest := Copies(v, t - 1);
      assert Copies(v, t) == [v] + rest;
      assert SumAll([p] + rest) == Add(p, SumAll(rest)) by {
        assert ([p] + rest)[1..] == rest;
      }
      assert SumAll([v] + rest) == Add(v, SumAll(rest)) by {
        assert ([v] + rest)[1..] == rest;
      }
      assert SumAll([p] + Copies(v, t)) == Add(p, SumAll(Copies(v, t))) by {
        assert ([p] + Copies(v, t))[1..] == Copies(v, t);
      }
      ScaleStep(v, t);
    }
  }

  lemma ScaleStep(v: Vec, t: int)
    ensures Scale(v, t) == Add(v, Scale(v, t - 1))
  {
    assert t * v.0 == v.0 + (t - 1) * v.0;
    assert t * v.1 == v.1 + (t - 1) * v.1;
  }

  /** The block t steps from p in direction `td`. */
  function Target(p: Vec, td: nat, t: int): Vec
    requires td < 4
  {
    if td == 0 then (p.0 + t, p.1)
    else if td == 1 then (p.0, p.1 + t)
    else if td == 2 then (p.0 - t, p.1)
    else (p.0, p.1 - t)
  }

  /** The search's `dotsum(*([p] + t * [directions[td]]))` is `Target(p, td, t)`. */
  lemma TargetSum(p: Vec, td: nat, t: nat)
    requires td < 4
    ensures SumAll([p] + Copies(Directions[td], t)) == Target(p, td, t)
  {
    SumCopies(p, Directions[td], t);
  }

  /** The directions a move may take after direction d: all four at the start, else neither d nor its reverse. */
  predicate Allowed(d: int, td: nat)
  {
    d < 0 || (td != d && td != (d + 2) % 4)
  }

  /** After a move the crucible must turn: the next direction is perpendicular to the last. */
  lemma AllowedTurns(d: int, td: nat)
    requires td < 4
    ensures d < 0 ==> Allowed(d, td)
    ensures 0 <= d < 4 ==> (Allowed(d, td) <==> Dot(Directions[td], Directions[d]) == 0)
  {
  }

  /** The straight-line lengths of a move: 1 to 3 blocks, or 4 to 10 for the ultra crucible. */
  function Span(ultra: bool): (r: (nat, nat))
    ensures 1 <= r.0 <= r.1
  {
    if ultra then (4, 10) else (1, 3)
  }

  /**
   * `n[0] == dotmod(n[0], size)`: the block equals its own reduction modulo the grid size.
   * For a positive divisor Python's floor modulo and Dafny's `%` agree.
   */
  predicate Wraps(q: Vec, size: (nat, nat))
    requires size.0 > 0 && size.1 > 0
  {
    q == (q.0 % size.0, q.1 % size.1)
  }

  /** The modulo test keeps exactly the blocks on the grid. */
  lemma WrapsInside(q: Vec, size: (nat, nat))
    requires size.0 > 0 && size.1 > 0
    ensures Wraps(q, size) <==> 0 <= q.0 < size.0 && 0 <= q.1 < size.1
  {
    if 0 <= q.0 < size.0 && 0 <= q.1 < size.1 {
      assert q.0 % size.0 == q.0 && q.1 % size.1 == q.1;
    }
  }

  /** On the grid, with its size taken from the first row and the number of rows. */
  predicate Inside(grid: seq<string>, q: Vec)
  {
    grid != [] && 0 <= q.0 < |grid[0]| && 0 <= q.1 < |grid|
  }

  /** `h_of`: the heat loss digit of block q; none when q is past its row or not a digit. */
  function Heat(grid: seq<string>, q: Vec): Option<nat>
  {
    if 0 <= q.1 < |grid| && 0 <= q.0 < |grid[q.1]| && Text.IsDigit(grid[q.1][q.0])
    then Some(Text.DigitValue(grid[q.1][q.0])) else None
  }

  /** The heat lost entering the t blocks after p along v, one after another. */
  function LossAlong(grid: seq<string>, p: Vec, td: nat, t: nat): Option<nat>
    requires td < 4
  {
    if t == 0 then Some(0)
    else
      var before := LossAlong(grid, p, td, t - 1);
      var here := Heat(grid, Target(p, td, t));
      if before.Some? && here.Some? then Some(before.value + here.value) else None
  }

  /** A move's loss exists exactly when every block entered has a digit, and is at most 9 per block. */
  lemma {:induction false} LossAlongSpec(grid: seq<string>, p: Vec, td: nat, t: nat)
    requires td < 4
    ensures LossAlong(grid, p, td, t).Some? <==> forall i :: 1 <= i <= t ==> Heat(grid, Target(p, td, i)).Some?
    ensures LossAlong(grid, p, td, t).Some? ==> LossAlong(grid, p, td, t).value <= 9 * t
  {
    if t > 0 {
      LossAlongSpec(grid, p, td, t - 1);
    }
  }

  /** The loss as the search adds it up: the target block's digit plus those of the blocks passed. */
  function MoveCost(grid: seq<string>, p: Vec, td: nat, t: nat): Option<nat>
    requires td < 4 && t >= 1
  {
    var head := Heat(grid, Target(p, td, t));
    var passed := LossAlong(grid, p, td, t - 1);
    if head.Some? && passed.Some? then Some(head.value + passed.value) else None
  }

  /** Adding the target's digit in front is the same as adding the blocks up in order. */
  lemma MoveCostLoss(grid: seq<string>, p: Vec, td: nat, t: nat)
    requires td < 4 && t >= 1
    ensures MoveCost(grid, p, td, t) == LossAlong(grid, p, td, t)
  {
  }

  // Paths, the specification of what the search finds.

  /** A move: the direction index and the number of blocks gone straight. */
  type Move = (nat, nat)

  /**
   * Where a sequence of moves from the start ends and the loss it takes; none when a move goes
   * straight on or back, has a length outside the span, leaves the grid or enters a block
   * without a digit.
   */
  function Follow(grid: seq<string>, span: (nat, nat), moves: seq<Move>): Option<(Node, int)>
  {
    if moves == [] then Some((Start, 0))
    else
      var before := Follow(grid, span, moves[..|moves| - 1]);
      var (td, t) := moves[|moves| - 1];
      if before.None? || td >= 4 || !Allowed(before.value.0.1, td) || t < span.0 || t > span.1 then None
      else
        var p := before.value.0.0;
        var loss := LossAlong(grid, p, td, t);
        if !Inside(grid, Target(p, td, t)) || loss.None? then None
        else Some(((Target(p, td, t), td), before.value.1 + loss.value))
  }

  const Start: Node := ((0, 0), -1)

  /** Some sequence of moves from the start reaches node n with total loss c. */
  ghost predicate Reaches(grid: seq<string>, span: (nat, nat), n: Node, c: int)
  {
    exists moves :: Ends(grid, span, moves, n, c)
  }

  /** The moves go from the start to n with total loss c. */
  predicate Ends(grid: seq<string>, span: (nat, nat), moves: seq<Move>, n: Node, c: int)
  {
    Follow(grid, span, moves) == Some((n, c))
  }

  /** Some sequence of moves from the start reaches the bottom-right block with total loss c. */
  ghost predicate ReachesGoal(grid: seq<string>, span: (nat, nat), c: int)
  {
    grid != [] && exists n: Node :: n.0 == End(grid) && Reaches(grid, span, n, c)
  }

  lemma ReachStart(grid: seq<string>, span: (nat, nat))
    ensures Reaches(grid, span, Start, 0)
  {
    assert Ends(grid, span, [], Start, 0);
  }

  /** The move t blocks along `td` from a reached node reaches its target at the added loss. */
  lemma ReachMove(grid: seq<string>, span: (nat, nat), node: Node, cost: int, td: nat, t: nat)
    requires td < 4 && Allowed(node.1, td) && span.0 <= t <= span.1 && t >= 1 && Inside(grid, Target(node.0, td, t))
    requires Reaches(grid, span, node, cost) && LossAlong(grid, node.0, td, t).Some?
    ensures Reaches(grid, span, (Target(node.0, td, t), td), cost + LossAlong(grid, node.0, td, t).value)
  {
    var moves :| Ends(grid, span, moves, node, cost);
    var longer := moves + [(td, t)];
    assert longer[..|longer| - 1] == moves;
    assert Ends(grid, span, longer, (Target(node.0, td, t), td), cost + LossAlong(grid, node.0, td, t).value);
  }

  // One expansion, as a fold over the moves it tries.

  datatype SearchError =
    | NoRows         // `len(B[0])` of no rows raises IndexError
    | NoColumns      // a first row with no columns makes `dotmod` divide by zero
    | BadBlock       // `int(B[y][x])` raises: ValueError on a block without a digit, or IndexError past a short row
    | HeapExhausted  // `heappop` of an empty frontier raises IndexError

  /**
   * The moves of 1 + (u - 1) lengths from `lo` in direction `td` that stay on the grid, each with
   * the cost of reaching it; an error when a block entered has no digit.
   */
  function MovesAlong(grid: seq<string>, node: Node, cost: int, td: nat, lo: nat, u: nat): Result<seq<(Node, int)>, SearchError>
    requires td < 4 && lo >= 1
  {
    if u == 0 then Ok([])
    else
      var before := MovesAlong(grid, node, cost, td, lo, u - 1);
      if before.Err? then before
      else
        var t := lo + u - 1;
        var q := Target(node.0, td, t);
        if !Inside(grid, q) then before
        else
          var loss := LossAlong(grid, node.0, td, t);
          if loss.None? then Err(BadBlock) else Ok(before.value + [((q, td), cost + loss.value)])
  }

  /** The moves in the first `dc` directions, allowed directions only, in the order the search tries them. */
  function Moves(grid: seq<string>, node: Node, cost: int, span: (nat, nat), dc: nat): Result<seq<(Node, int)>, SearchError>
    requires dc <= 4 && 1 <= span.0 <= span.1
  {
    if dc == 0 then Ok([])
    else
      var before := Moves(grid, node, cost, span, dc - 1);
      if before.Err? || !Allowed(node.1, dc - 1) then before
      else
        var along := MovesAlong(grid, node, cost, dc - 1, span.0, span.1 - span.0 + 1);
        if along.Err? then along else Ok(before.value + along.value)
  }

  /** The frontier after one tried move: queue an unseen node, lower the cost of a queued one. */
  function RelaxOne(state: (map<Node, int>, seq<int>), expanded: set<Node>, move: (Node, int)): (map<Node, int>, seq<int>)
  {
    var (nodes, stale) := state;
    var (n, nh) := move;
    if n !in expanded && n !in nodes then (nodes[n := nh], stale)
    else if n in nodes && nodes[n] > nh then (nodes[n := nh], stale + [nodes[n]])
    else state
  }

  function Relax(state: (map<Node, int>, seq<int>), expanded: set<Node>, moves: seq<(Node, int)>): (map<Node, int>, seq<int>)
  {
    if moves == [] then state
    else RelaxOne(Relax(state, expanded, moves[..|moves| - 1]), expanded, moves[|moves| - 1])
  }

  lemma RelaxSnoc(state: (map<Node, int>, seq<int>), expanded: set<Node>, moves: seq<(Node, int)>, move: (Node, int))
    ensures Relax(state, expanded, moves + [move]) == RelaxOne(Relax(state, expanded, moves), expanded, move)
  {
    assert (moves + [move])[..|moves|] == moves;
  }

  /** Every queued node's cost is the loss of some path to it. */
  ghost predicate Sound(grid: seq<string>, span: (nat, nat), nodes: map<Node, int>)
  {
    forall n :: n in nodes ==> n != Removed && Reaches(grid, span, n, nodes[n])
  }

  /** Every move the search tries is reached at its cost, and is not the removed marker. */
  ghost predicate Reached(grid: seq<string>, span: (nat, nat), moves: seq<(Node, int)>)
  {
    moves == [] || (Reached(grid, span, moves[..|moves| - 1]) && Good(grid, span, moves[|moves| - 1]))
  }

  ghost predicate Good(grid: seq<string>, span: (nat, nat), move: (Node, int))
  {
    move.0 != Removed && Reaches(grid, span, move.0, move.1)
  }

  /** Relaxing with reached moves keeps every queued cost the loss of a path. */
  lemma {:induction false} RelaxSound(grid: seq<string>, span: (nat, nat), state: (map<Node, int>, seq<int>), expanded: set<Node>, moves: seq<(Node, int)>)
    requires Sound(grid, span, state.0) && Reached(grid, span, moves)
    ensures Sound(grid, span, Relax(state, expanded, moves).0)
  {
    if moves != [] {
      RelaxSound(grid, span, state, expanded, moves[..|moves| - 1]);
    }
  }

  lemma {:induction false} MovesAlongReached(grid: seq<string>, span: (nat, nat), node: Node, cost: int, td: nat, u: nat)
    requires td < 4 && 1 <= span.0 && span.0 + u - 1 <= span.1 && Allowed(node.1, td) && Reaches(grid, span, node, cost)
    requires MovesAlong(grid, node, cost, td, span.0, u).Ok?
    ensures Reached(grid, span, MovesAlong(grid, node, cost, td, span.0, u).value)
  {
    if u > 0 {
      AlongLast(grid, node, cost, td, span.0, u);
      MovesAlongReached(grid, span, node, cost, td, u - 1);
      AlongReached(grid, span, node, cost, td, u);
    }
  }

  /** One more length keeps the tried moves reached. */
  lemma AlongReached(grid: seq<string>, span: (nat, nat), node: Node, cost: int, td: nat, u: nat)
    requires td < 4 && 1 <= span.0 && span.0 + u - 1 <= span.1 && Allowed(node.1, td) && Reaches(grid, span, node, cost)
    requires u > 0 && MovesAlong(grid, node, cost, td, span.0, u).Ok?
    requires Reached(grid, span, MovesAlong(grid, node, cost, td, span.0, u - 1).value)
    ensures Reached(grid, span, MovesAlong(grid, node, cost, td, span.0, u).value)
  {
    var before := MovesAlong(grid, node, cost, td, span.0, u - 1);
    var t := span.0 + u - 1;
    var q := Target(node.0, td, t);
    AlongLast(grid, node, cost, td, span.0, u);
    if Inside(grid, q) {
      ReachedExtend(grid, span, node, cost, td, t, before.value);
    }
  }

  /** A reached list of moves stays reached with a legal move from a reached node added. */
  lemma ReachedExtend(grid: seq<string>, span: (nat, nat), node: Node, cost: int, td: nat, t: nat, moves: seq<(Node, int)>)
    requires td < 4 && Allowed(node.1, td) && span.0 <= t <= span.1 && t >= 1 && Inside(grid, Target(node.0, td, t))
    requires Reaches(grid, span, node, cost) && LossAlong(grid, node.0, td, t).Some? && Reached(grid, span, moves)
    ensures Reached(grid, span, moves + [((Target(node.0, td, t), td), cost + LossAlong(grid, node.0, td, t).value)])
  {
    ReachMove(grid, span, node, cost, td, t);
    ReachedSnoc(grid, span, moves, ((Target(node.0, td, t), td), cost + LossAlong(grid, node.0, td, t).value));
  }

  /** The last length in `MovesAlong`: nothing new off the grid, else the move. */
  lemma AlongLast(grid: seq<string>, node: Node, cost: int, td: nat, lo: nat, u: nat)
    requires td < 4 && 1 <= lo && u > 0 && MovesAlong(grid, node, cost, td, lo, u).Ok?
    ensures var t := lo + u - 1;
            var q := Target(node.0, td, t);
            var all := MovesAlong(grid, node, cost, td, lo, u);
            var before := MovesAlong(grid, node, cost, td, lo, u - 1);
            && before.Ok?
            && (!Inside(grid, q) ==> all == before)
            && (Inside(grid, q) ==> (LossAlong(grid, node.0, td, t).Some? &&
                  all.value == before.value + [((q, td), cost + LossAlong(grid, node.0, td, t).value)]))
  {
  }

  lemma ReachedSnoc(grid: seq<string>, span: (nat, nat), moves: seq<(Node, int)>, move: (Node, int))
    requires Reached(grid, span, moves) && Good(grid, span, move)
    ensures Reached(grid, span, moves + [move])
  {
    assert (moves + [move])[..|moves|] == moves;
  }

  lemma {:induction false} ReachedConcat(grid: seq<string>, span: (nat, nat), a: seq<(Node, int)>, b: seq<(Node, int)>)
    requires Reached(grid, span, a) && Reached(grid, span, b)
    ensures Reached(grid, span, a + b)
  {
    if b == [] {
      assert a + b == a;
    } else {
      var init := b[..|b| - 1];
      ReachedConcat(grid, span, a, init);
      assert a + b == (a + init) + [b[|b| - 1]];
      ReachedSnoc(grid, span, a + init, b[|b| - 1]);
    }
  }

  /** Every move the search tries from a reached node is reached at its cost. */
  lemma {:induction false} MovesReached(grid: seq<string>, span: (nat, nat), node: Node, cost: int, dc: nat)
    requires dc <= 4 && 1 <= span.0 <= span.1 && Reaches(grid, span, node, cost)
    requires Moves(grid, node, cost, span, dc).Ok?
    ensures Reached(grid, span, Moves(grid, node, cost, span, dc).value)
  {
    if dc > 0 {
      MovesReached(grid, span, node, cost, dc - 1);
      if Allowed(node.1, dc - 1) {
        MovesAlongReached(grid, span, node, cost, dc - 1, span.1 - span.0 + 1);
        ReachedConcat(grid, span, Moves(grid, node, cost, span, dc - 1).value,
          MovesAlong(grid, node, cost, dc - 1, span.0, span.1 - span.0 + 1).value);
      }
    }
  }

  /** Once a direction's moves hit a block without a digit, every longer enumeration fails too. */
  lemma {:induction false} MovesAlongErr(grid: seq<string>, node: Node, cost: int, td: nat, lo: nat, u: nat, w: nat)
    requires td < 4 && lo >= 1 && u <= w && MovesAlong(grid, node, cost, td, lo, u).Err?
    ensures MovesAlong(grid, node, cost, td, lo, w).Err?
    decreases w
  {
    if u < w {
      MovesAlongErr(grid, node, cost, td, lo, u, w - 1);
    }
  }

  lemma {:induction false} MovesErr(grid: seq<string>, node: Node, cost: int, span: (nat, nat), dc: nat, ec: nat)
    requires dc <= ec <= 4 && 1 <= span.0 <= span.1 && Moves(grid, node, cost, span, dc).Err?
    ensures Moves(grid, node, cost, span, ec).Err?
    decreases ec
  {
    if dc < ec {
      MovesErr(grid, node, cost, span, dc, ec - 1);
    }
  }

  /** A direction whose moves raise has a length on the grid entering a block without a digit. */
  lemma {:induction false} MovesAlongBad(grid: seq<string>, node: Node, cost: int, td: nat, lo: nat, u: nat) returns (t: nat)
    requires td < 4 && lo >= 1 && MovesAlong(grid, node, cost, td, lo, u).Err?
    ensures lo <= t < lo + u && Inside(grid, Target(node.0, td, t)) && LossAlong(grid, node.0, td, t).None?
  {
    if MovesAlong(grid, node, cost, td, lo, u - 1).Err? {
      t := MovesAlongBad(grid, node, cost, td, lo, u - 1);
    } else {
      t := lo + u - 1;
    }
  }

  /** Moves that raise have an allowed move on the grid entering a block without a digit. */
  lemma {:induction false} MovesBad(grid: seq<string>, node: Node, cost: int, span: (nat, nat), dc: nat) returns (td: nat, t: nat)
    requires dc <= 4 && 1 <= span.0 <= span.1 && Moves(grid, node, cost, span, dc).Err?
    ensures td < dc && Allowed(node.1, td) && span.0 <= t <= span.1
    ensures Inside(grid, Target(node.0, td, t)) && LossAlong(grid, node.0, td, t).None?
  {
    if Moves(grid, node, cost, span, dc - 1).Err? {
      td, t := MovesBad(grid, node, cost, span, dc - 1);
    } else {
      td := dc - 1;
      t := MovesAlongBad(grid, node, cost, td, span.0, span.1 - span.0 + 1);
    }
  }

  /**
   * What makes `h_of` raise: from a node some path reaches, an allowed move of a legal length
   * ends on the grid but enters a block that is past its row or not a digit.
   */
  ghost predicate BadMove(grid: seq<string>, span: (nat, nat), n: Node, c: int, td: nat, t: nat)
  {
    && Reaches(grid, span, n, c) && td < 4 && Allowed(n.1, td) && span.0 <= t <= span.1
    && Inside(grid, Target(n.0, td, t)) && LossAlong(grid, n.0, td, t).None?
  }

  /** A grid of heat-loss digits: at least one block, every row as long as the first, all digits. */
  predicate DigitGrid(grid: seq<string>)
  {
    grid != [] && |grid[0]| > 0 && forall y :: 0 <= y < |grid| ==> |grid[y]| == |grid[0]| && Text.AllDigits(grid[y])
  }

  /** On a grid of digits every move that stays on the grid has a loss. */
  lemma DigitsLoss(grid: seq<string>, span: (nat, nat), n: Node, c: int, td: nat, t: nat)
    requires DigitGrid(grid) && Reaches(grid, span, n, c) && td < 4 && Inside(grid, Target(n.0, td, t))
    ensures LossAlong(grid, n.0, td, t).Some?
  {
    var moves :| Ends(grid, span, moves, n, c);
    FollowInside(grid, span, moves);
    forall i | 1 <= i <= t ensures Heat(grid, Target(n.0, td, i)).Some? {
      var q := Target(n.0, td, i);
      assert Inside(grid, q);
      assert Text.IsDigit(grid[q.1][q.0]);
    }
    LossAlongSpec(grid, n.0, td, t);
  }

  /** A grid of digits has no bad move, so `h_of` never raises on it. */
  lemma DigitsNoBadMove(grid: seq<string>, span: (nat, nat))
    ensures DigitGrid(grid) ==> forall n, c, td, t :: !BadMove(grid, span, n, c, td, t)
  {
    if DigitGrid(grid) {
      forall n: Node, c: int, td: nat, t: nat | Reaches(grid, span, n, c) && td < 4 && Inside(grid, Target(n.0, td, t))
        ensures LossAlong(grid, n.0, td, t).Some?
      {
        DigitsLoss(grid, span, n, c, td, t);
      }
    }
  }

  /** The cost steps of the relaxation loop: one move queued or lowered, or the move left alone. */
  method Try(frontier: Frontier, expanded: set<Node>, move: (Node, int))
    requires move.0 != Removed
    modifies frontier
    ensures (frontier.nodes, frontier.stale) == RelaxOne((old(frontier.nodes), old(frontier.stale)), expanded, move)
  {
    var (n, nh) := move;
    if n !in expanded && n !in frontier.nodes {
      frontier.Push(n, nh);
    } else if n in frontier.nodes && frontier.CostOf(n).value > nh {
      var _ := frontier.Update(n, nh);
    }
  }

  /** One direction of the `for n, t in …` loop: try each length of the span in turn. */
  method ExpandAlong(grid: seq<string>, span: (nat, nat), frontier: Frontier, node: Node, cost: int, expanded: set<Node>,
                     td: nat, ghost state0: (map<Node, int>, seq<int>), ghost before: seq<(Node, int)>)
    returns (r: Result<(), SearchError>)
    requires grid != [] && |grid[0]| > 0 && 1 <= span.0 <= span.1 && td < 4
    requires (frontier.nodes, frontier.stale) == Relax(state0, expanded, before)
    modifies frontier
    ensures r.Err? <==> MovesAlong(grid, node, cost, td, span.0, span.1 - span.0 + 1).Err?
    ensures r.Err? ==> r.error == BadBlock
    ensures r.Ok? ==> (frontier.nodes, frontier.stale)
                      == Relax(state0, expanded, before + MovesAlong(grid, node, cost, td, span.0, span.1 - span.0 + 1).value)
  {
    r := Ok(());
    var count := span.1 - span.0 + 1;
    assert before + [] == before;
    ghost var acc := before;
    for u := 0 to count
      invariant MovesAlong(grid, node, cost, td, span.0, u).Ok?
      invariant acc == before + MovesAlong(grid, node, cost, td, span.0, u).value
      invariant (frontier.nodes, frontier.stale) == Relax(state0, expanded, acc)
    {
      var step;
      step, acc := TryLength(grid, frontier, node, cost, expanded, td, span.0, u, state0, before, acc);
      if step.Err? {
        MovesAlongErr(grid, node, cost, td, span.0, u + 1, count);
        return step;
      }
    }
  }

  /** The move `lo + u` blocks along `td`, kept when it stays on the grid. */
  method TryLength(grid: seq<string>, frontier: Frontier, node: Node, cost: int, expanded: set<Node>, td: nat, lo: nat, u: nat,
                   ghost state0: (map<Node, int>, seq<int>), ghost before: seq<(Node, int)>, ghost acc: seq<(Node, int)>)
    returns (r: Result<(), SearchError>, ghost acc2: seq<(Node, int)>)
    requires grid != [] && |grid[0]| > 0 && 1 <= lo && td < 4
    requires MovesAlong(grid, node, cost, td, lo, u).Ok?
    requires acc == before + MovesAlong(grid, node, cost, td, lo, u).value
    requires (frontier.nodes, frontier.stale) == Relax(state0, expanded, acc)
    modifies frontier
    ensures r.Err? <==> MovesAlong(grid, node, cost, td, lo, u + 1).Err?
    ensures r.Err? ==> r.error == BadBlock
    ensures r.Ok? ==> && acc2 == before + MovesAlong(grid, node, cost, td, lo, u + 1).value
                      && (frontier.nodes, frontier.stale) == Relax(state0, expanded, acc2)
  {
    r, acc2 := Ok(()), acc;
    var size := (|grid[0]|, |grid|);
    var t := lo + u;
    var q := Target(node.0, td, t);
    WrapsInside(q, size);
    AlongStep(grid, node, cost, td, lo, u);
    if Wraps(q, size) {
      var loss := MoveCost(grid, node.0, td, t);
      MoveCostLoss(grid, node.0, td, t);
      if loss.None? {
        return Err(BadBlock), acc2;
      }
      var move: (Node, int) := ((q, td), cost + loss.value);
      Try(frontier, expanded, move);
      RelaxSnoc(state0, expanded, acc, move);
      acc2 := acc + [move];
    }
  }

  /** One more length in `MovesAlong`: nothing new off the grid, else the move or an error. */
  lemma AlongStep(grid: seq<string>, node: Node, cost: int, td: nat, lo: nat, u: nat)
    requires td < 4 && 1 <= lo && MovesAlong(grid, node, cost, td, lo, u).Ok?
    ensures var t := lo + u;
            var q := Target(node.0, td, t);
            var next := MovesAlong(grid, node, cost, td, lo, u + 1);
            var tried := MovesAlong(grid, node, cost, td, lo, u).value;
            && (!Inside(grid, q) ==> next == Ok(tried))
            && (Inside(grid, q) && LossAlong(grid, node.0, td, t).None? ==> next.Err?)
            && (Inside(grid, q) && LossAlong(grid, node.0, td, t).Some? ==>
                  next == Ok(tried + [((q, td), cost + LossAlong(grid, node.0, td, t).value)]))
  {
    assert u + 1 - 1 == u && lo + (u + 1) - 1 == lo + u;
  }

  /**
   * The `for n, t in …` loop of `min_heat_loss`: try every move from `node`, in order of
   * direction and then of length, against the frontier; an error when a block has no digit.
   */
  method Expand(grid: seq<string>, span: (nat, nat), frontier: Frontier, node: Node, cost: int, expanded: set<Node>)
    returns (r: Result<(), SearchError>)
    requires grid != [] && |grid[0]| > 0 && 1 <= span.0 <= span.1
    modifies frontier
    ensures r.Err? <==> Moves(grid, node, cost, span, 4).Err?
    ensures r.Err? ==> r.error == BadBlock
    ensures r.Ok? ==> (frontier.nodes, frontier.stale)
                      == Relax((old(frontier.nodes), old(frontier.stale)), expanded, Moves(grid, node, cost, span, 4).value)
  {
    r := Ok(());
    ghost var state0 := (frontier.nodes, frontier.stale);
    for td := 0 to 4
      invariant Moves(grid, node, cost, span, td).Ok?
      invariant (frontier.nodes, frontier.stale) == Relax(state0, expanded, Moves(grid, node, cost, span, td).value)
    {
      if Allowed(node.1, td) {
        var along := ExpandAlong(grid, span, frontier, node, cost, expanded, td, state0, Moves(grid, node, cost, span, td).value);
        if along.Err? {
          MovesErr(grid, node, cost, span, td + 1, 4);
          return along;
        }
      }
    }
  }

  /** The popped entry is reached at its cost, and what stays queued is still sound. */
  lemma PopSound(grid: seq<string>, span: (nat, nat), queued: map<Node, int>, e: (int, Node))
    requires Sound(grid, span, queued) && Cheapest(queued, e)
    ensures Reaches(grid, span, e.1, e.0) && Sound(grid, span, queued - {e.1})
  {
  }

  /**
   * A queued node is the start or lies on the grid: never at the end without columns, always
   * at the end of a single block.
   */
  lemma PopBlock(grid: seq<string>, span: (nat, nat), queued: map<Node, int>, e: (int, Node))
    requires grid != [] && Sound(grid, span, queued) && Cheapest(queued, e)
    ensures e.1 == Start || Inside(grid, e.1.0)
    ensures |grid[0]| == 0 ==> e.1.0 != End(grid)
    ensures |grid| == 1 && |grid[0]| == 1 ==> e.1.0 == End(grid)
  {
    var moves :| Ends(grid, span, moves, e.1, e.0);
    if moves != [] {
      var p, c, td, t, loss := FollowLast(grid, span, moves);
    }
  }

  /** On a single block the empty path reaches the end, so the least loss is 0. */
  lemma TinyLoss(grid: seq<string>, span: (nat, nat), cost: int)
    requires |grid| == 1 && |grid[0]| == 1 && cost >= 0
    requires forall l :: ReachesGoal(grid, span, l) ==> cost <= l
    ensures cost == 0
  {
    ReachStart(grid, span);
    assert ReachesGoal(grid, span, 0);
  }

  /** Expanding a reached node keeps the frontier sound. */
  lemma ExpandSound(grid: seq<string>, span: (nat, nat), state: (map<Node, int>, seq<int>), expanded: set<Node>, node: Node, cost: int)
    requires 1 <= span.0 <= span.1 && Sound(grid, span, state.0) && Reaches(grid, span, node, cost)
    requires Moves(grid, node, cost, span, 4).Ok?
    ensures Sound(grid, span, Relax(state, expanded, Moves(grid, node, cost, span, 4).value).0)
  {
    MovesReached(grid, span, node, cost, 4);
    RelaxSound(grid, span, state, expanded, Moves(grid, node, cost, span, 4).value);
  }

  lemma GoalReached(grid: seq<string>, span: (nat, nat), node: Node, cost: int)
    requires grid != [] && node.0 == (|grid[0]| - 1, |grid| - 1) && Reaches(grid, span, node, cost)
    ensures ReachesGoal(grid, span, cost) && cost >= 0
  {
    var moves :| Ends(grid, span, moves, node, cost);
    FollowLoss(grid, span, moves);
  }

  /** A path's loss is never negative. */
  lemma {:induction false} FollowLoss(grid: seq<string>, span: (nat, nat), moves: seq<Move>)
    ensures Follow(grid, span, moves).Some? ==> Follow(grid, span, moves).value.1 >= 0
  {
    if moves != [] {
      FollowLoss(grid, span, moves[..|moves| - 1]);
    }
  }

  // Minimality: the invariant of uniform-cost search.

  /** The bottom-right block, where the search stops. */
  function End(grid: seq<string>): Vec
    requires grid != []
  {
    (|grid[0]| - 1, |grid| - 1)
  }

  /** Every state the search can queue: a block of the grid and a last direction. */
  ghost function States(grid: seq<string>): set<Node>
  {
    if grid == [] then {}
    else set x: int, y: int, d: int | 0 <= x < |grid[0]| && 0 <= y < |grid| && -1 <= d < 4 :: ((x, y), d)
  }

  /** The last move of a path is legal from where the path before it ends, and adds its loss. */
  lemma FollowLast(grid: seq<string>, span: (nat, nat), moves: seq<Move>) returns (p: Node, c: int, td: nat, t: nat, loss: nat)
    requires moves != [] && Follow(grid, span, moves).Some?
    ensures Follow(grid, span, moves[..|moves| - 1]) == Some((p, c)) && moves[|moves| - 1] == (td, t)
    ensures td < 4 && Allowed(p.1, td) && span.0 <= t <= span.1
    ensures Inside(grid, Target(p.0, td, t)) && LossAlong(grid, p.0, td, t) == Some(loss)
    ensures Follow(grid, span, moves) == Some(((Target(p.0, td, t), td), c + loss))
  {
    var before := Follow(grid, span, moves[..|moves| - 1]);
    p, c := before.value.0, before.value.1;
    td, t := moves[|moves| - 1].0, moves[|moves| - 1].1;
    loss := LossAlong(grid, p.0, td, t).value;
  }

  /** A path to the bottom-right block for each loss `ReachesGoal` admits. */
  lemma GoalPath(grid: seq<string>, span: (nat, nat), l: int) returns (moves: seq<Move>)
    requires ReachesGoal(grid, span, l)
    ensures Follow(grid, span, moves).Some? && Follow(grid, span, moves).value.0.0 == End(grid)
    ensures Follow(grid, span, moves).value.1 == l
  {
    var n: Node :| n.0 == End(grid) && Reaches(grid, span, n, l);
    moves :| Ends(grid, span, moves, n, l);
  }

  /** A path ends on a state of the grid. */
  lemma FollowInside(grid: seq<string>, span: (nat, nat), moves: seq<Move>)
    requires grid != [] && |grid[0]| > 0 && Follow(grid, span, moves).Some?
    ensures Follow(grid, span, moves).value.0 in States(grid)
  {
    var n := Follow(grid, span, moves).value.0;
    if moves != [] {
      var p, c, td, t, loss := FollowLast(grid, span, moves);
    }
    assert n == ((n.0.0, n.0.1), n.1);
  }

  /** A legal move of `t` blocks along `td` is among those `MovesAlong` tries. */
  lemma {:induction false} MovesAlongHas(grid: seq<string>, node: Node, cost: int, td: nat, lo: nat, u: nat, t: nat)
    requires td < 4 && 1 <= lo <= t < lo + u
    requires Inside(grid, Target(node.0, td, t)) && LossAlong(grid, node.0, td, t).Some?
    requires MovesAlong(grid, node, cost, td, lo, u).Ok?
    ensures ((Target(node.0, td, t), td), cost + LossAlong(grid, node.0, td, t).value)
            in MovesAlong(grid, node, cost, td, lo, u).value
    decreases u
  {
    AlongLast(grid, node, cost, td, lo, u);
    if t < lo + u - 1 {
      MovesAlongHas(grid, node, cost, td, lo, u - 1, t);
    }
  }

  /** Every legal move from `node` is among those the search tries from it. */
  lemma {:induction false} MovesHas(grid: seq<string>, node: Node, cost: int, span: (nat, nat), dc: nat, td: nat, t: nat)
    requires 1 <= span.0 <= t <= span.1 && td < dc <= 4 && Allowed(node.1, td)
    requires Inside(grid, Target(node.0, td, t)) && LossAlong(grid, node.0, td, t).Some?
    requires Moves(grid, node, cost, span, dc).Ok?
    ensures ((Target(node.0, td, t), td), cost + LossAlong(grid, node.0, td, t).value)
            in Moves(grid, node, cost, span, dc).value
    decreases dc
  {
    var before := Moves(grid, node, cost, span, dc - 1);
    assert before.Ok?;
    if td < dc - 1 {
      MovesHas(grid, node, cost, span, dc - 1, td, t);
    } else {
      MovesAlongHas(grid, node, cost, td, span.0, span.1 - span.0 + 1, t);
    }
  }

  /** Each tried move's node has been expanded, or is queued at no more than the move's cost. */
  ghost predicate Covers(moves: seq<(Node, int)>, done: set<Node>, nodes: map<Node, int>)
  {
    forall mv :: mv in moves ==> mv.0 in done || (mv.0 in nodes && nodes[mv.0] <= mv.1)
  }

  /** `nodes2` keeps every node of `nodes` not in `done`, at no more than its cost there. */
  ghost predicate Lowered(nodes: map<Node, int>, done: set<Node>, nodes2: map<Node, int>)
  {
    forall k :: k in nodes ==> k in done || (k in nodes2 && nodes2[k] <= nodes[k])
  }

  lemma CoversMono(moves: seq<(Node, int)>, done: set<Node>, nodes: map<Node, int>, done2: set<Node>, nodes2: map<Node, int>)
    requires Covers(moves, done, nodes) && done <= done2 && Lowered(nodes, done2, nodes2)
    ensures Covers(moves, done2, nodes2)
  {
  }

  /** Relaxing only queues nodes outside `expanded` and never raises a queued cost. */
  lemma {:induction false} RelaxLowers(state: (map<Node, int>, seq<int>), expanded: set<Node>, moves: seq<(Node, int)>)
    ensures Lowered(state.0, {}, Relax(state, expanded, moves).0)
    ensures forall k :: k in Relax(state, expanded, moves).0 && k !in state.0 ==> k !in expanded
  {
    if moves != [] {
      RelaxLowers(state, expanded, moves[..|moves| - 1]);
    }
  }

  /** After relaxing, every tried move is covered. */
  lemma {:induction false} RelaxCovers(state: (map<Node, int>, seq<int>), expanded: set<Node>, moves: seq<(Node, int)>)
    ensures Covers(moves, expanded, Relax(state, expanded, moves).0)
  {
    if moves != [] {
      var init := moves[..|moves| - 1];
      var before := Relax(state, expanded, init);
      RelaxCovers(state, expanded, init);
      assert Lowered(before.0, {}, RelaxOne(before, expanded, moves[|moves| - 1]).0);
      CoversMono(init, expanded, before.0, expanded, Relax(state, expanded, moves).0);
      assert moves == init + [moves[|moves| - 1]];
    }
  }

  /** Every expanded node was popped at the least loss of any path to it. */
  ghost predicate Optimal(grid: seq<string>, span: (nat, nat), settled: map<Node, int>)
  {
    forall moves :: Follow(grid, span, moves).Some? && Follow(grid, span, moves).value.0 in settled ==>
      settled[Follow(grid, span, moves).value.0] <= Follow(grid, span, moves).value.1
  }

  /** Every move from an expanded node is covered by the frontier. */
  ghost predicate Relaxed(grid: seq<string>, span: (nat, nat), settled: map<Node, int>, nodes: map<Node, int>)
  {
    1 <= span.0 <= span.1 &&
    forall e :: e in settled ==>
      Moves(grid, e, settled[e], span, 4).Ok? && Covers(Moves(grid, e, settled[e], span, 4).value, settled.Keys, nodes)
  }

  /**
   * The search's invariant: `settled` gives the cost each expanded node was popped at; no
   * expanded node is queued or at the end; the start is expanded or queued at 0.
   */
  ghost predicate Settled(grid: seq<string>, span: (nat, nat), settled: map<Node, int>, expanded: set<Node>, nodes: map<Node, int>)
  {
    && grid != [] && settled.Keys == expanded
    && (forall n :: n in nodes ==> n !in expanded)
    && (forall e :: e in expanded ==> e.0 != End(grid))
    && (Start in expanded || (Start in nodes && nodes[Start] <= 0))
    && Optimal(grid, span, settled) && Relaxed(grid, span, settled, nodes)
  }

  /** Every path to a node not yet expanded passes a queued node at no more than the path's loss. */
  lemma {:induction false} Cut(grid: seq<string>, span: (nat, nat), settled: map<Node, int>, nodes: map<Node, int>, moves: seq<Move>)
    requires Optimal(grid, span, settled) && Relaxed(grid, span, settled, nodes)
    requires Start in settled || (Start in nodes && nodes[Start] <= 0)
    requires Follow(grid, span, moves).Some? && Follow(grid, span, moves).value.0 !in settled
    ensures exists v :: v in nodes && nodes[v] <= Follow(grid, span, moves).value.1
    decreases |moves|
  {
    if moves == [] {
      assert Start in nodes;
    } else {
      var init := moves[..|moves| - 1];
      var p, c, td, t, loss := FollowLast(grid, span, moves);
      if p !in settled {
        Cut(grid, span, settled, nodes, init);
      } else {
        MovesHas(grid, p, settled[p], span, 4, td, t);
        var n := (Target(p.0, td, t), td);
        assert n in nodes && nodes[n] <= settled[p] + loss;
      }
    }
  }

  /** The least queued entry is at most the loss of any path to an unexpanded node. */
  lemma PopLeast(grid: seq<string>, span: (nat, nat), settled: map<Node, int>, expanded: set<Node>, nodes: map<Node, int>,
                 e: (int, Node), moves: seq<Move>)
    requires Settled(grid, span, settled, expanded, nodes) && Cheapest(nodes, e)
    requires Follow(grid, span, moves).Some? && Follow(grid, span, moves).value.0 !in settled
    ensures e.0 <= Follow(grid, span, moves).value.1
  {
    Cut(grid, span, settled, nodes, moves);
    var v :| v in nodes && nodes[v] <= Follow(grid, span, moves).value.1;
  }

  /** The popped node is settled at its cost, and no path reaches the end for less. */
  lemma PopOptimal(grid: seq<string>, span: (nat, nat), settled: map<Node, int>, expanded: set<Node>, nodes: map<Node, int>,
                   e: (int, Node))
    requires Settled(grid, span, settled, expanded, nodes) && Cheapest(nodes, e)
    ensures Optimal(grid, span, settled[e.1 := e.0])
    ensures forall l :: ReachesGoal(grid, span, l) ==> e.0 <= l
  {
    forall moves | Follow(grid, span, moves).Some? && Follow(grid, span, moves).value.0 == e.1
      ensures e.0 <= Follow(grid, span, moves).value.1
    {
      PopLeast(grid, span, settled, expanded, nodes, e, moves);
    }
    forall l | ReachesGoal(grid, span, l) ensures e.0 <= l {
      var moves := GoalPath(grid, span, l);
      PopLeast(grid, span, settled, expanded, nodes, e, moves);
    }
  }

  /** While the end is unexpanded, a path to it keeps the frontier non-empty. */
  lemma NoneLeft(grid: seq<string>, span: (nat, nat), settled: map<Node, int>, expanded: set<Node>, nodes: map<Node, int>)
    requires Settled(grid, span, settled, expanded, nodes)
    ensures nodes == map[] ==> forall l :: !ReachesGoal(grid, span, l)
  {
    forall l | ReachesGoal(grid, span, l) ensures nodes != map[] {
      var moves := GoalPath(grid, span, l);
      Cut(grid, span, settled, nodes, moves);
    }
  }

  /** Expanding the popped node `e` at its settled cost keeps the invariant. */
  lemma ExpandSettled(grid: seq<string>, span: (nat, nat), settled: map<Node, int>, expanded: set<Node>,
                      nodes: map<Node, int>, e: (int, Node), state: (map<Node, int>, seq<int>))
    requires Settled(grid, span, settled, expanded, nodes) && Cheapest(nodes, e) && e.1.0 != End(grid)
    requires state.0 == nodes - {e.1} && Moves(grid, e.1, e.0, span, 4).Ok?
    ensures Settled(grid, span, settled[e.1 := e.0], expanded + {e.1},
                    Relax(state, expanded + {e.1}, Moves(grid, e.1, e.0, span, 4).value).0)
  {
    var settled2, expanded2 := settled[e.1 := e.0], expanded + {e.1};
    var moves := Moves(grid, e.1, e.0, span, 4).value;
    var nodes2 := Relax(state, expanded2, moves).0;
    PopOptimal(grid, span, settled, expanded, nodes, e);
    RelaxLowers(state, expanded2, moves);
    RelaxCovers(state, expanded2, moves);
    assert Lowered(nodes, expanded2, nodes2);
    forall d | d in settled2
      ensures Moves(grid, d, settled2[d], span, 4).Ok? && Covers(Moves(grid, d, settled2[d], span, 4).value, expanded2, nodes2)
    {
      if d != e.1 {
        CoversMono(Moves(grid, d, settled[d], span, 4).value, expanded, nodes, expanded2, nodes2);
      }
    }
  }

  /** The first state of the search meets the invariant. */
  lemma FirstSettled(grid: seq<string>, span: (nat, nat))
    requires grid != [] && 1 <= span.0 <= span.1
    ensures Settled(grid, span, map[], {}, map[Start := 0])
  {
  }

  /** An expanded node is a state of the grid, so the search ends. */
  lemma Progress(grid: seq<string>, span: (nat, nat), expanded: set<Node>, nodes: map<Node, int>, n: Node)
    requires grid != [] && |grid[0]| > 0 && Sound(grid, span, nodes) && n in nodes && n !in expanded
    ensures |States(grid) - (expanded + {n})| < |States(grid) - expanded|
  {
    var moves :| Ends(grid, span, moves, n, nodes[n]);
    FollowInside(grid, span, moves);
    assert States(grid) - (expanded + {n}) == (States(grid) - expanded) - {n};
  }

  datatype Outcome = Found(loss: int) | NoPath | Failed(error: SearchError)

  /**
   * `min_heat_loss`: pop the cheapest node; stop with its cost at the bottom-right block;
   * otherwise expand it. A found loss is the least loss of any path of legal moves to the
   * bottom-right block; when the heap runs dry, no such path exists.
   */
  method MinHeatLoss(grid: seq<string>, ultra: bool) returns (r: Outcome)
    ensures r.Found? ==> r.loss >= 0 && ReachesGoal(grid, Span(ultra), r.loss)
    ensures r.Found? ==> forall l :: ReachesGoal(grid, Span(ultra), l) ==> r.loss <= l
    ensures r == NoPath || r == Failed(HeapExhausted) ==> forall l :: !ReachesGoal(grid, Span(ultra), l)
    ensures r == Failed(NoRows) <==> grid == []
    ensures r == Failed(NoColumns) <==> grid != [] && |grid[0]| == 0
    ensures |grid| == 1 && |grid[0]| == 1 ==> r == Found(0)
    ensures r == Failed(BadBlock) ==> exists n, c, td, t :: BadMove(grid, Span(ultra), n, c, td, t)
    ensures DigitGrid(grid) ==> r.Found? || r == NoPath || r == Failed(HeapExhausted)
  {
    DigitsNoBadMove(grid, Span(ultra));
    if grid == [] {
      return Failed(NoRows);
    }
    var span := Span(ultra);
    var frontier := new Frontier();
    var expanded: set<Node> := {};
    ghost var settled: map<Node, int> := map[];
    frontier.Push(Start, 0);
    ReachStart(grid, span);
    FirstSettled(grid, span);
    while frontier.HeapSize() > 0
      invariant Sound(grid, span, frontier.nodes) && Settled(grid, span, settled, expanded, frontier.nodes)
      invariant |grid[0]| == 0 || (|grid| == 1 && |grid[0]| == 1) ==> Start in frontier.nodes
      decreases |States(grid) - expanded|
    {
      var stop;
      stop, expanded, settled := Round(grid, span, frontier, expanded, settled);
      if stop.Some? {
        return stop.value;
      }
    }
    NoneLeft(grid, span, settled, expanded, frontier.nodes);
    return NoPath;
  }

  /**
   * One pass of the `while heap` loop: pop, stop at the goal, else expand. A stop carries the
   * outcome; otherwise the frontier stays sound, the invariant holds and one more state is expanded.
   */
  method Round(grid: seq<string>, span: (nat, nat), frontier: Frontier, expanded: set<Node>,
               ghost settled: map<Node, int>)
    returns (stop: Option<Outcome>, expanded2: set<Node>, ghost settled2: map<Node, int>)
    requires grid != [] && 1 <= span.0 <= span.1
    requires Sound(grid, span, frontier.nodes) && Settled(grid, span, settled, expanded, frontier.nodes)
    modifies frontier
    ensures stop.None? ==> Sound(grid, span, frontier.nodes) && Settled(grid, span, settled2, expanded2, frontier.nodes)
    ensures stop.None? ==> |States(grid) - expanded2| < |States(grid) - expanded|
    ensures stop.Some? && stop.value.Found? ==> stop.value.loss >= 0 && ReachesGoal(grid, span, stop.value.loss)
    ensures stop.Some? && stop.value.Found? ==> forall l :: ReachesGoal(grid, span, l) ==> stop.value.loss <= l
    ensures stop == Some(Failed(HeapExhausted)) ==> forall l :: !ReachesGoal(grid, span, l)
    ensures stop.Some? ==> stop.value in {Failed(NoColumns), Failed(BadBlock), Failed(HeapExhausted)} || stop.value.Found?
    ensures stop == Some(Failed(NoColumns)) ==> |grid[0]| == 0
    ensures stop == Some(Failed(BadBlock)) ==> exists n, c, td, t :: BadMove(grid, span, n, c, td, t)
    ensures |grid[0]| == 0 && old(frontier.nodes) != map[] ==> stop == Some(Failed(NoColumns))
    ensures |grid| == 1 && |grid[0]| == 1 && old(frontier.nodes) != map[] ==> stop == Some(Found(0))
  {
    expanded2, settled2 := expanded, settled;
    ghost var queued := frontier.nodes;
    var popped := frontier.Pop();
    if popped.Err? {
      NoneLeft(grid, span, settled, expanded, queued);
      return Some(Failed(HeapExhausted)), expanded2, settled2;
    }
    var (cost, node) := popped.value;
    PopBlock(grid, span, queued, popped.value);
    if node.0 == End(grid) {
      PopSound(grid, span, queued, popped.value);
      PopOptimal(grid, span, settled, expanded, queued, popped.value);
      GoalReached(grid, span, node, cost);
      if |grid| == 1 && |grid[0]| == 1 {
        TinyLoss(grid, span, cost);
      }
      return Some(Found(cost)), expanded2, settled2;
    }
    if |grid[0]| == 0 {
      return Some(Failed(NoColumns)), expanded2, settled2;
    }
    stop, expanded2, settled2 := Grow(grid, span, frontier, expanded, settled, queued, popped.value);
  }

  /** The expansion of the popped entry `e`: the node joins `expanded` and its moves are relaxed. */
  method Grow(grid: seq<string>, span: (nat, nat), frontier: Frontier, expanded: set<Node>,
              ghost settled: map<Node, int>, ghost queued: map<Node, int>, e: (int, Node))
    returns (stop: Option<Outcome>, expanded2: set<Node>, ghost settled2: map<Node, int>)
    requires grid != [] && |grid[0]| > 0 && 1 <= span.0 <= span.1
    requires Sound(grid, span, queued) && Settled(grid, span, settled, expanded, queued)
    requires Cheapest(queued, e) && e.1.0 != End(grid) && frontier.nodes == queued - {e.1}
    modifies frontier
    ensures stop.None? ==> Sound(grid, span, frontier.nodes) && Settled(grid, span, settled2, expanded2, frontier.nodes)
    ensures stop.None? ==> |States(grid) - expanded2| < |States(grid) - expanded|
    ensures stop.Some? ==> stop == Some(Failed(BadBlock))
    ensures stop.Some? ==> exists n, c, td, t :: BadMove(grid, span, n, c, td, t)
  {
    var (cost, node) := e;
    PopSound(grid, span, queued, e);
    expanded2 := expanded + {node};
    settled2 := settled[node := cost];
    ghost var state := (frontier.nodes, frontier.stale);
    var step := Expand(grid, span, frontier, node, cost, expanded2);
    if step.Err? {
      ghost var td, t := MovesBad(grid, node, cost, span, 4);
      assert BadMove(grid, span, node, cost, td, t);
      return Some(Failed(step.error)), expanded2, settled2;
    }
    ExpandSound(grid, span, state, expanded2, node, cost);
    ExpandSettled(grid, span, settled, expanded, queued, e, state);
    Progress(grid, span, expanded, queued, node);
    stop := None;
  }
}
