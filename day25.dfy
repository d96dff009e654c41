/**
 * Snowverload (day25): a wiring diagram read into an undirected graph, its connected groups
 * of components, and the three wires whose removal splits it in two.
 */
module Snowverload {
  import opened Wrappers
  import Text

  type Node = string

  /**
   * A dict from node to its set of neighbours: `keys` is the dict's insertion order,
   * `adj` its contents.
   */
  datatype Graph = Graph(keys: seq<Node>, adj: map<Node, set<Node>>)

  datatype SnowError =
    | BadLine(line: string)            // `src, rest = line.strip().split(": ")` does not unpack
    | Dangling                         // a neighbour that is not a key (`graph[dest]`)
    | MissingEdge(a: Node, b: Node)    // `graph_copy[a].remove(b)` of a wire that is not there
    | NoCut                            // no three candidate wires split the graph in two

  /** What every dict is: distinct keys in order, exactly the keys of the contents. */
  ghost predicate Valid(g: Graph)
  {
    (forall i, j :: 0 <= i < j < |g.keys| ==> g.keys[i] != g.keys[j]) &&
    (forall k :: k in g.adj <==> k in g.keys)
  }

  /** There is a wire from `a` to `b`. */
  predicate Wired(adj: map<Node, set<Node>>, a: Node, b: Node)
  {
    a in adj && b in adj[a]
  }

  /** Every wire is listed at both of its ends. */
  ghost predicate Symmetric(adj: map<Node, set<Node>>)
  {
    forall a, b :: Wired(adj, a, b) ==> Wired(adj, b, a)
  }

  // ---------------------------------------------------------------------------------------
  // Reading the diagram

  const Sep := ": "

  /** `s.split(sep)` for a non-empty `sep`: the pieces between leftmost non-overlapping occurrences. */
  function SplitOn(s: string, sep: string): (r: seq<string>)
    requires |sep| > 0
    ensures |r| >= 1
    decreases |s|
  {
    if |s| < |sep| then [s]
    else if s[..|sep|] == sep then [""] + SplitOn(s[|sep|..], sep)
    else
      var rest := SplitOn(s[1..], sep);
      [[s[0]] + rest[0]] + rest[1..]
  }

  /** `sep.join(parts)` for at least one part. */
  function JoinOn(parts: seq<string>, sep: string): string
    requires |parts| >= 1
  {
    if |parts| == 1 then parts[0] else parts[0] + sep + JoinOn(parts[1..], sep)
  }

  /** Joining the pieces of a split gives the text back. */
  lemma {:induction false} JoinSplitOn(s: string, sep: string)
    requires |sep| > 0
    ensures JoinOn(SplitOn(s, sep), sep) == s
    decreases |s|
  {
    if |s| < |sep| {
    } else if s[..|sep|] == sep {
      var rest := SplitOn(s[|sep|..], sep);
      assert SplitOn(s, sep) == [""] + rest;
      JoinSplitOn(s[|sep|..], sep);
      JoinEmpty(rest, sep);
      assert s == sep + s[|sep|..];
    } else {
      var rest := SplitOn(s[1..], sep);
      assert SplitOn(s, sep) == [[s[0]] + rest[0]] + rest[1..];
      JoinSplitOn(s[1..], sep);
      JoinCons(s[0], rest, sep);
      assert s == [s[0]] + s[1..];
    }
  }

  /** An empty first piece leaves the separator in front of the joined rest. */
  lemma JoinEmpty(rest: seq<string>, sep: string)
    requires |rest| >= 1
    ensures JoinOn([""] + rest, sep) == sep + JoinOn(rest, sep)
  {
    assert ([""] + rest)[1..] == rest;
  }

  /** A character before the first piece goes in front of the joined text. */
  lemma JoinCons(c: char, rest: seq<string>, sep: string)
    requires |rest| >= 1
    ensures JoinOn([[c] + rest[0]] + rest[1..], sep) == [c] + JoinOn(rest, sep)
  {
    var parts := [[c] + rest[0]] + rest[1..];
    if |rest| > 1 {
      assert parts[1..] == rest[1..];
    }
  }

  /** One line: the node before `": "` and the space-separated nodes after it. */
  function ParseLine(line: string): (r: Result<(Node, seq<Node>), SnowError>)
  {
    var parts := SplitOn(Text.Strip(line), Sep);
    if |parts| != 2 then Err(BadLine(line)) else Ok((parts[0], Text.Split(parts[1], ' ')))
  }

  /** An accepted line is its node, `": "` and its destinations joined by spaces, once stripped. */
  lemma ParseLineSound(line: string)
    requires ParseLine(line).Ok?
    ensures var (src, dests) := ParseLine(line).value;
            Text.Strip(line) == src + Sep + Text.Join(dests, ' ')
  {
    var parts := SplitOn(Text.Strip(line), Sep);
    JoinSplitOn(Text.Strip(line), Sep);
    Text.JoinSplit(parts[1], ' ');
    assert parts[1..] == [parts[1]];
  }

  /** `result.setdefault(a, set()).add(b)`: a new key goes to the end of the order. */
  function AddTo(g: Graph, a: Node, b: Node): Graph
  {
    if a in g.adj then Graph(g.keys, g.adj[a := g.adj[a] + {b}]) else Graph(g.keys + [a], g.adj[a := {b}])
  }

  /** Both ends of one listed wire. */
  function Connect(g: Graph, a: Node, b: Node): Graph
  {
    AddTo(AddTo(g, a, b), b, a)
  }

  /** The wires from `src` to the first `n` listed destinations. */
  function ConnectAll(g: Graph, src: Node, dests: seq<Node>, n: nat): Graph
    requires n <= |dests|
  {
    if n == 0 then g else Connect(ConnectAll(g, src, dests, n - 1), src, dests[n - 1])
  }

  /** The lines read so far, or the first line that does not unpack. */
  function Entries(lines: seq<string>, n: nat): (r: Result<seq<(Node, seq<Node>)>, SnowError>)
    requires n <= |lines|
  {
    if n == 0 then Ok([])
    else match Entries(lines, n - 1)
      case Err(e) => Err(e)
      case Ok(es) =>
        match ParseLine(lines[n - 1])
        case Err(e) => Err(e)
        case Ok(entry) => Ok(es + [entry])
  }

  /** The first line that does not unpack decides the outcome. */
  lemma {:induction false} EntriesStop(lines: seq<string>, n: nat, m: nat)
    requires n <= m <= |lines| && Entries(lines, n).Err?
    ensures Entries(lines, m) == Entries(lines, n)
    decreases m - n
  {
    if n < m {
      EntriesStop(lines, n, m - 1);
      var e := Entries(lines, m - 1);
      assert e.Err? && Entries(lines, m) == Err(e.error);
    }
  }

  /** The dict built from the first `n` read lines. */
  function Wiring(es: seq<(Node, seq<Node>)>, n: nat): Graph
    requires n <= |es|
  {
    if n == 0 then Graph([], map[])
    else
      var (src, dests) := es[n - 1];
      ConnectAll(Wiring(es, n - 1), src, dests, |dests|)
  }

  /** The diagram of all the lines, or the first line that does not unpack. */
  function Diagram(lines: seq<string>): Result<Graph, SnowError>
  {
    match Entries(lines, |lines|)
    case Err(e) => Err(e)
    case Ok(es) => Ok(Wiring(es, |es|))
  }

  /** `parse_input`: every listed wire is added at both of its ends. */
  method ParseInput(lines: seq<string>) returns (r: Result<Graph, SnowError>)
    ensures r == Diagram(lines)
  {
    var g := Graph([], map[]);
    ghost var es: seq<(Node, seq<Node>)> := [];
    for n := 0 to |lines|
      invariant Entries(lines, n) == Ok(es) && |es| == n
      invariant g == Wiring(es, n)
    {
      var parsed := ParseLine(lines[n]);
      if parsed.Err? {
        EntriesStop(lines, n + 1, |lines|);
        return Err(parsed.error);
      }
      var (src, dests) := parsed.value;
      ghost var before := g;
      for k := 0 to |dests|
        invariant g == ConnectAll(before, src, dests, k)
      {
        var dest := dests[k];
        if src in g.adj {
          g := Graph(g.keys, g.adj[src := g.adj[src] + {dest}]);
        } else {
          g := Graph(g.keys + [src], g.adj[src := {dest}]);
        }
        if dest in g.adj {
          g := Graph(g.keys, g.adj[dest := g.adj[dest] + {src}]);
        } else {
          g := Graph(g.keys + [dest], g.adj[dest := {src}]);
        }
      }
      WiringPrefix(es + [(src, dests)], n);
      es := es + [(src, dests)];
    }
    r := Ok(g);
  }

  /** The dict of the first `n` lines does not look at later ones. */
  lemma {:induction false} WiringPrefix(es: seq<(Node, seq<Node>)>, n: nat)
    requires n < |es|
    ensures Wiring(es[..n], n) == Wiring(es, n)
  {
    if n > 0 {
      WiringPrefix(es[..n], n - 1);
      WiringPrefix(es, n - 1);
      assert es[..n][..n - 1] == es[..n - 1];
      assert es[..n][n - 1] == es[n - 1];
    }
  }

  /** Adding a neighbour keeps the dict's shape, adds exactly that wire, and appends a new key. */
  lemma AddToSpec(g: Graph, a: Node, b: Node)
    requires Valid(g)
    ensures Valid(AddTo(g, a, b))
    ensures AddTo(g, a, b).keys == if a in g.adj then g.keys else g.keys + [a]
    ensures forall x, y :: Wired(AddTo(g, a, b).adj, x, y) <==> Wired(g.adj, x, y) || (x == a && y == b)
  {
  }

  /** One wire keeps the dict's shape and its symmetry, and adds exactly that wire both ways. */
  lemma ConnectSpec(g: Graph, a: Node, b: Node)
    requires Valid(g) && Symmetric(g.adj)
    ensures Valid(Connect(g, a, b)) && Symmetric(Connect(g, a, b).adj)
    ensures forall x, y :: Wired(Connect(g, a, b).adj, x, y) <==>
                           Wired(g.adj, x, y) || (x == a && y == b) || (x == b && y == a)
  {
    var g1 := AddTo(g, a, b);
    AddToSpec(g, a, b);
    AddToSpec(g1, b, a);
    var h := AddTo(g1, b, a);
    assert forall x, y :: Wired(h.adj, x, y) <==> Wired(g.adj, x, y) || (x == a && y == b) || (x == b && y == a);
    forall x, y | Wired(h.adj, x, y) ensures Wired(h.adj, y, x) {
      if Wired(g.adj, x, y) {
        assert Wired(g.adj, y, x);
      }
    }
  }

  /** `x`–`y` is the wire `a`–`b`, in either direction. */
  predicate Joins(x: Node, y: Node, a: Node, b: Node)
  {
    (x == a && y == b) || (x == b && y == a)
  }

  /** The wires after one line are those before it and the line's wires, both ways. */
  lemma {:induction false} ConnectAllSpec(g: Graph, src: Node, dests: seq<Node>, n: nat)
    requires n <= |dests| && Valid(g) && Symmetric(g.adj)
    ensures Valid(ConnectAll(g, src, dests, n)) && Symmetric(ConnectAll(g, src, dests, n).adj)
    ensures forall x, y :: Wired(ConnectAll(g, src, dests, n).adj, x, y) <==>
                           Wired(g.adj, x, y) || exists k :: 0 <= k < n && Joins(x, y, src, dests[k])
  {
    if n > 0 {
      ConnectAllSpec(g, src, dests, n - 1);
      var h := ConnectAll(g, src, dests, n - 1);
      ConnectSpec(h, src, dests[n - 1]);
      var h' := ConnectAll(g, src, dests, n);
      assert h' == Connect(h, src, dests[n - 1]);
      forall x, y ensures Wired(h'.adj, x, y) <==> Wired(g.adj, x, y) || exists k :: 0 <= k < n && Joins(x, y, src, dests[k])
      {
        if exists k :: 0 <= k < n && Joins(x, y, src, dests[k]) {
          var k :| 0 <= k < n && Joins(x, y, src, dests[k]);
          if k < n - 1 {
            assert Wired(h.adj, x, y);
          }
        }
        if Wired(h'.adj, x, y) && !Wired(g.adj, x, y) {
          if Wired(h.adj, x, y) {
            var k :| 0 <= k < n - 1 && Joins(x, y, src, dests[k]);
          } else {
            assert Joins(x, y, src, dests[n - 1]);
          }
        }
      }
    }
  }

  /**
   * The dict built from the read lines has every wire at both ends, and its wires are exactly
   * the listed ones, both ways.
   */
  lemma {:induction false} WiringSpec(es: seq<(Node, seq<Node>)>, n: nat)
    requires n <= |es|
    ensures Valid(Wiring(es, n)) && Symmetric(Wiring(es, n).adj)
    ensures forall x, y :: Wired(Wiring(es, n).adj, x, y) <==>
                           exists i, k :: 0 <= i < n && 0 <= k < |es[i].1| && Joins(x, y, es[i].0, es[i].1[k])
  {
    if n > 0 {
      WiringSpec(es, n - 1);
      var (src, dests) := es[n - 1];
      var h := Wiring(es, n - 1);
      ConnectAllSpec(h, src, dests, |dests|);
      forall x, y ensures Wired(Wiring(es, n).adj, x, y) <==>
                          exists i, k :: 0 <= i < n && 0 <= k < |es[i].1| && Joins(x, y, es[i].0, es[i].1[k])
      {
        if exists i, k :: 0 <= i < n && 0 <= k < |es[i].1| && Joins(x, y, es[i].0, es[i].1[k]) {
          var i, k :| 0 <= i < n && 0 <= k < |es[i].1| && Joins(x, y, es[i].0, es[i].1[k]);
          if i < n - 1 {
            assert Wired(h.adj, x, y);
          }
        }
        if Wired(Wiring(es, n).adj, x, y) && !Wired(h.adj, x, y) {
          var k :| 0 <= k < |dests| && Joins(x, y, src, dests[k]);
          assert Joins(x, y, es[n - 1].0, es[n - 1].1[k]);
        }
      }
    }
  }

  /** A diagram read without error is a dict whose every wire is listed at both ends. */
  lemma DiagramSymmetric(lines: seq<string>)
    requires Diagram(lines).Ok?
    ensures Valid(Diagram(lines).value) && Symmetric(Diagram(lines).value.adj)
  {
    var es := Entries(lines, |lines|).value;
    WiringSpec(es, |es|);
  }

  // ---------------------------------------------------------------------------------------
  // Connected components, as written: one sweep per component

  /** `{s} | graph[s]`, the closed neighbourhood of `s`. */
  function Group(adj: map<Node, set<Node>>, s: Node): set<Node>
    requires s in adj
  {
    {s} + adj[s]
  }

  /**
   * One sweep over the first `n` later keys: each whose closed neighbourhood meets the component
   * built so far is merged and deleted, the others are kept in order.
   */
  function Sweep(adj: map<Node, set<Node>>, comp: set<Node>, srcs: seq<Node>, n: nat): (set<Node>, seq<Node>)
    requires n <= |srcs| && forall k :: k in srcs ==> k in adj
  {
    if n == 0 then (comp, [])
    else
      var (c, kept) := Sweep(adj, comp, srcs, n - 1);
      var s := srcs[n - 1];
      if Group(adj, s) * c != {} then (c + Group(adj, s), kept) else (c, kept + [s])
  }

  /** The sweep keeps only keys it was given, and grows the component. */
  lemma {:induction false} SweepKeeps(adj: map<Node, set<Node>>, comp: set<Node>, srcs: seq<Node>, n: nat)
    requires n <= |srcs| && forall k :: k in srcs ==> k in adj
    ensures |Sweep(adj, comp, srcs, n).1| <= n
    ensures forall k :: k in Sweep(adj, comp, srcs, n).1 ==> k in srcs[..n]
    ensures comp <= Sweep(adj, comp, srcs, n).0
    ensures forall k :: k in srcs[..n] ==> k in Sweep(adj, comp, srcs, n).0 || k in Sweep(adj, comp, srcs, n).1
  {
    if n > 0 {
      SweepKeeps(adj, comp, srcs, n - 1);
      assert srcs[..n] == srcs[..n - 1] + [srcs[n - 1]];
    }
  }

  /** `connected_components` as written: the first remaining key seeds a component, grown by one sweep. */
  function SinglePass(adj: map<Node, set<Node>>, keys: seq<Node>): seq<set<Node>>
    requires forall k :: k in keys ==> k in adj
    decreases |keys|
  {
    if keys == [] then []
    else
      var (comp, kept) := Sweep(adj, Group(adj, keys[0]), keys[1..], |keys| - 1);
      SweepKeeps(adj, Group(adj, keys[0]), keys[1..], |keys| - 1);
      assert keys[1..][..|keys| - 1] == keys[1..];
      [comp] + SinglePass(adj, kept)
  }

  /**
   * `connected_components`: works on the remaining keys of a copy (the copied neighbour sets are
   * never changed, so they are read from the argument) and deletes each seed and each merged key.
   */
  method ConnectedComponents(g: Graph) returns (components: seq<set<Node>>)
    requires Valid(g)
    ensures components == SinglePass(g.adj, g.keys)
  {
    var keys := g.keys;
    components := [];
    while |keys| > 0
      invariant forall k :: k in keys ==> k in g.adj
      invariant components + SinglePass(g.adj, keys) == SinglePass(g.adj, g.keys)
      decreases |keys|
    {
      var src, srcs := keys[0], keys[1..];
      var component := Group(g.adj, src);
      var kept: seq<Node> := [];
      for i := 0 to |srcs|
        invariant (component, kept) == Sweep(g.adj, Group(g.adj, src), srcs, i)
      {
        var group := Group(g.adj, srcs[i]);
        if group * component != {} {
          component := component + group;
        } else {
          kept := kept + [srcs[i]];
        }
      }
      SweepKeeps(g.adj, Group(g.adj, src), srcs, |srcs|);
      assert srcs[..|srcs|] == srcs;
      assert SinglePass(g.adj, keys) == [component] + SinglePass(g.adj, kept);
      components := components + [component];
      keys := kept;
    }
  }

  /** Every key lands in some component, and there are no more components than keys. */
  lemma {:induction false} SinglePassCovers(adj: map<Node, set<Node>>, keys: seq<Node>)
    requires forall k :: k in keys ==> k in adj
    ensures |SinglePass(adj, keys)| <= |keys|
    ensures forall k :: k in keys ==> exists i :: 0 <= i < |SinglePass(adj, keys)| && k in SinglePass(adj, keys)[i]
    decreases |keys|
  {
    if keys != [] {
      var seed := Group(adj, keys[0]);
      var (comp, kept) := Sweep(adj, seed, keys[1..], |keys| - 1);
      SweepKeeps(adj, seed, keys[1..], |keys| - 1);
      assert keys[1..][..|keys| - 1] == keys[1..];
      SinglePassCovers(adj, kept);
      var cs := SinglePass(adj, keys);
      assert cs == [comp] + SinglePass(adj, kept);
      forall k | k in keys ensures exists i :: 0 <= i < |cs| && k in cs[i] {
        if k == keys[0] {
          assert k in cs[0];
        } else if k in comp {
          assert k in cs[0];
        } else {
          assert k in keys[1..];
          var i :| 0 <= i < |SinglePass(adj, kept)| && k in SinglePass(adj, kept)[i];
          assert k in cs[i + 1];
        }
      }
    }
  }

  /** Each component holds the closed neighbourhood of the key that seeded it. */
  lemma {:induction false} SinglePassSeeds(adj: map<Node, set<Node>>, keys: seq<Node>)
    requires forall k :: k in keys ==> k in adj
    ensures forall i :: 0 <= i < |SinglePass(adj, keys)| ==>
              exists s :: s in keys && Group(adj, s) <= SinglePass(adj, keys)[i]
    decreases |keys|
  {
    if keys != [] {
      var seed := Group(adj, keys[0]);
      var (comp, kept) := Sweep(adj, seed, keys[1..], |keys| - 1);
      SweepKeeps(adj, seed, keys[1..], |keys| - 1);
      assert keys[1..][..|keys| - 1] == keys[1..];
      SinglePassSeeds(adj, kept);
      var cs := SinglePass(adj, keys);
      assert cs == [comp] + SinglePass(adj, kept);
      forall i | 0 <= i < |cs| ensures exists s :: s in keys && Group(adj, s) <= cs[i] {
        if i == 0 {
          assert keys[0] in keys;
        } else {
          assert cs[i] == SinglePass(adj, kept)[i - 1];
          var s :| s in kept && Group(adj, s) <= cs[i];
          assert s in keys[1..];
          assert s in keys;
        }
      }
    } else {
      assert SinglePass(adj, keys) == [];
    }
  }

  // ---------------------------------------------------------------------------------------
  // Connected components, corrected: grow each component until no remaining key touches it

  /** A walk along wires. */
  ghost predicate IsPath(adj: map<Node, set<Node>>, p: seq<Node>)
  {
    |p| >= 1 && forall i :: 0 <= i < |p| - 1 ==> Wired(adj, p[i], p[i + 1])
  }

  /** `b` can be reached from `a` along wires. */
  ghost predicate Linked(adj: map<Node, set<Node>>, a: Node, b: Node)
  {
    exists p :: IsPath(adj, p) && p[0] == a && p[|p| - 1] == b
  }

  lemma LinkedSelf(adj: map<Node, set<Node>>, a: Node)
    ensures Linked(adj, a, a)
  {
    assert IsPath(adj, [a]);
  }

  lemma LinkedStep(adj: map<Node, set<Node>>, a: Node, b: Node, c: Node)
    requires Linked(adj, a, b) && Wired(adj, b, c)
    ensures Linked(adj, a, c)
  {
    var p :| IsPath(adj, p) && p[0] == a && p[|p| - 1] == b;
    var q := p + [c];
    assert forall i :: 0 <= i < |q| - 1 ==> Wired(adj, q[i], q[i + 1]) by {
      forall i | 0 <= i < |q| - 1 ensures Wired(adj, q[i], q[i + 1]) {
        if i < |p| - 1 {
          assert q[i] == p[i] && q[i + 1] == p[i + 1];
        }
      }
    }
    assert IsPath(adj, q);
  }

  lemma LinkedSym(adj: map<Node, set<Node>>, a: Node, b: Node)
    requires Symmetric(adj) && Linked(adj, a, b)
    ensures Linked(adj, b, a)
  {
    var p :| IsPath(adj, p) && p[0] == a && p[|p| - 1] == b;
    var q := seq(|p|, i requires 0 <= i < |p| => p[|p| - 1 - i]);
    forall i | 0 <= i < |q| - 1 ensures Wired(adj, q[i], q[i + 1]) {
      var j := |p| - 2 - i;
      assert Wired(adj, p[j], p[j + 1]);
      assert q[i] == p[j + 1] && q[i + 1] == p[j];
    }
    assert IsPath(adj, q);
  }

  lemma LinkedTrans(adj: map<Node, set<Node>>, a: Node, b: Node, c: Node)
    requires Linked(adj, a, b) && Linked(adj, b, c)
    ensures Linked(adj, a, c)
  {
    var p :| IsPath(adj, p) && p[0] == a && p[|p| - 1] == b;
    var q :| IsPath(adj, q) && q[0] == b && q[|q| - 1] == c;
    var w := p + q[1..];
    forall i | 0 <= i < |w| - 1 ensures Wired(adj, w[i], w[i + 1]) {
      if i < |p| - 1 {
        assert w[i] == p[i] && w[i + 1] == p[i + 1];
      } else {
        var j := i - (|p| - 1);
        assert w[i] == q[j] && w[i + 1] == q[j + 1];
      }
    }
    assert IsPath(adj, w);
  }

  /** The first remaining key whose closed neighbourhood meets the component. */
  function FirstMeeting(adj: map<Node, set<Node>>, comp: set<Node>, rest: seq<Node>): (r: Option<nat>)
    requires forall k :: k in rest ==> k in adj
    ensures r.Some? ==> r.value < |rest| && Group(adj, rest[r.value]) * comp != {}
    ensures r.None? ==> forall k :: k in rest ==> Group(adj, k) * comp == {}
  {
    if rest == [] then None
    else if Group(adj, rest[0]) * comp != {} then Some(0)
    else match FirstMeeting(adj, comp, rest[1..])
      case None => None
      case Some(i) => Some(i + 1)
  }

  /** The keys other than the one at `i`, in order. */
  function Without(rest: seq<Node>, i: nat): (r: seq<Node>)
    requires i < |rest|
    ensures |r| == |rest| - 1
    ensures forall k :: k in r ==> k in rest
    ensures forall k :: k in rest && k != rest[i] ==> k in r
  {
    rest[..i] + rest[i + 1..]
  }

  /** Merges meeting keys until none is left: the whole connected part around the seed. */
  function Grow(adj: map<Node, set<Node>>, comp: set<Node>, rest: seq<Node>): (set<Node>, seq<Node>)
    requires forall k :: k in rest ==> k in adj
    decreases |rest|
  {
    match FirstMeeting(adj, comp, rest)
    case None => (comp, rest)
    case Some(i) => Grow(adj, comp + Group(adj, rest[i]), Without(rest, i))
  }

  /** Growing keeps only keys it was given. */
  lemma {:induction false} GrowKeeps(adj: map<Node, set<Node>>, comp: set<Node>, rest: seq<Node>)
    requires forall k :: k in rest ==> k in adj
    ensures |Grow(adj, comp, rest).1| <= |rest|
    ensures forall k :: k in Grow(adj, comp, rest).1 ==> k in rest
    decreases |rest|
  {
    match FirstMeeting(adj, comp, rest)
    case None =>
    case Some(i) => GrowKeeps(adj, comp + Group(adj, rest[i]), Without(rest, i));
  }

  /** The corrected `connected_components`: each component grown to its whole connected part. */
  function Components(adj: map<Node, set<Node>>, keys: seq<Node>): seq<set<Node>>
    requires forall k :: k in keys ==> k in adj
    decreases |keys|
  {
    if keys == [] then []
    else
      var (comp, kept) := Grow(adj, Group(adj, keys[0]), keys[1..]);
      GrowKeeps(adj, Group(adj, keys[0]), keys[1..]);
      [comp] + Components(adj, kept)
  }

  /** The remaining keys `K` hold every neighbour of each of them. */
  ghost predicate Closed(adj: map<Node, set<Node>>, K: set<Node>)
  {
    (forall k :: k in K ==> k in adj) && forall k, t :: k in K && t in adj[k] ==> t in K
  }

  /** What holds of the component while it grows from the seed `s` within the keys `K`. */
  ghost predicate Growing(adj: map<Node, set<Node>>, K: set<Node>, s: Node, comp: set<Node>, rest: seq<Node>)
  {
    (forall k :: k in rest ==> k in K) &&
    (forall x :: x in comp ==> x in K) &&
    (forall x :: x in comp && x !in rest ==> x in adj && adj[x] <= comp) &&
    (forall x :: x in K ==> x in comp || x in rest) &&
    (forall x :: x in comp ==> Linked(adj, s, x))
  }

  /** One merge keeps the growing invariant. */
  lemma MergeStep(adj: map<Node, set<Node>>, K: set<Node>, s: Node, comp: set<Node>, rest: seq<Node>, i: nat)
    requires Symmetric(adj) && Closed(adj, K) && Growing(adj, K, s, comp, rest)
    requires i < |rest| && Group(adj, rest[i]) * comp != {}
    ensures Growing(adj, K, s, comp + Group(adj, rest[i]), Without(rest, i))
  {
    var r := rest[i];
    assert r in rest;
    var y :| y in Group(adj, r) * comp;
    assert Linked(adj, s, y);
    if y != r {
      assert Wired(adj, y, r);
      LinkedStep(adj, s, y, r);
    }
    var comp' := comp + Group(adj, r);
    forall x | x in comp' ensures Linked(adj, s, x) {
      if x !in comp && x != r {
        LinkedStep(adj, s, r, x);
      }
    }
  }

  /** At the end of growing, the component is closed, linked to the seed, and apart from the kept keys. */
  lemma {:induction false} GrowSpec(adj: map<Node, set<Node>>, K: set<Node>, s: Node, comp: set<Node>, rest: seq<Node>)
    requires Symmetric(adj) && Closed(adj, K) && Growing(adj, K, s, comp, rest)
    ensures var (c, kept) := Grow(adj, comp, rest);
            comp <= c && c <= K &&
            (forall k :: k in kept ==> k in rest && k !in c) &&
            (forall x :: x in K ==> x in c || x in kept) &&
            (forall x :: x in c ==> adj[x] <= c) &&
            (forall x :: x in c ==> Linked(adj, s, x))
    decreases |rest|
  {
    match FirstMeeting(adj, comp, rest)
    case None =>
      forall k | k in rest ensures k !in comp {
        assert Group(adj, k) * comp == {};
        assert k !in Group(adj, k) * comp;
      }
    case Some(i) =>
      MergeStep(adj, K, s, comp, rest, i);
      GrowSpec(adj, K, s, comp + Group(adj, rest[i]), Without(rest, i));
  }

  /** The growing invariant at the start: the seed's closed neighbourhood, the later keys pending. */
  lemma GrowingStart(adj: map<Node, set<Node>>, keys: seq<Node>)
    requires keys != [] && Closed(adj, (set k | k in keys))
    ensures Growing(adj, (set k | k in keys), keys[0], Group(adj, keys[0]), keys[1..])
  {
    var K := set k | k in keys;
    var s := keys[0];
    var comp := Group(adj, s);
    assert s in K;
    assert forall k :: k in keys[1..] ==> k in K;
    assert comp <= K;
    forall x | x in comp && x !in keys[1..] ensures x in adj && adj[x] <= comp {
      assert x in K;
      var j :| 0 <= j < |keys| && keys[j] == x;
      if j > 0 {
        assert keys[1..][j - 1] == x;
      }
    }
    LinkedSelf(adj, s);
    forall x | x in Group(adj, s) ensures Linked(adj, s, x) {
      if x != s {
        LinkedStep(adj, s, s, x);
      }
    }
    forall x | x in K ensures x in Group(adj, s) || x in keys[1..] {
      var j :| 0 <= j < |keys| && keys[j] == x;
      if j > 0 {
        assert keys[1..][j - 1] == x;
      }
    }
  }

  /** The first corrected component and the keys left for the others. */
  lemma ComponentsHead(adj: map<Node, set<Node>>, keys: seq<Node>) returns (c: set<Node>, kept: seq<Node>)
    requires keys != [] && Symmetric(adj) && Closed(adj, set k | k in keys)
    ensures forall k :: k in kept ==> k in keys && k in adj && k !in c
    ensures Components(adj, keys) == [c] + Components(adj, kept)
    ensures |kept| < |keys| && Closed(adj, set k | k in kept)
    ensures keys[0] in c && forall x :: x in c ==> x in keys && x in adj && adj[x] <= c && Linked(adj, keys[0], x)
    ensures forall k :: k in keys ==> k in c || k in kept
  {
    var K := set k | k in keys;
    var s := keys[0];
    GrowingStart(adj, keys);
    GrowSpec(adj, K, s, Group(adj, s), keys[1..]);
    GrowKeeps(adj, Group(adj, s), keys[1..]);
    c, kept := Grow(adj, Group(adj, s), keys[1..]).0, Grow(adj, Group(adj, s), keys[1..]).1;
    forall k, t | k in kept && t in adj[k] ensures t in kept {
      assert k in K;
      if t in c {
        assert Wired(adj, k, t);
        assert false;
      }
    }
    forall k | k in kept ensures k in keys {
      assert k in keys[1..];
    }
  }

  /** `C` holds only keys, each with all of its neighbours. */
  ghost predicate ClosedPart(adj: map<Node, set<Node>>, keys: seq<Node>, C: set<Node>)
  {
    forall x :: x in C ==> x in keys && x in adj && adj[x] <= C
  }

  /** Every member of a corrected component is a key, with all of its neighbours in the component. */
  lemma {:induction false} ComponentsClosed(adj: map<Node, set<Node>>, keys: seq<Node>)
    requires Symmetric(adj) && Closed(adj, set k | k in keys)
    ensures forall i :: 0 <= i < |Components(adj, keys)| ==> ClosedPart(adj, keys, Components(adj, keys)[i])
    decreases |keys|
  {
    if keys != [] {
      var c, kept := ComponentsHead(adj, keys);
      ComponentsClosed(adj, kept);
      var rest := Components(adj, kept);
      var cs := Components(adj, keys);
      assert ClosedPart(adj, keys, c);
      forall i | 0 <= i < |cs| ensures ClosedPart(adj, keys, cs[i]) {
        if i > 0 {
          assert cs[i] == rest[i - 1];
          assert ClosedPart(adj, kept, rest[i - 1]);
        }
      }
    } else {
      assert Components(adj, keys) == [];
    }
  }

  /** `k` is in one of the components. */
  ghost predicate InSome(cs: seq<set<Node>>, k: Node)
  {
    exists i :: 0 <= i < |cs| && k in cs[i]
  }

  /** Every key is in some corrected component, and none is empty. */
  lemma {:induction false} ComponentsCover(adj: map<Node, set<Node>>, keys: seq<Node>)
    requires Symmetric(adj) && Closed(adj, set k | k in keys)
    ensures forall k :: k in keys ==> InSome(Components(adj, keys), k)
    ensures forall i :: 0 <= i < |Components(adj, keys)| ==> Components(adj, keys)[i] != {}
    decreases |keys|
  {
    if keys != [] {
      var c, kept := ComponentsHead(adj, keys);
      ComponentsCover(adj, kept);
      var rest := Components(adj, kept);
      var cs := Components(adj, keys);
      forall k | k in keys ensures InSome(cs, k) {
        if k in c {
          assert k in cs[0];
        } else {
          assert InSome(rest, k);
          var i :| 0 <= i < |rest| && k in rest[i];
          assert k in cs[i + 1];
        }
      }
      forall i | 0 <= i < |cs| ensures cs[i] != {} {
        if i > 0 {
          assert cs[i] == rest[i - 1];
        } else {
          assert keys[0] in cs[0];
        }
      }
    } else {
      assert Components(adj, keys) == [];
    }
  }

  /** No node is in two corrected components. */
  lemma {:induction false} ComponentsDisjoint(adj: map<Node, set<Node>>, keys: seq<Node>)
    requires Symmetric(adj) && Closed(adj, set k | k in keys)
    ensures forall i, j, x :: 0 <= i < j < |Components(adj, keys)| && x in Components(adj, keys)[i] ==>
              x !in Components(adj, keys)[j]
    decreases |keys|
  {
    if keys != [] {
      var c, kept := ComponentsHead(adj, keys);
      ComponentsDisjoint(adj, kept);
      ComponentsClosed(adj, kept);
      var rest := Components(adj, kept);
      var cs := Components(adj, keys);
      forall i, j, x | 0 <= i < j < |cs| && x in cs[i] ensures x !in cs[j] {
        assert cs[j] == rest[j - 1];
        if i > 0 {
          assert cs[i] == rest[i - 1];
        } else {
          assert cs[0] == c && x !in kept;
          assert ClosedPart(adj, kept, rest[j - 1]);
        }
      }
    } else {
      assert Components(adj, keys) == [];
    }
  }

  /** Any two members of a corrected component are linked by wires. */
  lemma {:induction false} ComponentsLinked(adj: map<Node, set<Node>>, keys: seq<Node>)
    requires Symmetric(adj) && Closed(adj, set k | k in keys)
    ensures forall i, x, y ::
              0 <= i < |Components(adj, keys)| && x in Components(adj, keys)[i] && y in Components(adj, keys)[i]
              ==> Linked(adj, x, y)
    decreases |keys|
  {
    if keys != [] {
      var c, kept := ComponentsHead(adj, keys);
      ComponentsLinked(adj, kept);
      var rest := Components(adj, kept);
      var cs := Components(adj, keys);
      forall i, x, y | 0 <= i < |cs| && x in cs[i] && y in cs[i] ensures Linked(adj, x, y) {
        if i == 0 {
          LinkedSym(adj, keys[0], x);
          LinkedTrans(adj, x, keys[0], y);
        } else {
          assert cs[i] == rest[i - 1];
        }
      }
    } else {
      assert Components(adj, keys) == [];
    }
  }

  /** A dict whose wires are listed at both ends holds every neighbour of its keys. */
  lemma DictClosed(g: Graph)
    requires Valid(g) && Symmetric(g.adj)
    ensures Closed(g.adj, set k | k in g.keys)
  {
    var K := set k | k in g.keys;
    forall k, t | k in K && t in g.adj[k] ensures t in K {
      assert Wired(g.adj, k, t);
      assert Wired(g.adj, t, k);
    }
  }

  /**
   * `cs` are the connected parts of the keys: each key is in one of them, no two share a node,
   * each holds only keys and every neighbour of its members, any two members of one are linked
   * by wires, and none is empty.
   */
  ghost predicate ConnectedParts(adj: map<Node, set<Node>>, keys: seq<Node>, cs: seq<set<Node>>)
  {
    (forall k :: k in keys ==> InSome(cs, k)) &&
    (forall i, j, x :: 0 <= i < j < |cs| && x in cs[i] ==> x !in cs[j]) &&
    (forall i :: 0 <= i < |cs| ==> ClosedPart(adj, keys, cs[i])) &&
    (forall i, x, y :: 0 <= i < |cs| && x in cs[i] && y in cs[i] ==> Linked(adj, x, y)) &&
    (forall i :: 0 <= i < |cs| ==> cs[i] != {})
  }

  /** The corrected components of a diagram are its connected parts. */
  lemma ComponentsPartition(g: Graph)
    requires Valid(g) && Symmetric(g.adj)
    ensures ConnectedParts(g.adj, g.keys, Components(g.adj, g.keys))
  {
    DictClosed(g);
    ComponentsClosed(g.adj, g.keys);
    ComponentsCover(g.adj, g.keys);
    ComponentsDisjoint(g.adj, g.keys);
    ComponentsLinked(g.adj, g.keys);
  }

  /** A line `s: d` naming one node on each side with a single letter. */
  predicate SimpleLine(line: string)
  {
    |line| == 4 && line[1..3] == Sep && line[0] != ':' && !Text.IsSpace(line[0]) && !Text.IsSpace(line[3])
  }

  /** A simple line reads as the wire from its first letter to its last. */
  lemma ParseSimpleLine(line: string)
    requires SimpleLine(line)
    ensures ParseLine(line) == Ok(([line[0]], [[line[3]]]))
  {
    var src, dst := line[0], line[3];
    assert line == [src] + Sep + [dst];
    Text.StripTrimmed(line);
    assert line[1..] == Sep + [dst];
    assert (Sep + [dst])[..2] == Sep;
    assert (Sep + [dst])[2..] == [dst];
    assert SplitOn(Sep + [dst], Sep) == [""] + SplitOn([dst], Sep);
    assert line[..2] != Sep by {
      assert line[..2][0] == src;
    }
    assert SplitOn([dst], Sep) == [[dst]];
    var rest := SplitOn(line[1..], Sep);
    assert rest == [""] + [[dst]];
    assert SplitOn(line, Sep) == [[line[0]] + rest[0]] + rest[1..];
    assert [line[0]] + rest[0] == [src] && rest[1..] == [[dst]];
    assert SplitOn(line, Sep) == [[src], [dst]];
    assert Text.IndexOf([dst], ' ') == None;
    assert Text.Split([dst], ' ') == [[dst]];
  }

  /** The wires the first `n` lines read as, when each is simple. */
  function SimpleEntries(lines: seq<string>, n: nat): seq<(Node, seq<Node>)>
    requires n <= |lines| && forall i :: 0 <= i < n ==> SimpleLine(lines[i])
  {
    if n == 0 then []
    else
      var line := lines[n - 1];
      assert SimpleLine(line);
      SimpleEntries(lines, n - 1) + [([line[0]], [[line[3]]])]
  }

  /** Lines that are all simple read as their wires. */
  lemma {:induction false} ReadSimple(lines: seq<string>, n: nat)
    requires n <= |lines| && forall i :: 0 <= i < n ==> SimpleLine(lines[i])
    ensures Entries(lines, n) == Ok(SimpleEntries(lines, n))
  {
    if n > 0 {
      ReadSimple(lines, n - 1);
      ParseSimpleLine(lines[n - 1]);
    }
  }

  /** Any two nodes on a walk are linked, when every wire is listed at both ends. */
  lemma PathLinks(adj: map<Node, set<Node>>, p: seq<Node>, i: nat, j: nat)
    requires Symmetric(adj) && IsPath(adj, p) && i < |p| && j < |p|
    ensures Linked(adj, p[i], p[j])
  {
    if i <= j {
      var q := p[i..j + 1];
      forall k | 0 <= k < |q| - 1 ensures Wired(adj, q[k], q[k + 1]) {
        assert q[k] == p[i + k] && q[k + 1] == p[i + k + 1];
      }
      assert IsPath(adj, q);
    } else {
      PathLinks(adj, p, j, i);
      LinkedSym(adj, p[j], p[i]);
    }
  }

  /** Five different one-letter names that may stand on either side of `": "`. */
  predicate Letters(a: char, x: char, b: char, y: char, z: char)
  {
    (forall c :: c in [a, x, b, y, z] ==> c != ':' && !Text.IsSpace(c)) &&
    a != x && a != b && a != y && a != z && x != b && x != y && x != z && b != y && b != z && y != z
  }

  /**
   * The wires `a: x`, `b: y`, `x: z`, `z: y` form one connected graph, but its keys come in the
   * order a, x, b, y, z: the sweep from `a` passes `b` before `y` joins, so `b` seeds a second
   * component that overlaps the first.
   */
  function TangleLines(a: char, x: char, b: char, y: char, z: char): seq<string>
  {
    [[a] + Sep + [x], [b] + Sep + [y], [x] + Sep + [z], [z] + Sep + [y]]
  }

  /** The graph those four lines describe, with `A` standing for the node `[a]` and so on. */
  ghost predicate IsTangle(g: Graph, A: Node, X: Node, B: Node, Y: Node, Z: Node)
  {
    g.keys == [A, X, B, Y, Z] && g.adj.Keys == {A, X, B, Y, Z} &&
    g.adj[A] == {X} && g.adj[X] == {A, Z} && g.adj[B] == {Y} && g.adj[Y] == {B, Z} && g.adj[Z] == {X, Y}
  }

  /** Each of the four lines unpacks into its one wire. */
  lemma TangleRead(a: char, x: char, b: char, y: char, z: char)
    requires Letters(a, x, b, y, z)
    ensures Entries(TangleLines(a, x, b, y, z), 4) == Ok([([a], [[x]]), ([b], [[y]]), ([x], [[z]]), ([z], [[y]])])
  {
    var lines := TangleLines(a, x, b, y, z);
    assert a in [a, x, b, y, z] && x in [a, x, b, y, z] && b in [a, x, b, y, z];
    assert y in [a, x, b, y, z] && z in [a, x, b, y, z];
    assert SimpleLine(lines[0]) && SimpleLine(lines[1]) && SimpleLine(lines[2]) && SimpleLine(lines[3]);
    ReadSimple(lines, 4);
    var es := [([a], [[x]]), ([b], [[y]]), ([x], [[z]]), ([z], [[y]])];
    assert SimpleEntries(lines, 1) == es[..1];
    assert SimpleEntries(lines, 2) == es[..2];
    assert SimpleEntries(lines, 3) == es[..3];
    assert SimpleEntries(lines, 4) == es[..4] == es;
  }

  /** A read line with one destination adds that one wire. */
  lemma WireOne(es: seq<(Node, seq<Node>)>, n: nat)
    requires 0 < n <= |es| && |es[n - 1].1| == 1
    ensures Wiring(es, n) == Connect(Wiring(es, n - 1), es[n - 1].0, es[n - 1].1[0])
  {
    var (src, dests) := es[n - 1];
    assert ConnectAll(Wiring(es, n - 1), src, dests, 0) == Wiring(es, n - 1);
  }

  /** The first two wires of the tangle. */
  lemma TangleHalf(es: seq<(Node, seq<Node>)>, A: Node, X: Node, B: Node, Y: Node, Z: Node)
    requires A != X && A != B && A != Y && X != B && X != Y && B != Y
    requires es == [(A, [X]), (B, [Y]), (X, [Z]), (Z, [Y])]
    ensures Wiring(es, 2).keys == [A, X, B, Y]
    ensures Wiring(es, 2).adj == map[A := {X}, X := {A}, B := {Y}, Y := {B}]
  {
    WireOne(es, 1);
    WireOne(es, 2);
    var w1 := Wiring(es, 1);
    assert w1.keys == [A, X] && w1.adj == map[A := {X}, X := {A}];
  }

  /** The last two wires of the tangle. */
  lemma TangleRest(w: Graph, A: Node, X: Node, B: Node, Y: Node, Z: Node)
    requires A != X && A != B && A != Y && A != Z && X != B && X != Y && X != Z && B != Y && B != Z && Y != Z
    requires w.keys == [A, X, B, Y] && w.adj == map[A := {X}, X := {A}, B := {Y}, Y := {B}]
    ensures IsTangle(Connect(Connect(w, X, Z), Z, Y), A, X, B, Y, Z)
  {
    var h2 := AddTo(w, X, Z);
    assert X in w.adj && w.adj[X] + {Z} == {A, Z};
    assert h2.keys == w.keys && h2.adj == w.adj[X := {A, Z}];
    var w3 := AddTo(h2, Z, X);
    assert Z !in h2.adj;
    assert w3.keys == [A, X, B, Y, Z] && w3.adj == h2.adj[Z := {X}];
    var h3 := AddTo(w3, Z, Y);
    assert Z in w3.adj && w3.adj[Z] + {Y} == {X, Y};
    assert h3.keys == w3.keys && h3.adj == w3.adj[Z := {X, Y}];
    var w4 := AddTo(h3, Y, Z);
    assert Y in h3.adj && h3.adj[Y] + {Z} == {B, Z};
    assert w4.keys == w3.keys && w4.adj == h3.adj[Y := {B, Z}];
    assert w4.adj.Keys == {A, X, B, Y, Z};
  }

  /** Adding the four wires one after another builds the tangle. */
  lemma TangleBuilt(A: Node, X: Node, B: Node, Y: Node, Z: Node)
    requires A != X && A != B && A != Y && A != Z && X != B && X != Y && X != Z && B != Y && B != Z && Y != Z
    ensures IsTangle(Wiring([(A, [X]), (B, [Y]), (X, [Z]), (Z, [Y])], 4), A, X, B, Y, Z)
  {
    var es := [(A, [X]), (B, [Y]), (X, [Z]), (Z, [Y])];
    TangleHalf(es, A, X, B, Y, Z);
    WireOne(es, 3);
    WireOne(es, 4);
    TangleRest(Wiring(es, 2), A, X, B, Y, Z);
  }

  /** The diagram of those four lines is that graph. */
  lemma TangleParsed(a: char, x: char, b: char, y: char, z: char)
    requires Letters(a, x, b, y, z)
    ensures Diagram(TangleLines(a, x, b, y, z)).Ok?
    ensures IsTangle(Diagram(TangleLines(a, x, b, y, z)).value, [a], [x], [b], [y], [z])
  {
    TangleRead(a, x, b, y, z);
    assert [a] != [x] && [a] != [b] && [a] != [y] && [a] != [z] && [x] != [b];
    assert [x] != [y] && [x] != [z] && [b] != [y] && [b] != [z] && [y] != [z];
    TangleBuilt([a], [x], [b], [y], [z]);
  }

  /** The tangle is a dict with every wire at both ends. */
  lemma TangleSymmetric(g: Graph, A: Node, X: Node, B: Node, Y: Node, Z: Node)
    requires IsTangle(g, A, X, B, Y, Z)
    requires A != X && A != B && A != Y && A != Z && X != B && X != Y && X != Z && B != Y && B != Z && Y != Z
    ensures Valid(g) && Symmetric(g.adj)
  {
    forall u, v | Wired(g.adj, u, v) ensures Wired(g.adj, v, u) {
      assert u in {A, X, B, Y, Z};
    }
  }

  /** The tangle is a dict with every wire at both ends, and it is connected. */
  lemma TangleConnected(g: Graph, A: Node, X: Node, B: Node, Y: Node, Z: Node)
    requires IsTangle(g, A, X, B, Y, Z)
    requires A != X && A != B && A != Y && A != Z && X != B && X != Y && X != Z && B != Y && B != Z && Y != Z
    ensures Valid(g) && Symmetric(g.adj)
    ensures forall u, v :: u in g.adj && v in g.adj ==> Linked(g.adj, u, v)
  {
    TangleSymmetric(g, A, X, B, Y, Z);
    var adj := g.adj;
    var p := [A, X, Z, Y, B];
    assert Wired(adj, A, X) && Wired(adj, X, Z) && Wired(adj, Z, Y) && Wired(adj, Y, B);
    assert IsPath(adj, p);
    forall u, v | u in adj && v in adj ensures Linked(adj, u, v) {
      assert u in {A, X, B, Y, Z} && v in {A, X, B, Y, Z};
      var i := if u == A then 0 else if u == X then 1 else if u == Z then 2 else if u == Y then 3 else 4;
      var j := if v == A then 0 else if v == X then 1 else if v == Z then 2 else if v == Y then 3 else 4;
      PathLinks(adj, p, i, j);
    }
  }

  /** The sweep as written splits the tangle into two overlapping components. */
  lemma SinglePassSplits(g: Graph, A: Node, X: Node, B: Node, Y: Node, Z: Node)
    requires IsTangle(g, A, X, B, Y, Z)
    requires A != X && A != B && A != Y && A != Z && X != B && X != Y && X != Z && B != Y && B != Z && Y != Z
    ensures SinglePass(g.adj, g.keys) == [{A, X, Z, Y, B}, {B, Y}]
  {
    var adj, keys := g.adj, g.keys;
    var srcs := keys[1..];
    assert srcs == [X, B, Y, Z];
    var seed := Group(adj, A);
    assert seed == {A, X};
    assert Sweep(adj, seed, srcs, 0) == (seed, []);
    assert srcs[0] == X && Group(adj, X) == {X, A, Z};
    assert Group(adj, srcs[0]) * seed != {};
    var c1 := seed + Group(adj, X);
    assert Sweep(adj, seed, srcs, 1) == (c1, []);
    assert c1 == {A, X, Z};
    assert srcs[1] == B && Group(adj, B) == {B, Y};
    assert Group(adj, srcs[1]) * c1 == {} by {
      assert forall k :: k in Group(adj, B) ==> k !in c1;
    }
    assert [] + [srcs[1]] == [B];
    assert Sweep(adj, seed, srcs, 2) == (c1, [B]);
    assert srcs[2] == Y && Group(adj, Y) == {Y, B, Z};
    assert Z in Group(adj, srcs[2]) * c1;
    var c2 := c1 + Group(adj, Y);
    assert Sweep(adj, seed, srcs, 3) == (c2, [B]);
    assert c2 == {A, X, Z, Y, B};
    assert srcs[3] == Z && Z in Group(adj, srcs[3]) * c2;
    assert c2 + Group(adj, Z) == c2;
    assert Sweep(adj, seed, srcs, 4) == (c2, [B]);
    assert SinglePass(adj, [B]) == [{B, Y}] by {
      assert [B][1..] == [];
      assert Sweep(adj, Group(adj, B), [], 0) == ({B, Y}, []);
      assert SinglePass(adj, []) == [];
    }
    assert SinglePass(adj, keys) == [c2] + SinglePass(adj, [B]);
  }

  /** Once `a`, `x`, `z` and `y` are merged, the last keys `b` and `z` only merge again. */
  lemma TangleGrowEnd(g: Graph, A: Node, X: Node, B: Node, Y: Node, Z: Node)
    requires IsTangle(g, A, X, B, Y, Z)
    requires A != X && A != B && A != Y && A != Z && X != B && X != Y && X != Z && B != Y && B != Z && Y != Z
    ensures Grow(g.adj, {A, X, Z, Y, B}, [B, Z]) == ({A, X, Z, Y, B}, [])
  {
    var adj := g.adj;
    var c2 := {A, X, Z, Y, B};
    var r2 := [B, Z];
    assert B in Group(adj, r2[0]) * c2;
    assert FirstMeeting(adj, c2, r2) == Some(0);
    assert c2 + Group(adj, B) == c2;
    var r3 := Without(r2, 0);
    assert r3 == [Z];
    assert Z in Group(adj, r3[0]) * c2;
    assert FirstMeeting(adj, c2, r3) == Some(0);
    assert c2 + Group(adj, Z) == c2;
    var r4 := Without(r3, 0);
    assert r4 == [];
    assert Grow(adj, c2, r4) == (c2, []);
    assert Grow(adj, c2, r3) == (c2, []);
  }

  /** The corrected growth finds the single connected part of the tangle. */
  lemma ComponentsJoin(g: Graph, A: Node, X: Node, B: Node, Y: Node, Z: Node)
    requires IsTangle(g, A, X, B, Y, Z)
    requires A != X && A != B && A != Y && A != Z && X != B && X != Y && X != Z && B != Y && B != Z && Y != Z
    ensures Components(g.adj, g.keys) == [{A, X, Z, Y, B}]
  {
    var adj, keys := g.adj, g.keys;
    var srcs := keys[1..];
    assert srcs == [X, B, Y, Z];
    var seed := Group(adj, A);
    assert seed == {A, X};
    assert srcs[0] == X && Group(adj, X) == {X, A, Z};
    assert X in Group(adj, srcs[0]) * seed;
    assert FirstMeeting(adj, seed, srcs) == Some(0);
    var c1 := seed + Group(adj, X);
    assert c1 == {A, X, Z};
    var r1 := Without(srcs, 0);
    assert r1 == [B, Y, Z];
    assert Group(adj, B) == {B, Y};
    assert Group(adj, r1[0]) * c1 == {} by {
      assert forall k :: k in Group(adj, B) ==> k !in c1;
    }
    assert Group(adj, Y) == {Y, B, Z} && Z in Group(adj, r1[1]) * c1;
    assert FirstMeeting(adj, c1, r1[1..]) == Some(0);
    assert FirstMeeting(adj, c1, r1) == Some(1);
    var c2 := c1 + Group(adj, Y);
    assert c2 == {A, X, Z, Y, B};
    assert Without(r1, 1) == [B, Z];
    TangleGrowEnd(g, A, X, B, Y, Z);
    assert Grow(adj, c1, r1) == (c2, []);
    assert Grow(adj, seed, srcs) == (c2, []);
    assert Components(adj, []) == [];
  }

  /**
   * Any tangle is connected, yet the sweep as written reports two components that share `b` and
   * `y` rather than a partition into connected parts; the corrected growth reports one.
   */
  lemma TangleMisread(a: char, x: char, b: char, y: char, z: char)
    requires Letters(a, x, b, y, z)
    ensures Diagram(TangleLines(a, x, b, y, z)).Ok?
    ensures var g := Diagram(TangleLines(a, x, b, y, z)).value;
            Valid(g) && Symmetric(g.adj) &&
            (forall u, v :: u in g.adj && v in g.adj ==> Linked(g.adj, u, v)) &&
            |SinglePass(g.adj, g.keys)| == 2 && !ConnectedParts(g.adj, g.keys, SinglePass(g.adj, g.keys)) &&
            ConnectedParts(g.adj, g.keys, Components(g.adj, g.keys)) && |Components(g.adj, g.keys)| == 1
  {
    TangleParsed(a, x, b, y, z);
    var g := Diagram(TangleLines(a, x, b, y, z)).value;
    var A, X, B, Y, Z := [a], [x], [b], [y], [z];
    assert A != X && A != B && A != Y && A != Z && X != B && X != Y && X != Z && B != Y && B != Z && Y != Z;
    TangleConnected(g, A, X, B, Y, Z);
    SinglePassSplits(g, A, X, B, Y, Z);
    ComponentsJoin(g, A, X, B, Y, Z);
    ComponentsPartition(g);
    var cs := SinglePass(g.adj, g.keys);
    assert B in cs[0] && B in cs[1];
  }

  /** The diagram `a: x`, `b: y`, `x: z`, `z: y` itself. */
  lemma TangleExample()
    ensures TangleLines('a', 'x', 'b', 'y', 'z') == ["a: x", "b: y", "x: z", "z: y"]
    ensures Letters('a', 'x', 'b', 'y', 'z')
  {
    assert ['a'] + Sep + ['x'] == "a: x" && ['b'] + Sep + ['y'] == "b: y";
    assert ['x'] + Sep + ['z'] == "x: z" && ['z'] + Sep + ['y'] == "z: y";
  }

  // ---------------------------------------------------------------------------------------
  // Candidate wires: those on no triangle

  /** Python's `<` on strings: by code point, a proper prefix first. */
  predicate StrLess(a: string, b: string)
    decreases |a|
  {
    if a == [] then b != []
    else if b == [] then false
    else if a[0] != b[0] then a[0] < b[0]
    else StrLess(a[1..], b[1..])
  }

  /** The order is strict: never both ways. */
  lemma {:induction false} StrLessAsymmetric(a: string, b: string)
    ensures !(StrLess(a, b) && StrLess(b, a))
    decreases |a|
  {
    if a != [] && b != [] && a[0] == b[0] {
      StrLessAsymmetric(a[1..], b[1..]);
    }
  }

  /** The order is total: two different texts are ordered one way. */
  lemma {:induction false} StrLessTotal(a: string, b: string)
    requires a != b
    ensures StrLess(a, b) || StrLess(b, a)
    decreases |a|
  {
    if a != [] && b != [] && a[0] == b[0] {
      assert a == [a[0]] + a[1..] && b == [b[0]] + b[1..];
      StrLessTotal(a[1..], b[1..]);
    }
  }

  /** `tuple(sorted([a, b]))`. */
  function Pair(a: Node, b: Node): (Node, Node)
  {
    if StrLess(b, a) then (b, a) else (a, b)
  }

  /** A sorted pair holds the same two nodes whichever comes first, smaller first. */
  lemma PairSpec(a: Node, b: Node)
    ensures Pair(a, b) == Pair(b, a)
    ensures Pair(a, b) == (a, b) || Pair(a, b) == (b, a)
    ensures !StrLess(Pair(a, b).1, Pair(a, b).0)
  {
    StrLessAsymmetric(a, b);
    if a != b {
      StrLessTotal(a, b);
    }
  }

  /** The wire `s`–`d` shares no neighbour: `(dests - {d}) & (graph[d] - {s})` is empty. */
  predicate Lone(adj: map<Node, set<Node>>, s: Node, d: Node)
    requires s in adj && d in adj
  {
    (adj[s] - {d}) * (adj[d] - {s}) == {}
  }

  /** Some neighbour is not a key, so `graph[dest]` fails. */
  predicate Dangles(adj: map<Node, set<Node>>)
  {
    exists s, d | s in adj && d in adj[s] :: d !in adj
  }

  /** Every neighbour of the keys in `ks` is a key. */
  ghost predicate Anchored(adj: map<Node, set<Node>>, ks: set<Node>)
  {
    forall s, d :: s in ks && s in adj && d in adj[s] ==> d in adj
  }

  /** The nodes in `ds` whose wire from `s` is lone. */
  function LoneDests(adj: map<Node, set<Node>>, s: Node, ds: set<Node>): set<Node>
    requires s in adj && forall d :: d in ds ==> d in adj
  {
    set d | d in ds && Lone(adj, s, d)
  }

  /** The sorted lone wires from `s` to the nodes in `ds`. */
  function LoneFrom(adj: map<Node, set<Node>>, s: Node, ds: set<Node>): set<(Node, Node)>
    requires s in adj && forall d :: d in ds ==> d in adj
  {
    set d | d in LoneDests(adj, s, ds) :: Pair(s, d)
  }

  /** The sorted lone wires out of the keys in `ks`. */
  function CandsOf(adj: map<Node, set<Node>>, ks: set<Node>): set<(Node, Node)>
    requires forall s :: s in ks ==> s in adj
    requires Anchored(adj, ks)
  {
    set s, d | s in ks && d in adj[s] && Lone(adj, s, d) :: Pair(s, d)
  }

  /** `dc_cands`, or the failing lookup of a neighbour that is not a key. */
  function Candidates(g: Graph): (r: Result<set<(Node, Node)>, SnowError>)
  {
    if Dangles(g.adj) then Err(Dangling) else Ok(CandsOf(g.adj, g.adj.Keys))
  }

  /** One more finished source adds its lone wires. */
  lemma CandsOfAdd(adj: map<Node, set<Node>>, ks: set<Node>, s: Node)
    requires forall k :: k in ks ==> k in adj
    requires s in adj && Anchored(adj, ks + {s})
    ensures CandsOf(adj, ks + {s}) == CandsOf(adj, ks) + LoneFrom(adj, s, adj[s])
  {
  }

  /** One more destination is kept when its wire is lone. */
  lemma LoneDestsAdd(adj: map<Node, set<Node>>, s: Node, ds: set<Node>, d: Node)
    requires s in adj && d in adj && forall x :: x in ds ==> x in adj
    ensures LoneDests(adj, s, ds + {d}) == LoneDests(adj, s, ds) + (if Lone(adj, s, d) then {d} else {})
  {
  }

  /**
   * In a dict with every wire at both ends the candidates are exactly the sorted wires that lie on
   * no triangle.
   */
  lemma CandidatesSpec(g: Graph)
    requires Valid(g) && Symmetric(g.adj) && Candidates(g).Ok?
    ensures forall e: (Node, Node) :: e in Candidates(g).value <==>
              Wired(g.adj, e.0, e.1) && !StrLess(e.1, e.0) &&
              forall w :: w != e.0 && w != e.1 ==> !(Wired(g.adj, e.0, w) && Wired(g.adj, e.1, w))
  {
    var adj := g.adj;
    forall e | e in Candidates(g).value
      ensures Wired(adj, e.0, e.1) && !StrLess(e.1, e.0)
      ensures forall w :: w != e.0 && w != e.1 ==> !(Wired(adj, e.0, w) && Wired(adj, e.1, w))
    {
      var s, d :| s in adj && d in adj[s] && Lone(adj, s, d) && e == Pair(s, d);
      PairSpec(s, d);
      assert Wired(adj, d, s);
      forall w | w != e.0 && w != e.1 ensures !(Wired(adj, e.0, w) && Wired(adj, e.1, w)) {
        assert w !in (adj[s] - {d}) * (adj[d] - {s});
      }
    }
    forall e: (Node, Node) | Wired(adj, e.0, e.1) && !StrLess(e.1, e.0) &&
               (forall w :: w != e.0 && w != e.1 ==> !(Wired(adj, e.0, w) && Wired(adj, e.1, w)))
      ensures e in Candidates(g).value
    {
      var (s, d) := e;
      assert d in adj;
      forall w | w in (adj[s] - {d}) * (adj[d] - {s}) ensures false {
        assert Wired(adj, d, w);
      }
      assert Lone(adj, s, d);
      assert Pair(s, d) == e;
    }
  }

  /** The inner loop for one source: its lone wires, or the first neighbour that is not a key. */
  method LoneWires(adj: map<Node, set<Node>>, src: Node) returns (r: Result<set<(Node, Node)>, SnowError>)
    requires src in adj
    ensures r.Err? <==> exists d :: d in adj[src] && d !in adj
    ensures r.Err? ==> r.error == Dangling
    ensures r.Ok? ==> (forall d :: d in adj[src] ==> d in adj) && r.value == LoneFrom(adj, src, adj[src])
  {
    var todo := adj[src];
    ghost var done: set<Node> := {};
    var lone := {};
    while todo != {}
      invariant todo <= adj[src] && done == adj[src] - todo
      invariant forall d :: d in done ==> d in adj
      invariant lone == LoneDests(adj, src, done)
      decreases |todo|
    {
      var d :| d in todo;
      if d !in adj {
        return Err(Dangling);
      }
      LoneDestsAdd(adj, src, done, d);
      if Lone(adj, src, d) {
        lone := lone + {d};
      }
      todo := todo - {d};
      done := done + {d};
    }
    assert done == adj[src];
    return Ok(set d | d in lone :: Pair(src, d));
  }

  /** `calc_disconnect_factor`'s first loop: the lone wires of each key, sorted. */
  method FindCandidates(g: Graph) returns (r: Result<set<(Node, Node)>, SnowError>)
    requires Valid(g)
    ensures r == Candidates(g)
  {
    var adj := g.adj;
    var cands := {};
    ghost var seen: set<Node> := {};
    for i := 0 to |g.keys|
      invariant seen == set k | k in g.keys[..i]
      invariant forall k :: k in seen ==> k in adj
      invariant Anchored(adj, seen) && cands == CandsOf(adj, seen)
    {
      var src := g.keys[i];
      var wires := LoneWires(adj, src);
      if wires.Err? {
        assert Dangles(adj);
        return wires;
      }
      CandsOfAdd(adj, seen, src);
      cands := cands + wires.value;
      assert g.keys[..i + 1] == g.keys[..i] + [src];
      seen := seen + {src};
    }
    assert g.keys[..|g.keys|] == g.keys;
    assert seen == adj.Keys;
    return Ok(cands);
  }

  // ---------------------------------------------------------------------------------------
  // Cutting three wires

  /** `graph_copy[a].remove(b)`: fails when the wire is not listed there. */
  function Remove(adj: map<Node, set<Node>>, a: Node, b: Node): (r: Result<map<Node, set<Node>>, SnowError>)
    ensures r.Ok? ==> r.value.Keys == adj.Keys
    ensures r.Err? <==> !Wired(adj, a, b)
    ensures r.Err? ==> r.error == MissingEdge(a, b)
  {
    if a in adj && b in adj[a] then Ok(adj[a := adj[a] - {b}]) else Err(MissingEdge(a, b))
  }

  /** Both removals for one wire `(a, b)`: first at `a`, then at `b`. */
  function Unwire(adj: map<Node, set<Node>>, e: (Node, Node)): (r: Result<map<Node, set<Node>>, SnowError>)
    ensures r.Ok? ==> r.value.Keys == adj.Keys
    ensures r.Err? ==> r.error.MissingEdge?
  {
    match Remove(adj, e.0, e.1)
    case Err(x) => Err(x)
    case Ok(m) => Remove(m, e.1, e.0)
  }

  /** Cutting a loop `(a, a)` removes `a` from its own set twice, so the second `remove` raises KeyError. */
  lemma UnwireLoop(adj: map<Node, set<Node>>, a: Node)
    ensures Unwire(adj, (a, a)) == Err(MissingEdge(a, a))
  {
  }

  /** The wires `es[..n]` removed one after another, or the first removal that fails. */
  function UnwireAll(adj: map<Node, set<Node>>, es: seq<(Node, Node)>, n: nat): (r: Result<map<Node, set<Node>>, SnowError>)
    requires n <= |es|
    ensures r.Ok? ==> r.value.Keys == adj.Keys
    ensures r.Err? ==> r.error.MissingEdge?
  {
    if n == 0 then Ok(adj)
    else match UnwireAll(adj, es, n - 1)
      case Err(x) => Err(x)
      case Ok(m) => Unwire(m, es[n - 1])
  }

  /** `e` and `f` name the same wire, in either direction. */
  predicate SameWire(e: (Node, Node), f: (Node, Node))
  {
    (e.0 == f.0 && e.1 == f.1) || (e.0 == f.1 && e.1 == f.0)
  }

  /** The wire `x`–`y` is one of `es[..n]`. */
  ghost predicate CutIn(es: seq<(Node, Node)>, n: nat, x: Node, y: Node)
  {
    exists k :: 0 <= k < n && k < |es| && SameWire((x, y), es[k])
  }

  /** Wires between two different nodes, no wire named twice. */
  ghost predicate ProperWires(adj: map<Node, set<Node>>, es: seq<(Node, Node)>)
  {
    (forall k :: 0 <= k < |es| ==> Wired(adj, es[k].0, es[k].1) && es[k].0 != es[k].1) &&
    (forall i, j :: 0 <= i < j < |es| ==> !SameWire(es[i], es[j]))
  }

  /** Removing one wire between two different nodes at both ends keeps both ends in step. */
  lemma UnwireSpec(m: map<Node, set<Node>>, a: Node, b: Node)
    requires Symmetric(m) && Wired(m, a, b) && a != b
    ensures Unwire(m, (a, b)).Ok?
    ensures forall x, y :: Wired(Unwire(m, (a, b)).value, x, y) <==> Wired(m, x, y) && !SameWire((x, y), (a, b))
    ensures Symmetric(Unwire(m, (a, b)).value)
  {
    var m1 := m[a := m[a] - {b}];
    assert Remove(m, a, b) == Ok(m1);
    assert Wired(m, b, a);
    assert Wired(m1, b, a);
    var m2 := m1[b := m1[b] - {a}];
    assert Unwire(m, (a, b)) == Ok(m2);
    forall x, y ensures Wired(m2, x, y) <==> Wired(m, x, y) && !SameWire((x, y), (a, b)) {
    }
    forall x, y | Wired(m2, x, y) ensures Wired(m2, y, x) {
      assert Wired(m, y, x);
    }
  }

  /** One more listed wire. */
  lemma CutInStep(es: seq<(Node, Node)>, n: nat)
    requires 0 < n <= |es|
    ensures forall x, y :: CutIn(es, n, x, y) <==> CutIn(es, n - 1, x, y) || SameWire((x, y), es[n - 1])
  {
    forall x, y | CutIn(es, n, x, y) && !SameWire((x, y), es[n - 1]) ensures CutIn(es, n - 1, x, y) {
      var k :| 0 <= k < n && k < |es| && SameWire((x, y), es[k]);
      assert k < n - 1;
    }
  }

  /**
   * In a dict with every wire at both ends, removing listed wires between different nodes, none
   * twice, always succeeds, keeps both ends in step and takes away exactly those wires.
   */
  lemma {:induction false} UnwireAllSpec(adj: map<Node, set<Node>>, es: seq<(Node, Node)>, n: nat)
    requires n <= |es| && Symmetric(adj) && ProperWires(adj, es)
    ensures UnwireAll(adj, es, n).Ok?
    ensures Symmetric(UnwireAll(adj, es, n).value)
    ensures forall x, y :: Wired(UnwireAll(adj, es, n).value, x, y) <==> Wired(adj, x, y) && !CutIn(es, n, x, y)
  {
    if n > 0 {
      UnwireAllSpec(adj, es, n - 1);
      var m := UnwireAll(adj, es, n - 1).value;
      var (a, b) := es[n - 1];
      assert !CutIn(es, n - 1, a, b) by {
        forall k | 0 <= k < n - 1 ensures !SameWire((a, b), es[k]) {
          assert !SameWire(es[k], es[n - 1]);
        }
      }
      assert Wired(m, a, b);
      UnwireSpec(m, a, b);
      CutInStep(es, n);
      assert UnwireAll(adj, es, n) == Unwire(m, (a, b));
    }
  }

  /** The indices `i < j < k < n` in the order `itertools.combinations` yields them. */
  function Combos(n: nat): seq<(nat, nat, nat)>
  {
    Triples(0, n)
  }

  /** The triples whose first index is at least `i`. */
  function Triples(i: nat, n: nat): seq<(nat, nat, nat)>
    decreases n - i
  {
    if i >= n then [] else Pairs(i, i + 1, n) + Triples(i + 1, n)
  }

  /** The triples starting with `i` whose second index is at least `j`. */
  function Pairs(i: nat, j: nat, n: nat): seq<(nat, nat, nat)>
    decreases n - j
  {
    if j >= n then [] else Thirds(i, j, j + 1, n) + Pairs(i, j + 1, n)
  }

  /** The triples starting with `i, j` whose last index is at least `k`. */
  function Thirds(i: nat, j: nat, k: nat, n: nat): seq<(nat, nat, nat)>
    decreases n - k
  {
    if k >= n then [] else [(i, j, k)] + Thirds(i, j, k + 1, n)
  }

  /** Lexicographic order on index triples. */
  predicate LexLess(t: (nat, nat, nat), u: (nat, nat, nat))
  {
    t.0 < u.0 || (t.0 == u.0 && (t.1 < u.1 || (t.1 == u.1 && t.2 < u.2)))
  }

  /** Strictly increasing in lexicographic order. */
  ghost predicate Increasing(s: seq<(nat, nat, nat)>)
  {
    forall p, q :: 0 <= p < q < |s| ==> LexLess(s[p], s[q])
  }

  /** Two increasing runs, every triple of the first before every triple of the second. */
  lemma IncreasingConcat(s: seq<(nat, nat, nat)>, t: seq<(nat, nat, nat)>)
    requires Increasing(s) && Increasing(t)
    requires forall x, y :: x in s && y in t ==> LexLess(x, y)
    ensures Increasing(s + t)
  {
    forall p, q | 0 <= p < q < |s + t| ensures LexLess((s + t)[p], (s + t)[q]) {
      if q < |s| {
        assert (s + t)[p] == s[p] && (s + t)[q] == s[q];
      } else if p >= |s| {
        assert (s + t)[p] == t[p - |s|] && (s + t)[q] == t[q - |s|];
      } else {
        assert (s + t)[p] in s && (s + t)[q] in t;
      }
    }
  }

  lemma {:induction false} ThirdsSpec(i: nat, j: nat, k: nat, n: nat)
    ensures forall t :: t in Thirds(i, j, k, n) <==> t.0 == i && t.1 == j && k <= t.2 < n
    ensures Increasing(Thirds(i, j, k, n))
    decreases n - k
  {
    if k < n {
      ThirdsSpec(i, j, k + 1, n);
      IncreasingConcat([(i, j, k)], Thirds(i, j, k + 1, n));
    }
  }

  lemma {:induction false} PairsSpec(i: nat, j: nat, n: nat)
    ensures forall t :: t in Pairs(i, j, n) <==> t.0 == i && j <= t.1 < t.2 < n
    ensures Increasing(Pairs(i, j, n))
    decreases n - j
  {
    if j < n {
      ThirdsSpec(i, j, j + 1, n);
      PairsSpec(i, j + 1, n);
      IncreasingConcat(Thirds(i, j, j + 1, n), Pairs(i, j + 1, n));
    }
  }

  lemma {:induction false} TriplesSpec(i: nat, n: nat)
    ensures forall t :: t in Triples(i, n) <==> i <= t.0 < t.1 < t.2 < n
    ensures Increasing(Triples(i, n))
    decreases n - i
  {
    if i < n {
      PairsSpec(i, i + 1, n);
      TriplesSpec(i + 1, n);
      IncreasingConcat(Pairs(i, i + 1, n), Triples(i + 1, n));
    }
  }

  /** Every choice of three indices exactly once, in lexicographic order. */
  lemma CombosSpec(n: nat)
    ensures forall t :: t in Combos(n) <==> t.0 < t.1 < t.2 < n
    ensures Increasing(Combos(n))
  {
    TriplesSpec(0, n);
  }

  /** Where a choice of three indices sits among the combinations. */
  lemma ComboIndex(n: nat, c: (nat, nat, nat)) returns (u: nat)
    requires c.0 < c.1 < c.2 < n
    ensures u < |Combos(n)| && Combos(n)[u] == c
  {
    CombosSpec(n);
    u :| u < |Combos(n)| && Combos(n)[u] == c;
  }

  /** The three wires an index triple picks. */
  function Pick(order: seq<(Node, Node)>, c: (nat, nat, nat)): seq<(Node, Node)>
    requires c.0 < |order| && c.1 < |order| && c.2 < |order|
  {
    [order[c.0], order[c.1], order[c.2]]
  }

  /** `math.prod` of two sizes. */
  function Prod(a: nat, b: nat): nat
  {
    a * b
  }

  /** The graph with three wires cut: `math.prod` of the two component sizes, or nothing. */
  function TryCut(g: Graph, es: seq<(Node, Node)>): (r: Result<Option<nat>, SnowError>)
    requires Valid(g)
    ensures r.Err? ==> r.error.MissingEdge?
  {
    match UnwireAll(g.adj, es, |es|)
    case Err(x) => Err(x)
    case Ok(m) =>
      var cc := Components(m, g.keys);
      if |cc| == 2 then Ok(Some(Prod(|cc[0]|, |cc[1]|))) else Ok(None)
  }

  /** What each combination in `cs` gives when its three wires are cut. */
  function Outcomes(g: Graph, order: seq<(Node, Node)>, cs: seq<(nat, nat, nat)>): (r: seq<Result<Option<nat>, SnowError>>)
    requires Valid(g)
    requires forall c :: c in cs ==> c.0 < |order| && c.1 < |order| && c.2 < |order|
    ensures |r| == |cs|
  {
    seq(|cs|, u requires 0 <= u < |cs| => TryCut(g, Pick(order, cs[u])))
  }

  /** The first outcome from the `t`-th on that fails or splits the graph in two. */
  function FirstCut(outs: seq<Result<Option<nat>, SnowError>>, t: nat): Result<nat, SnowError>
    requires t <= |outs|
    decreases |outs| - t
  {
    if t == |outs| then Err(NoCut)
    else match outs[t]
      case Err(x) => Err(x)
      case Ok(Some(n)) => Ok(n)
      case Ok(None) => FirstCut(outs, t + 1)
  }

  /** `calc_disconnect_factor`, with `order` the order in which the candidate set is iterated. */
  function Factor(g: Graph, order: seq<(Node, Node)>): Result<nat, SnowError>
    requires Valid(g)
  {
    match Candidates(g)
    case Err(x) => Err(x)
    case Ok(_) =>
      CombosSpec(|order|);
      FirstCut(Outcomes(g, order, Combos(|order|)), 0)
  }

  /**
   * `calc_disconnect_factor`: removes each combination of three candidate wires from a copy (the
   * value model copies implicitly) and stops at the first that leaves two components. `order`
   * is the order in which the candidate set iterates, which depends on string hashing: any
   * listing of the candidates, each once.
   */
  method DisconnectFactor(g: Graph, order: seq<(Node, Node)>) returns (r: Result<nat, SnowError>)
    requires Valid(g)
    requires Candidates(g).Ok? ==> Enumerates(order, Candidates(g).value)
    ensures r == Factor(g, order)
  {
    var cands := FindCandidates(g);
    if cands.Err? {
      return Err(cands.error);
    }
    var combos := Combos(|order|);
    CombosSpec(|order|);
    ghost var outs := Outcomes(g, order, combos);
    for t := 0 to |combos|
      invariant FirstCut(outs, t) == FirstCut(outs, 0)
    {
      var es := Pick(order, combos[t]);
      assert outs[t] == TryCut(g, es);
      var cut := UnwireAll(g.adj, es, |es|);
      if cut.Err? {
        return Err(cut.error);
      }
      var cc := Components(cut.value, g.keys);
      if |cc| == 2 {
        return Ok(Prod(|cc[0]|, |cc[1]|));
      }
    }
    return Err(NoCut);
  }

  /** `order` lists each member of `s` exactly once. */
  ghost predicate Enumerates(order: seq<(Node, Node)>, s: set<(Node, Node)>)
  {
    (forall e :: e in order <==> e in s) && (forall p, q :: 0 <= p < q < |order| ==> order[p] != order[q])
  }

  /** A found factor comes from the first outcome from `t` on that splits the graph in two. */
  lemma {:induction false} FirstCutFound(outs: seq<Result<Option<nat>, SnowError>>, t: nat)
    requires t <= |outs| && FirstCut(outs, t).Ok?
    ensures exists u :: t <= u < |outs| && outs[u] == Ok(Some(FirstCut(outs, t).value)) &&
                        forall v :: t <= v < u ==> outs[v] == Ok(None)
    decreases |outs| - t
  {
    if outs[t] != Ok(Some(FirstCut(outs, t).value)) {
      FirstCutFound(outs, t + 1);
    }
  }

  /** When no outcome reports `NoCut` itself, none is found exactly when no outcome from `t` on fails or splits. */
  lemma {:induction false} FirstCutNone(outs: seq<Result<Option<nat>, SnowError>>, t: nat)
    requires t <= |outs| && forall u :: 0 <= u < |outs| ==> outs[u] != Err(NoCut)
    ensures FirstCut(outs, t) == Err(NoCut) <==> forall u :: t <= u < |outs| ==> outs[u] == Ok(None)
    decreases |outs| - t
  {
    if t < |outs| {
      FirstCutNone(outs, t + 1);
    }
  }

  /** Any other failure is the failure of some outcome from `t` on. */
  lemma {:induction false} FirstCutFailed(outs: seq<Result<Option<nat>, SnowError>>, t: nat)
    requires t <= |outs| && FirstCut(outs, t).Err? && FirstCut(outs, t) != Err(NoCut)
    ensures exists u :: t <= u < |outs| && outs[u] == Err(FirstCut(outs, t).error)
    decreases |outs| - t
  {
    if outs[t] != Err(FirstCut(outs, t).error) {
      FirstCutFailed(outs, t + 1);
    }
  }

  /** No node is wired to itself. */
  ghost predicate NoLoops(adj: map<Node, set<Node>>)
  {
    forall s :: s in adj ==> s !in adj[s]
  }

  /** The graph with `es` cut falls into exactly two connected parts, of sizes whose product is `n`. */
  ghost predicate SplitsInTwo(g: Graph, es: seq<(Node, Node)>, n: nat)
  {
    Valid(g) && UnwireAll(g.adj, es, |es|).Ok? &&
    var m := UnwireAll(g.adj, es, |es|).value;
    var cs := Components(m, g.keys);
    ConnectedParts(m, g.keys, cs) && |cs| == 2 && n == |cs[0]| * |cs[1]|
  }

  /** The graph with `es` cut has its connected parts, but not exactly two of them. */
  ghost predicate StaysWhole(g: Graph, es: seq<(Node, Node)>)
  {
    Valid(g) && UnwireAll(g.adj, es, |es|).Ok? &&
    var m := UnwireAll(g.adj, es, |es|).value;
    ConnectedParts(m, g.keys, Components(m, g.keys)) && |Components(m, g.keys)| != 2
  }

  /** Cutting proper wires succeeds, and the components it counts are the connected parts left. */
  lemma TryCutSpec(g: Graph, es: seq<(Node, Node)>)
    requires Valid(g) && Symmetric(g.adj) && ProperWires(g.adj, es)
    ensures TryCut(g, es).Ok?
    ensures TryCut(g, es).value.Some? ==> SplitsInTwo(g, es, TryCut(g, es).value.value)
    ensures TryCut(g, es).value.None? ==> StaysWhole(g, es)
  {
    UnwireAllSpec(g.adj, es, |es|);
    var m := UnwireAll(g.adj, es, |es|).value;
    var h := Graph(g.keys, m);
    assert Valid(h);
    ComponentsPartition(h);
  }

  /** The candidates of a loop-free dict with every wire at both ends are sorted wires between different nodes. */
  lemma CandidatesProper(g: Graph)
    requires Valid(g) && Symmetric(g.adj) && NoLoops(g.adj) && Candidates(g).Ok?
    ensures forall e :: e in Candidates(g).value ==> Wired(g.adj, e.0, e.1) && e.0 != e.1 && !StrLess(e.1, e.0)
  {
    CandidatesSpec(g);
  }

  /** Three different entries of a listing of such wires are proper wires. */
  lemma PickProper(adj: map<Node, set<Node>>, cands: set<(Node, Node)>, order: seq<(Node, Node)>, c: (nat, nat, nat))
    requires forall e :: e in cands ==> Wired(adj, e.0, e.1) && e.0 != e.1 && !StrLess(e.1, e.0)
    requires Enumerates(order, cands) && c.0 < c.1 < c.2 < |order|
    ensures ProperWires(adj, Pick(order, c))
  {
    var es := Pick(order, c);
    forall k | 0 <= k < |es| ensures Wired(adj, es[k].0, es[k].1) && es[k].0 != es[k].1 {
      assert es[k] in cands;
    }
    forall i, j | 0 <= i < j < |es| ensures !SameWire(es[i], es[j]) {
      assert es[i] in cands && es[j] in cands;
      assert es[i] != es[j] by {
        assert es[i] == order[[c.0, c.1, c.2][i]] && es[j] == order[[c.0, c.1, c.2][j]];
      }
      if SameWire(es[i], es[j]) {
        StrLessTotal(es[i].0, es[i].1);
      }
    }
  }

  /** Every combination of candidates cuts cleanly, and its outcome says what the cut leaves. */
  lemma OutcomesSpec(g: Graph, order: seq<(Node, Node)>)
    requires Valid(g) && Symmetric(g.adj) && NoLoops(g.adj) && Candidates(g).Ok?
    requires Enumerates(order, Candidates(g).value)
    ensures forall c :: c in Combos(|order|) ==> c.0 < c.1 < c.2 < |order|
    ensures Meaningful(g, order, Outcomes(g, order, Combos(|order|)))
  {
    var combos := Combos(|order|);
    CombosSpec(|order|);
    CandidatesProper(g);
    var outs := Outcomes(g, order, combos);
    forall u | 0 <= u < |combos| ensures outs[u].Ok? && OutcomeMeans(g, order, combos[u], outs[u]) {
      PickProper(g.adj, Candidates(g).value, order, combos[u]);
      TryCutSpec(g, Pick(order, combos[u]));
    }
  }

  /** Once the candidates are found, the factor is the first combination's outcome that counts. */
  lemma FactorIs(g: Graph, order: seq<(Node, Node)>)
    requires Valid(g) && Candidates(g).Ok?
    ensures forall c :: c in Combos(|order|) ==> c.0 < |order| && c.1 < |order| && c.2 < |order|
    ensures Factor(g, order) == FirstCut(Outcomes(g, order, Combos(|order|)), 0)
  {
    CombosSpec(|order|);
  }

  /** With proper candidates the search never fails: it finds a factor or reports `NoCut`. */
  lemma FactorNeverFails(g: Graph, order: seq<(Node, Node)>)
    requires Valid(g) && Symmetric(g.adj) && NoLoops(g.adj) && Candidates(g).Ok?
    requires Enumerates(order, Candidates(g).value)
    ensures Factor(g, order).Ok? || Factor(g, order) == Err(NoCut)
  {
    FactorIs(g, order);
    OutcomesSpec(g, order);
    var outs := Outcomes(g, order, Combos(|order|));
    assert Meaningful(g, order, outs);
    if FirstCut(outs, 0).Err? && FirstCut(outs, 0) != Err(NoCut) {
      FirstCutFailed(outs, 0);
    }
  }

  /** The outcomes of all combinations, each of them saying what its cut leaves. */
  ghost predicate Meaningful(g: Graph, order: seq<(Node, Node)>, outs: seq<Result<Option<nat>, SnowError>>)
  {
    (forall c :: c in Combos(|order|) ==> c.0 < |order| && c.1 < |order| && c.2 < |order|) &&
    |outs| == |Combos(|order|)| &&
    forall u :: 0 <= u < |outs| ==> outs[u].Ok? && OutcomeMeans(g, order, Combos(|order|)[u], outs[u])
  }

  /** A found outcome comes from three entries that split the graph into two connected parts. */
  lemma FoundMeans(g: Graph, order: seq<(Node, Node)>, outs: seq<Result<Option<nat>, SnowError>>)
    requires Meaningful(g, order, outs) && FirstCut(outs, 0).Ok?
    ensures exists i, j, k :: 0 <= i < j < k < |order| && SplitsInTwo(g, Pick(order, (i, j, k)), FirstCut(outs, 0).value)
  {
    CombosSpec(|order|);
    var combos := Combos(|order|);
    FirstCutFound(outs, 0);
    var u :| 0 <= u < |outs| && outs[u] == Ok(Some(FirstCut(outs, 0).value));
    assert OutcomeMeans(g, order, combos[u], outs[u]);
    var c := combos[u];
    assert c in combos;
    assert Pick(order, (c.0, c.1, c.2)) == Pick(order, c);
  }

  /** `NoCut` after outcomes that never fail means no three entries split the graph. */
  lemma NoneMeans(g: Graph, order: seq<(Node, Node)>, outs: seq<Result<Option<nat>, SnowError>>)
    requires Meaningful(g, order, outs) && FirstCut(outs, 0) == Err(NoCut)
    ensures forall i, j, k :: 0 <= i < j < k < |order| ==> StaysWhole(g, Pick(order, (i, j, k)))
  {
    FirstCutNone(outs, 0);
    forall i, j, k | 0 <= i < j < k < |order| ensures StaysWhole(g, Pick(order, (i, j, k))) {
      var u := ComboIndex(|order|, (i, j, k));
      assert OutcomeMeans(g, order, Combos(|order|)[u], outs[u]);
    }
  }

  /** A factor comes from three candidates that split the graph into two connected parts. */
  lemma FactorFound(g: Graph, order: seq<(Node, Node)>)
    requires Valid(g) && Symmetric(g.adj) && NoLoops(g.adj) && Candidates(g).Ok?
    requires Enumerates(order, Candidates(g).value)
    requires Factor(g, order).Ok?
    ensures exists i, j, k :: 0 <= i < j < k < |order| && SplitsInTwo(g, Pick(order, (i, j, k)), Factor(g, order).value)
  {
    FactorIs(g, order);
    OutcomesSpec(g, order);
    FoundMeans(g, order, Outcomes(g, order, Combos(|order|)));
  }

  /** `NoCut` means no three candidates split the graph into two connected parts. */
  lemma FactorNone(g: Graph, order: seq<(Node, Node)>)
    requires Valid(g) && Symmetric(g.adj) && NoLoops(g.adj) && Candidates(g).Ok?
    requires Enumerates(order, Candidates(g).value)
    requires Factor(g, order) == Err(NoCut)
    ensures forall i, j, k :: 0 <= i < j < k < |order| ==> StaysWhole(g, Pick(order, (i, j, k)))
  {
    FactorIs(g, order);
    OutcomesSpec(g, order);
    NoneMeans(g, order, Outcomes(g, order, Combos(|order|)));
  }

  /** What one outcome says about the graph with the picked wires cut. */
  ghost predicate OutcomeMeans(g: Graph, order: seq<(Node, Node)>, c: (nat, nat, nat), out: Result<Option<nat>, SnowError>)
    requires c.0 < |order| && c.1 < |order| && c.2 < |order|
  {
    (out == Ok(None) ==> StaysWhole(g, Pick(order, c))) &&
    (forall n :: out == Ok(Some(n)) ==> SplitsInTwo(g, Pick(order, c), n))
  }
}
