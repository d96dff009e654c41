/**
 * Part sorting (day19): boxes of attribute ranges pushed through named workflows of threshold
 * rules until they reach "A" (accepted) or "R" (rejected). The closed-interval intersection is
 * the same expression as the almanac's, so it is reused from there.
 */
module Workflows {
  import opened Wrappers
  import opened Text
  import Almanac

  type Interval = Almanac.Interval

  /** A rule: a bare workflow name, or `attr<rating:target` (`sign` -1) / `attr>rating:target` (`sign` 1). */
  datatype Rule = Goto(workflow: string) | Test(attr: string, sign: int, rating: int, target: string)

  /** The ranges of a box, as the ordered dict of the source: attribute name to range. */
  type Box = seq<(string, Interval)>

  datatype Job = Job(workflow: string, box: Box)

  datatype FilterError =
    | UnknownWorkflow(name: string)   // `workflows[curr_workflow]` raised KeyError
    | UnknownAttribute(attr: string)  // `curr_intervals[attr]` raised KeyError
    | OutOfFuel                       // the model's bound on worklist iterations was reached

  const Accept := "A"
  const Reject := "R"

  // Parsing one rule.

  /** `rest` with every `>` turned into `<`, so that one split does `re.split(r"[<>]", rest)`. */
  function Unify(s: string): (r: string)
    ensures |r| == |s| && '>' !in r
    ensures forall i :: 0 <= i < |s| ==> r[i] == (if s[i] == '>' then '<' else s[i])
  {
    seq(|s|, i requires 0 <= i < |s| => if s[i] == '>' then '<' else s[i])
  }

  /**
   * `parse_rule`: text without `:` is a bare name; otherwise the text must be `rest:workflow`
   * with `rest` one attribute, one `<` or `>`, and an integer. Any other shape is the
   * `ValueError` of the source's tuple unpacking or `int(...)`, reported as `Err(text)`.
   */
  function ParseRule(s: string): (r: Result<Rule, string>)
    ensures ':' !in s ==> r == Ok(Goto(s))
    ensures r.Ok? && r.value.Test? ==> ':' in s && (r.value.sign == -1 || r.value.sign == 1)
    ensures r.Ok? && r.value.Test? ==> ':' !in r.value.target && ':' !in r.value.attr
    ensures r.Ok? && r.value.Test? ==> '<' !in r.value.attr && '>' !in r.value.attr
  {
    if ':' !in s then Ok(Goto(s))
    else
      var halves := Split(s, ':');
      if |halves| != 2 then Err(s)
      else
        var rest, workflow := halves[0], halves[1];
        var sign := if '<' in rest then -1 else 1;
        var fields := Split(Unify(rest), '<');
        if |fields| != 2 then Err(s)
        else match ParseInt(fields[1])
          case None => Err(s)
          case Some(n) =>
            assert forall c :: c in fields[0] && c != '<' ==> c in rest by {
              JoinSplit(Unify(rest), '<');
              UnifiedPieces(rest, fields[0], fields[1]);
            }
            Ok(Test(fields[0], sign, n, workflow))
  }

  lemma UnifiedPieces(rest: string, a: string, b: string)
    requires Split(Unify(rest), '<') == [a, b] && Join([a, b], '<') == Unify(rest)
    ensures forall c :: c in a && c != '<' ==> c in rest
    ensures '>' !in a && '<' !in a
  {
    var u := Unify(rest);
    assert u == a + ['<'] + b;
    forall c | c in a && c != '<' ensures c in rest {
      var i :| 0 <= i < |a| && a[i] == c;
      assert u[i] == c;
    }
    assert '<' !in a;
  }

  /** How the source's input writes a rule. */
  function RuleText(rule: Rule): string
  {
    match rule
    case Goto(w) => w
    case Test(a, sign, n, t) => a + (if sign < 0 then "<" else ">") + IntToString(n) + ":" + t
  }

  /** Parsing the text of a rule gives the rule back. */
  lemma ParseRuleText(rule: Rule)
    requires Printable(rule)
    ensures ParseRule(RuleText(rule)) == Ok(rule)
  {
    if rule.Test? {
      var op := if rule.sign < 0 then "<" else ">";
      var num := IntToString(rule.rating);
      var rest := rule.attr + op + num;
      NumeralSymbols(rule.rating);
      assert RuleText(rule) == rest + [':'] + rule.target;
      assert ':' !in rest by { RestSymbols(rule.attr, op, num); }
      SplitTwo(rest, ':', rule.target);
      RestSymbols(rule.attr, op, num);
      SplitTwo(rule.attr, '<', num);
      ParseIntToString(rule.rating);
      ParseTestRule(RuleText(rule), rest, rule.target, rule.attr, num, rule.sign, rule.rating);
    }
  }

  /** A text `rest:workflow` whose `rest` splits into an attribute and an integer parses as a test rule. */
  lemma ParseTestRule(s: string, rest: string, workflow: string, attr: string, num: string, sign: int, n: int)
    requires ':' in s && Split(s, ':') == [rest, workflow]
    requires sign == (if '<' in rest then -1 else 1)
    requires Split(Unify(rest), '<') == [attr, num] && ParseInt(num) == Some(n)
    ensures ParseRule(s) == Ok(Test(attr, sign, n, workflow))
  {
  }

  /** Splitting `a sep b` gives `[a, b]` when neither piece holds the separator. */
  lemma SplitTwo(a: string, sep: char, b: string)
    requires sep !in a && sep !in b
    ensures Split(a + [sep] + b, sep) == [a, b]
  {
    SplitJoin([a, b], sep);
    assert Join([a, b], sep) == a + [sep] + b;
  }

  /** The text before the `:` of a test rule: its operator is the only `<` or `>` in it. */
  lemma RestSymbols(attr: string, op: string, num: string)
    requires op == "<" || op == ">"
    requires '<' !in attr && '>' !in attr && ':' !in attr
    requires '<' !in num && '>' !in num && ':' !in num
    ensures ':' !in attr + op + num
    ensures '<' in attr + op + num <==> op == "<"
    ensures Unify(attr + op + num) == attr + "<" + num
  {
    var rest := attr + op + num;
    assert forall i :: 0 <= i < |rest| ==> rest[i] == (if i < |attr| then attr[i] else if i == |attr| then op[0] else num[i - |attr| - 1]);
    if op == ">" {
      assert forall i :: 0 <= i < |rest| ==> rest[i] != '<';
    } else {
      assert rest[|attr|] == '<';
    }
  }

  /** A numeral is made of digits and a minus sign. */
  lemma NumeralSymbols(n: int)
    ensures forall i :: 0 <= i < |IntToString(n)| ==> IsDigit(IntToString(n)[i]) || IntToString(n)[i] == '-'
  {
    var s := IntToString(n);
    if n < 0 {
      assert forall i :: 1 <= i < |s| ==> s[i] == NatToString(-n)[i - 1];
    }
  }

  // The ranges.

  /** The ratings a rule tests: `(1, rating-1)` for `<` and `(rating+1, 4000)` for `>`. */
  function TestRange(sign: int, rating: int): (r: Interval)
    ensures forall x :: Almanac.Contains(r, x) <==> (if sign < 0 then 1 <= x < rating else rating < x <= 4000)
  {
    if sign < 0 then Almanac.Interval(1, rating - 1) else Almanac.Interval(rating + 1, 4000)
  }

  /** A range of ratings in the puzzle's universe `1..4000`. */
  predicate InUniverse(a: Interval) { 1 <= a.lo <= a.hi <= 4000 }

  /**
   * Within the universe the shared intersection is exact against a rule's range, also when that
   * range is empty (`x<1`, `x>4000`): then it is `None`.
   */
  lemma TestIntersect(a: Interval, sign: int, rating: int)
    requires InUniverse(a)
    ensures var r := Almanac.IntersectIntervals(a, TestRange(sign, rating));
      && (forall x :: (Almanac.Contains(a, x) && Almanac.Contains(TestRange(sign, rating), x)) <==>
                      (r.Some? && Almanac.Contains(r.value, x)))
      && (r.Some? ==> InUniverse(r.value) && Almanac.Within(r.value, a))
  {
  }

  /** `difference`: the remainders of `a` around `b`, left first, or `None` when `b` covers `a`. */
  function Difference(a: Interval, b: Interval): (r: Option<seq<Interval>>)
    ensures r.None? <==> b.lo <= a.lo && a.hi <= b.hi
    ensures r.Some? ==> r.value == Almanac.SubtractIntervals(a, b) && 1 <= |r.value| <= 2
    ensures r.None? ==> Almanac.SubtractIntervals(a, b) == []
  {
    var result := Almanac.SubtractIntervals(a, b);
    if |result| > 0 then Some(result) else None
  }

  // Boxes and parts.

  /** The names of a box are distinct, as the keys of a dict are. */
  predicate Distinct(box: Box)
  {
    forall i, j :: 0 <= i < j < |box| ==> box[i].0 != box[j].0
  }

  predicate WellFormedBox(box: Box)
  {
    Distinct(box) && forall i :: 0 <= i < |box| ==> InUniverse(box[i].1)
  }

  function Names(box: Box): set<string>
  {
    set i | 0 <= i < |box| :: box[i].0
  }

  /** `box[attr]`, or `None` for the `KeyError`. */
  function Lookup(box: Box, attr: string): (r: Option<Interval>)
    ensures r.None? <==> attr !in Names(box)
    ensures r.Some? ==> exists i :: 0 <= i < |box| && box[i] == (attr, r.value)
  {
    if box == [] then None
    else if box[0].0 == attr then Some(box[0].1)
    else
      var r := Lookup(box[1..], attr);
      assert Names(box) == {box[0].0} + Names(box[1..]) by {
        forall a | a in Names(box) ensures a in {box[0].0} + Names(box[1..]) {
          var i :| 0 <= i < |box| && box[i].0 == a;
          if i > 0 { assert box[1..][i - 1].0 == a; }
        }
      }
      if r.Some? then
        assert exists i :: 0 <= i < |box| && box[i] == (attr, r.value) by {
          var i :| 0 <= i < |box[1..]| && box[1..][i] == (attr, r.value);
          assert box[i + 1] == (attr, r.value);
        }
        r
      else r
  }

  /** `{**box, attr: iv}`: the range of `attr` replaced, in place. */
  function Assign(box: Box, attr: string, iv: Interval): (r: Box)
    ensures |r| == |box| && Names(r) == Names(box)
    ensures forall i :: 0 <= i < |box| ==> r[i] == (if box[i].0 == attr then (attr, iv) else box[i])
  {
    var r := seq(|box|, i requires 0 <= i < |box| => if box[i].0 == attr then (attr, iv) else box[i]);
    assert Names(r) == Names(box) by {
      assert forall i :: 0 <= i < |box| ==> r[i].0 == box[i].0;
    }
    r
  }

  /** A part: the rating of each attribute. */
  type Part = map<string, int>

  /** The part lies in the box: each of the box's attributes is rated within its range. */
  predicate InBox(box: Box, p: Part)
  {
    forall i :: 0 <= i < |box| ==> box[i].0 in p && Almanac.Contains(box[i].1, p[box[i].0])
  }

  /** The part lies in the box as far as all attributes other than `attr` go. */
  predicate OthersIn(box: Box, attr: string, p: Part)
  {
    forall i :: 0 <= i < |box| && box[i].0 != attr ==> box[i].0 in p && Almanac.Contains(box[i].1, p[box[i].0])
  }

  lemma InBoxAt(box: Box, attr: string, iv: Interval, p: Part)
    requires Distinct(box) && Lookup(box, attr) == Some(iv)
    ensures InBox(box, p) <==> OthersIn(box, attr, p) && attr in p && Almanac.Contains(iv, p[attr])
    ensures InBox(Assign(box, attr, iv), p) == InBox(box, p)
  {
    var i :| 0 <= i < |box| && box[i] == (attr, iv);
    assert forall j :: 0 <= j < |box| && box[j].0 == attr ==> j == i;
    assert Assign(box, attr, iv) == box;
  }

  lemma InAssigned(box: Box, attr: string, iv: Interval, jv: Interval, p: Part)
    requires Distinct(box) && Lookup(box, attr) == Some(iv)
    ensures Distinct(Assign(box, attr, jv)) && Lookup(Assign(box, attr, jv), attr) == Some(jv)
    ensures OthersIn(Assign(box, attr, jv), attr, p) == OthersIn(box, attr, p)
    ensures InBox(Assign(box, attr, jv), p) <==> OthersIn(box, attr, p) && attr in p && Almanac.Contains(jv, p[attr])
  {
    var r := Assign(box, attr, jv);
    var i :| 0 <= i < |box| && box[i] == (attr, iv);
    AssignDistinct(box, attr, jv);
    assert r[i] == (attr, jv);
    LookupAt(r, i);
    AssignOthers(box, attr, jv, p);
    InBoxAt(r, attr, jv, p);
  }

  lemma AssignDistinct(box: Box, attr: string, jv: Interval)
    requires Distinct(box)
    ensures Distinct(Assign(box, attr, jv))
  {
    var r := Assign(box, attr, jv);
    assert forall j :: 0 <= j < |box| ==> r[j].0 == box[j].0;
  }

  lemma AssignOthers(box: Box, attr: string, jv: Interval, p: Part)
    ensures OthersIn(Assign(box, attr, jv), attr, p) == OthersIn(box, attr, p)
  {
    var r := Assign(box, attr, jv);
    assert forall j :: 0 <= j < |box| && box[j].0 != attr ==> r[j] == box[j];
  }

  lemma LookupAt(box: Box, i: nat)
    requires Distinct(box) && i < |box|
    ensures Lookup(box, box[i].0) == Some(box[i].1)
  {
    var r := Lookup(box, box[i].0);
    var j :| 0 <= j < |box| && box[j] == (box[i].0, r.value);
  }

  // The meaning of the workflows for one part.

  /** Where a part goes from a workflow with these rules: the first rule that applies, or dropped. */
  function Route(rules: seq<Rule>, p: Part): Option<string>
  {
    if rules == [] then None
    else match rules[0]
      case Goto(w) => Some(w)
      case Test(a, sign, rating, t) =>
        if a in p && Almanac.Contains(TestRange(sign, rating), p[a]) then Some(t) else Route(rules[1..], p)
  }

  /** The workflow a part is at after `d` hops from `w`; `None` once it is finished or dropped. */
  function Walk(workflows: map<string, seq<Rule>>, w: string, p: Part, d: nat): Option<string>
  {
    if d == 0 then Some(w)
    else match Walk(workflows, w, p, d - 1)
      case Some(v) => if v != Accept && v != Reject && v in workflows then Route(workflows[v], p) else None
      case None => None
  }

  ghost predicate AcceptedFrom(workflows: map<string, seq<Rule>>, w: string, p: Part)
  {
    exists d :: Walk(workflows, w, p, d) == Some(Accept)
  }

  /** A walk that is still going at `d2` was going, at an unfinished workflow, at every earlier step. */
  lemma {:induction false} WalkEarlier(workflows: map<string, seq<Rule>>, w: string, p: Part, d1: nat, d2: nat)
    requires d1 < d2 && Walk(workflows, w, p, d2).Some?
    ensures Walk(workflows, w, p, d1).Some?
    ensures Walk(workflows, w, p, d1).value != Accept && Walk(workflows, w, p, d1).value != Reject
  {
    if d1 < d2 - 1 {
      WalkEarlier(workflows, w, p, d1, d2 - 1);
    }
  }

  /** A part rejected, or dropped by a workflow where no rule applies, is never accepted. */
  lemma NeverAcceptedAfter(workflows: map<string, seq<Rule>>, w: string, p: Part, d: nat)
    requires Walk(workflows, w, p, d) == Some(Reject) || Walk(workflows, w, p, d + 1) == None
    requires Walk(workflows, w, p, d).Some? && Walk(workflows, w, p, d).value != Accept
    ensures !AcceptedFrom(workflows, w, p)
  {
    if e: nat :| Walk(workflows, w, p, e) == Some(Accept) {
      if e < d {
        WalkEarlier(workflows, w, p, e, d);
      } else if e > d {
        WalkEarlier(workflows, w, p, d, e);
        if e > d + 1 {
          WalkEarlier(workflows, w, p, d + 1, e);
        }
      }
    }
  }

  // One workflow applied to one box.

  /** How many of the jobs' boxes hold the part. */
  function Covered(jobs: seq<Job>, p: Part): nat
  {
    if jobs == [] then 0 else Covered(jobs[..|jobs| - 1], p) + (if InBox(jobs[|jobs| - 1].box, p) then 1 else 0)
  }

  lemma {:induction false} CoveredConcat(a: seq<Job>, b: seq<Job>, p: Part)
    ensures Covered(a + b, p) == Covered(a, p) + Covered(b, p)
  {
    if b == [] {
      assert a + b == a;
    } else {
      assert (a + b)[..|a + b| - 1] == a + b[..|b| - 1];
      CoveredConcat(a, b[..|b| - 1], p);
    }
  }

  /** The jobs sending `box`, with `attr` narrowed to each of `pieces` in turn, to `w`. */
  function Spread(w: string, box: Box, attr: string, pieces: seq<Interval>): (r: seq<Job>)
    ensures |r| == |pieces|
    ensures forall k :: 0 <= k < |pieces| ==> r[k] == Job(w, Assign(box, attr, pieces[k]))
  {
    if pieces == [] then [] else Spread(w, box, attr, pieces[..|pieces| - 1]) + [Job(w, Assign(box, attr, pieces[|pieces| - 1]))]
  }

  lemma {:induction false} CoveredSpread(w: string, box: Box, attr: string, iv: Interval, pieces: seq<Interval>, p: Part)
    requires Distinct(box) && Lookup(box, attr) == Some(iv)
    ensures Covered(Spread(w, box, attr, pieces), p) ==
      if OthersIn(box, attr, p) && attr in p then Almanac.Occurrences(pieces, p[attr]) else 0
  {
    if pieces != [] {
      var r := Spread(w, box, attr, pieces);
      assert r[..|r| - 1] == Spread(w, box, attr, pieces[..|pieces| - 1]);
      CoveredSpread(w, box, attr, iv, pieces[..|pieces| - 1], p);
      InAssigned(box, attr, iv, pieces[|pieces| - 1], p);
    }
  }

  /** Before rule `i`, every part of the box has passed the earlier rules unrouted. */
  ghost predicate ReachesRule(rules: seq<Rule>, box: Box, i: nat)
    requires i <= |rules|
  {
    forall p :: InBox(box, p) ==> Route(rules, p) == Route(rules[i..], p)
  }

  /**
   * What one pass of a workflow `w` with these rules does to a box: the pushed boxes share the
   * box's attributes, lie in it and split it (each of its parts is in exactly one of them), a
   * box that `hops` marks goes where the rules route each of its parts and the others stay at
   * `w`; nothing is pushed only when no rule routes any part of the box.
   */
  ghost predicate Dispatched(w: string, rules: seq<Rule>, box: Box, pushed: seq<Job>, hops: seq<bool>)
  {
    && |hops| == |pushed|
    && SameShape(box, pushed)
    && Routed(w, rules, box, pushed, hops)
    && (forall p :: Covered(pushed, p) == if InBox(box, p) && pushed != [] then 1 else 0)
    && (pushed == [] ==> forall p :: InBox(box, p) ==> Route(rules, p) == None)
  }

  /** The pushed boxes are well formed and rate the attributes of `box`. */
  predicate SameShape(box: Box, pushed: seq<Job>)
  {
    forall k :: 0 <= k < |pushed| ==> WellFormedBox(pushed[k].box) && Names(pushed[k].box) == Names(box)
  }

  /** Each part of a pushed box is in `box` and goes where its job goes. */
  ghost predicate Routed(w: string, rules: seq<Rule>, box: Box, pushed: seq<Job>, hops: seq<bool>)
    requires |hops| == |pushed|
  {
    forall k, p :: 0 <= k < |pushed| && InBox(pushed[k].box, p) ==> InBox(box, p) && Goes(w, rules, pushed[k], hops[k], p)
  }

  /** A job that hops takes the part where the rules route it; one that does not stays at `w`. */
  ghost predicate Goes(w: string, rules: seq<Rule>, job: Job, hop: bool, p: Part)
  {
    if hop then Route(rules, p) == Some(job.workflow) else job.workflow == w
  }

  /**
   * The body of the worklist loop for a box at workflow `w`: the first rule whose range meets
   * the box sends that slice on, and the slices either side of it go back to `w`.
   */
  method ApplyWorkflow(w: string, rules: seq<Rule>, box: Box, ghost good: bool) returns (r: Result<seq<Job>, FilterError>, ghost hops: seq<bool>)
    requires good ==> WellFormedBox(box)
    ensures good && r.Ok? ==> Dispatched(w, rules, box, r.value, hops)
    ensures r.Err? ==> r.error.UnknownAttribute? && r.error.attr !in Names(box)
    ensures good && r.Err? ==> exists i :: 0 <= i < |rules| && rules[i].Test? && rules[i].attr == r.error.attr && ReachesRule(rules, box, i)
  {
    var i := 0;
    while i < |rules|
      invariant i <= |rules| && (good ==> ReachesRule(rules, box, i))
    {
      match rules[i]
      case Goto(t) =>
        if good {
          GotoDispatched(w, rules, box, i, t);
        }
        return Ok([Job(t, box)]), [true];
      case Test(attr, sign, rating, t) =>
        var cur := Lookup(box, attr);
        if cur.None? {
          return Err(UnknownAttribute(attr)), [];
        }
        var inter := Almanac.IntersectIntervals(cur.value, TestRange(sign, rating));
        if inter.Some? {
          var pieces := Difference(cur.value, inter.value);
          var rest := if pieces.Some? then pieces.value else [];
          var pushed := SliceBox(w, box, attr, Job(t, Assign(box, attr, inter.value)), rest);
          hops := [true] + seq(|rest|, k => false);
          if good {
            SplitDispatched(w, rules, box, i, cur.value, inter.value, rest, hops);
          }
          return Ok(pushed), hops;
        }
        if good {
          MissStep(rules, box, i, cur.value);
        }
        i := i + 1;
    }
    if good {
      forall p | InBox(box, p) ensures Route(rules, p) == None {
        assert rules[|rules|..] == [];
      }
    }
    return Ok([]), [];
  }

  /** The pushes of a split: the slice that moves on, then one job at `w` per remaining piece. */
  method SliceBox(w: string, box: Box, attr: string, first: Job, rest: seq<Interval>) returns (pushed: seq<Job>)
    ensures pushed == [first] + Spread(w, box, attr, rest)
  {
    pushed := [first];
    for q := 0 to |rest|
      invariant pushed == [first] + Spread(w, box, attr, rest[..q])
    {
      assert rest[..q + 1][..q] == rest[..q];
      pushed := pushed + [Job(w, Assign(box, attr, rest[q]))];
    }
    assert rest[..|rest|] == rest;
  }

  lemma GotoDispatched(w: string, rules: seq<Rule>, box: Box, i: nat, t: string)
    requires WellFormedBox(box) && i < |rules| && ReachesRule(rules, box, i) && rules[i] == Goto(t)
    ensures Dispatched(w, rules, box, [Job(t, box)], [true])
  {
    forall p ensures Covered([Job(t, box)], p) == if InBox(box, p) then 1 else 0 {
      assert [Job(t, box)][..0] == [];
    }
  }

  /** A test rule whose range misses the box passes every part of it on to the next rule. */
  lemma MissStep(rules: seq<Rule>, box: Box, i: nat, cur: Interval)
    requires WellFormedBox(box) && i < |rules| && ReachesRule(rules, box, i) && rules[i].Test?
    requires Lookup(box, rules[i].attr) == Some(cur)
    requires Almanac.IntersectIntervals(cur, TestRange(rules[i].sign, rules[i].rating)).None?
    ensures ReachesRule(rules, box, i + 1)
  {
    var rule := rules[i];
    forall p | InBox(box, p) ensures Route(rules, p) == Route(rules[i + 1..], p) {
      InBoxAt(box, rule.attr, cur, p);
      var k :| 0 <= k < |box| && box[k] == (rule.attr, cur);
      TestIntersect(cur, rule.sign, rule.rating);
      assert rules[i..][1..] == rules[i + 1..];
    }
  }

  /** The slice a matching test rule sends on and the slices either side of it split the box. */
  lemma SplitDispatched(w: string, rules: seq<Rule>, box: Box, i: nat, cur: Interval, iv: Interval,
                        rest: seq<Interval>, hops: seq<bool>)
    requires WellFormedBox(box) && i < |rules| && ReachesRule(rules, box, i) && rules[i].Test?
    requires Lookup(box, rules[i].attr) == Some(cur)
    requires Almanac.IntersectIntervals(cur, TestRange(rules[i].sign, rules[i].rating)) == Some(iv)
    requires rest == Almanac.SubtractIntervals(cur, iv)
    requires hops == [true] + seq(|rest|, k => false)
    ensures Dispatched(w, rules, box, [Job(rules[i].target, Assign(box, rules[i].attr, iv))] + Spread(w, box, rules[i].attr, rest), hops)
  {
    var rule := rules[i];
    var first := Job(rule.target, Assign(box, rule.attr, iv));
    var pushed := [first] + Spread(w, box, rule.attr, rest);
    assert InUniverse(iv) && Almanac.Within(iv, cur) by { TestIntersect(cur, rule.sign, rule.rating); }
    assert forall x :: Almanac.Contains(iv, x) ==> Almanac.Contains(TestRange(rule.sign, rule.rating), x) by {
      TestIntersect(cur, rule.sign, rule.rating);
    }
    assert forall k :: 0 <= k < |rest| ==> Almanac.WellFormed(rest[k]) && Almanac.Within(rest[k], cur) by {
      Almanac.SubtractComplements(cur, iv);
    }
    assert SameShape(box, pushed) by { SplitShape(w, box, rule.attr, cur, iv, rest, first, pushed); }
    assert Routed(w, rules, box, pushed, hops) by { SplitRoutes(w, rules, box, i, cur, iv, rest, pushed, hops); }
    assert forall p :: Covered(pushed, p) == if InBox(box, p) then 1 else 0 by {
      forall p ensures Covered(pushed, p) == if InBox(box, p) then 1 else 0 {
        SplitCovers(w, box, rule.attr, cur, iv, rule.target, p);
      }
    }
  }

  lemma SplitShape(w: string, box: Box, attr: string, cur: Interval, iv: Interval, rest: seq<Interval>,
                   first: Job, pushed: seq<Job>)
    requires WellFormedBox(box) && Lookup(box, attr) == Some(cur)
    requires InUniverse(iv) && forall k :: 0 <= k < |rest| ==> Almanac.WellFormed(rest[k]) && Almanac.Within(rest[k], cur)
    requires first.box == Assign(box, attr, iv) && pushed == [first] + Spread(w, box, attr, rest)
    ensures SameShape(box, pushed)
  {
    forall k | 0 <= k < |pushed|
      ensures WellFormedBox(pushed[k].box) && Names(pushed[k].box) == Names(box)
    {
      if k == 0 {
        PieceShape(box, attr, cur, iv);
      } else {
        assert pushed[k].box == Assign(box, attr, rest[k - 1]);
        PieceShape(box, attr, cur, rest[k - 1]);
      }
    }
  }

  /** Narrowing an attribute of a well-formed box to a well-formed piece of its range keeps it well formed. */
  lemma PieceShape(box: Box, attr: string, cur: Interval, piece: Interval)
    requires WellFormedBox(box) && Lookup(box, attr) == Some(cur)
    requires InUniverse(piece) || (Almanac.WellFormed(piece) && Almanac.Within(piece, cur))
    ensures WellFormedBox(Assign(box, attr, piece)) && Names(Assign(box, attr, piece)) == Names(box)
  {
    var k0 :| 0 <= k0 < |box| && box[k0] == (attr, cur);
    assert InUniverse(cur);
    assert InUniverse(piece);
    InAssigned(box, attr, cur, piece, map[]);
  }

  lemma SplitRoutes(w: string, rules: seq<Rule>, box: Box, i: nat, cur: Interval, iv: Interval,
                    rest: seq<Interval>, pushed: seq<Job>, hops: seq<bool>)
    requires WellFormedBox(box) && i < |rules| && ReachesRule(rules, box, i) && rules[i].Test?
    requires Lookup(box, rules[i].attr) == Some(cur)
    requires Almanac.Within(iv, cur) && forall x :: Almanac.Contains(iv, x) ==> Almanac.Contains(TestRange(rules[i].sign, rules[i].rating), x)
    requires forall k :: 0 <= k < |rest| ==> Almanac.Within(rest[k], cur)
    requires pushed == [Job(rules[i].target, Assign(box, rules[i].attr, iv))] + Spread(w, box, rules[i].attr, rest)
    requires hops == [true] + seq(|rest|, k => false)
    ensures Routed(w, rules, box, pushed, hops)
  {
    var first := Job(rules[i].target, Assign(box, rules[i].attr, iv));
    forall p | InBox(first.box, p) ensures InBox(box, p) && Goes(w, rules, first, true, p) {
      SliceRoutes(rules, box, i, cur, iv, p);
    }
    SpreadRoutes(w, rules, box, rules[i].attr, cur, rest);
    RoutedCons(w, rules, box, first, true, Spread(w, box, rules[i].attr, rest), seq(|rest|, k => false));
  }

  /** The jobs left at `w` for pieces of the box route nowhere else. */
  lemma SpreadRoutes(w: string, rules: seq<Rule>, box: Box, attr: string, cur: Interval, rest: seq<Interval>)
    requires Distinct(box) && Lookup(box, attr) == Some(cur)
    requires forall k :: 0 <= k < |rest| ==> Almanac.Within(rest[k], cur)
    ensures Routed(w, rules, box, Spread(w, box, attr, rest), seq(|rest|, k => false))
  {
    var pushed, hops := Spread(w, box, attr, rest), seq(|rest|, k => false);
    forall k, p | 0 <= k < |pushed| && InBox(pushed[k].box, p) ensures InBox(box, p) && Goes(w, rules, pushed[k], hops[k], p) {
      SliceIn(box, attr, cur, rest[k], p);
    }
  }

  lemma RoutedCons(w: string, rules: seq<Rule>, box: Box, first: Job, hop: bool, tail: seq<Job>, tailHops: seq<bool>)
    requires |tail| == |tailHops| && Routed(w, rules, box, tail, tailHops)
    requires forall p :: InBox(first.box, p) ==> InBox(box, p) && Goes(w, rules, first, hop, p)
    ensures Routed(w, rules, box, [first] + tail, [hop] + tailHops)
  {
    var pushed, hops := [first] + tail, [hop] + tailHops;
    forall k, p | 0 <= k < |pushed| && InBox(pushed[k].box, p) ensures InBox(box, p) && Goes(w, rules, pushed[k], hops[k], p) {
      if k > 0 {
        assert pushed[k] == tail[k - 1] && hops[k] == tailHops[k - 1];
      }
    }
  }

  /** A part of the slice a matching test rule claims is in the box and routed to the rule's target. */
  lemma SliceRoutes(rules: seq<Rule>, box: Box, i: nat, cur: Interval, iv: Interval, p: Part)
    requires WellFormedBox(box) && i < |rules| && ReachesRule(rules, box, i) && rules[i].Test?
    requires Lookup(box, rules[i].attr) == Some(cur)
    requires Almanac.Within(iv, cur) && forall x :: Almanac.Contains(iv, x) ==> Almanac.Contains(TestRange(rules[i].sign, rules[i].rating), x)
    requires InBox(Assign(box, rules[i].attr, iv), p)
    ensures InBox(box, p) && Route(rules, p) == Some(rules[i].target)
  {
    var rule := rules[i];
    SliceIn(box, rule.attr, cur, iv, p);
    InAssigned(box, rule.attr, cur, iv, p);
    assert rules[i..][0] == rule;
  }

  lemma SplitCovers(w: string, box: Box, attr: string, cur: Interval, iv: Interval, t: string, p: Part)
    requires Distinct(box) && Lookup(box, attr) == Some(cur)
    requires Almanac.WellFormed(iv) && Almanac.Within(iv, cur)
    ensures Covered([Job(t, Assign(box, attr, iv))] + Spread(w, box, attr, Almanac.SubtractIntervals(cur, iv)), p) ==
      if InBox(box, p) then 1 else 0
  {
    var first := Job(t, Assign(box, attr, iv));
    var rest := Almanac.SubtractIntervals(cur, iv);
    var inside := OthersIn(box, attr, p) && attr in p;
    assert Covered([first] + Spread(w, box, attr, rest), p) == Covered([first], p) + Covered(Spread(w, box, attr, rest), p) by {
      CoveredConcat([first], Spread(w, box, attr, rest), p);
    }
    assert Covered([first], p) == if inside && Almanac.Contains(iv, p[attr]) then 1 else 0 by {
      assert [first][..0] == [];
      InAssigned(box, attr, cur, iv, p);
    }
    assert Covered(Spread(w, box, attr, rest), p) == if inside then Almanac.Occurrences(rest, p[attr]) else 0 by {
      CoveredSpread(w, box, attr, cur, rest, p);
    }
    assert InBox(box, p) <==> inside && Almanac.Contains(cur, p[attr]) by {
      InBoxAt(box, attr, cur, p);
    }
    if inside {
      assert Almanac.Indicator(iv, p[attr]) + Almanac.Occurrences(rest, p[attr]) == Almanac.Indicator(cur, p[attr]) by {
        Almanac.SubtractComplements(cur, iv);
      }
    }
  }

  /** A part of the box narrowed to a piece of its range is a part of the box. */
  lemma SliceIn(box: Box, attr: string, cur: Interval, piece: Interval, p: Part)
    requires Distinct(box) && Lookup(box, attr) == Some(cur) && Almanac.Within(piece, cur)
    requires InBox(Assign(box, attr, piece), p)
    ensures InBox(box, p)
  {
    InAssigned(box, attr, cur, piece, p);
    InBoxAt(box, attr, cur, p);
  }

  // The worklist.

  /** How many of the jobs hold the part in their box and, from their workflow, accept it. */
  ghost function Pending(workflows: map<string, seq<Rule>>, jobs: seq<Job>, p: Part): nat
  {
    if jobs == [] then 0
    else
      var last := jobs[|jobs| - 1];
      Pending(workflows, jobs[..|jobs| - 1], p) + (if InBox(last.box, p) && AcceptedFrom(workflows, last.workflow, p) then 1 else 0)
  }

  lemma {:induction false} PendingConcat(workflows: map<string, seq<Rule>>, a: seq<Job>, b: seq<Job>, p: Part)
    ensures Pending(workflows, a + b, p) == Pending(workflows, a, p) + Pending(workflows, b, p)
  {
    if b == [] {
      assert a + b == a;
    } else {
      assert (a + b)[..|a + b| - 1] == a + b[..|b| - 1];
      PendingConcat(workflows, a, b[..|b| - 1], p);
    }
  }

  /** How many of the boxes hold the part. */
  function Hits(boxes: seq<Box>, p: Part): nat
  {
    if boxes == [] then 0 else Hits(boxes[..|boxes| - 1], p) + (if InBox(boxes[|boxes| - 1], p) then 1 else 0)
  }

  /** Where a pending job came from: the index of an initial job, and how many hops it has made. */
  datatype Trace = Trace(origin: nat, depth: nat)

  /**
   * The job's box is a part of its origin's box with the same attributes, and every part of it
   * is, after `depth` hops from the origin's workflow, at the job's workflow.
   */
  ghost predicate Traced(workflows: map<string, seq<Rule>>, jobs0: seq<Job>, job: Job, t: Trace)
  {
    && t.origin < |jobs0|
    && WellFormedBox(job.box)
    && Names(job.box) == Names(jobs0[t.origin].box)
    && forall p :: InBox(job.box, p) ==>
         InBox(jobs0[t.origin].box, p) && Walk(workflows, jobs0[t.origin].workflow, p, t.depth) == Some(job.workflow)
  }

  ghost predicate AllTraced(workflows: map<string, seq<Rule>>, jobs0: seq<Job>, jobs: seq<Job>, traces: seq<Trace>)
  {
    |traces| == |jobs| && forall k :: 0 <= k < |jobs| ==> Traced(workflows, jobs0, jobs[k], traces[k])
  }

  /** Every part is accepted as often by the finished boxes and the pending jobs together as by the initial jobs. */
  ghost predicate Balanced(workflows: map<string, seq<Rule>>, jobs0: seq<Job>, jobs: seq<Job>, accepted: seq<Box>)
  {
    forall p :: Pending(workflows, jobs, p) + Hits(accepted, p) == Pending(workflows, jobs0, p)
  }

  /** The state of `filter_intervals`' loop. */
  ghost predicate Filtering(workflows: map<string, seq<Rule>>, jobs0: seq<Job>, jobs: seq<Job>, traces: seq<Trace>,
                            accepted: seq<Box>)
  {
    && AllTraced(workflows, jobs0, jobs, traces)
    && (forall k :: 0 <= k < |accepted| ==> WellFormedBox(accepted[k]))
    && Balanced(workflows, jobs0, jobs, accepted)
  }

  /** Some part of initial job `j`'s box is at workflow `w` after `d` hops. */
  ghost predicate ReachedBy(workflows: map<string, seq<Rule>>, jobs0: seq<Job>, w: string, j: nat, p: Part, d: nat)
  {
    j < |jobs0| && InBox(jobs0[j].box, p) && Walk(workflows, jobs0[j].workflow, p, d) == Some(w)
  }

  /**
   * Some part of initial job `j`'s box reaches, after `d` hops, a workflow whose rule `i` it
   * gets to and which tests `attr`, an attribute that box does not rate.
   */
  ghost predicate UnratedAt(workflows: map<string, seq<Rule>>, jobs0: seq<Job>, attr: string, j: nat, p: Part, d: nat, i: nat)
  {
    && j < |jobs0| && InBox(jobs0[j].box, p) && attr !in Names(jobs0[j].box)
    && var w := Walk(workflows, jobs0[j].workflow, p, d);
    && w.Some? && w.value != Accept && w.value != Reject && w.value in workflows
    && i < |workflows[w.value]| && workflows[w.value][i].Test? && workflows[w.value][i].attr == attr
    && Route(workflows[w.value], p) == Route(workflows[w.value][i..], p)
  }

  /** Every initial box is well formed: distinct attributes, each range within 1..4000. */
  predicate Boxed(jobs0: seq<Job>)
  {
    forall k :: 0 <= k < |jobs0| ==> WellFormedBox(jobs0[k].box)
  }

  /**
   * `filter_intervals`: pops jobs from the end of the worklist; boxes at "A" are accepted, at
   * "R" dropped, and any other workflow splits its box into more jobs. On success each part is
   * in as many accepted boxes as there are initial jobs whose box holds it and whose workflow
   * accepts it; the errors are a workflow or a rating some part of an initial box runs into.
   */
  method FilterIntervals(workflows: map<string, seq<Rule>>, jobs0: seq<Job>, fuel: nat)
    returns (r: Result<seq<Box>, FilterError>)
    ensures Boxed(jobs0) && r.Ok? ==> forall k :: 0 <= k < |r.value| ==> WellFormedBox(r.value[k])
    ensures Boxed(jobs0) && r.Ok? ==> forall p :: Hits(r.value, p) == Pending(workflows, jobs0, p)
    ensures r.Err? && r.error.UnknownWorkflow? ==>
      var w := r.error.name;
      w != Accept && w != Reject && w !in workflows && (Boxed(jobs0) ==> exists j, p, d :: ReachedBy(workflows, jobs0, w, j, p, d))
    ensures Boxed(jobs0) && r.Err? && r.error.UnknownAttribute? ==>
      exists j, p, d, i :: UnratedAt(workflows, jobs0, r.error.attr, j, p, d, i)
  {
    var jobs := jobs0;
    var accepted: seq<Box> := [];
    ghost var good := Boxed(jobs0);
    ghost var traces := seq(|jobs0|, k requires 0 <= k < |jobs0| => Trace(k, 0));
    if good {
      FilteringStart(workflows, jobs0);
    }
    var budget := fuel;
    while jobs != []
      invariant good ==> Filtering(workflows, jobs0, jobs, traces, accepted)
      decreases budget
    {
      if budget == 0 {
        return Err(OutOfFuel);
      }
      budget := budget - 1;
      var job := jobs[|jobs| - 1];
      ghost var t := if good then traces[|traces| - 1] else Trace(0, 0);
      if job.workflow == Accept {
        if good {
          AcceptStep(workflows, jobs0, jobs, traces, accepted);
        }
        jobs, accepted := jobs[..|jobs| - 1], accepted + [job.box];
        traces := if good then traces[..|traces| - 1] else traces;
      } else if job.workflow == Reject {
        if good {
          RejectStep(workflows, jobs0, jobs, traces, accepted);
        }
        jobs := jobs[..|jobs| - 1];
        traces := if good then traces[..|traces| - 1] else traces;
      } else if job.workflow !in workflows {
        if good {
          UnknownReached(workflows, jobs0, jobs, traces, accepted);
        }
        return Err(UnknownWorkflow(job.workflow));
      } else {
        assert good ==> Traced(workflows, jobs0, job, t);
        var pushed, hops := ApplyWorkflow(job.workflow, workflows[job.workflow], job.box, good);
        if pushed.Err? {
          if good {
            UnratedReached(workflows, jobs0, job, t, pushed.error.attr);
          }
          return Err(pushed.error);
        }
        if good {
          ExpandStep(workflows, jobs0, jobs, traces, accepted, pushed.value, hops);
        }
        jobs := jobs[..|jobs| - 1] + pushed.value;
        traces := if good then traces[..|traces| - 1] + Forward(t, hops) else traces;
      }
    }
    if good {
      FilteringEnd(workflows, jobs0, traces, accepted);
    }
    return Ok(accepted);
  }

  /** The traces of the jobs a pass pushes: one more hop for a box that moved on. */
  function Forward(t: Trace, hops: seq<bool>): (r: seq<Trace>)
    ensures |r| == |hops| && forall k :: 0 <= k < |hops| ==> r[k] == if hops[k] then Trace(t.origin, t.depth + 1) else t
  {
    seq(|hops|, k requires 0 <= k < |hops| => if hops[k] then Trace(t.origin, t.depth + 1) else t)
  }

  // The steps of the worklist loop.

  lemma FilteringStart(workflows: map<string, seq<Rule>>, jobs0: seq<Job>)
    requires forall k :: 0 <= k < |jobs0| ==> WellFormedBox(jobs0[k].box)
    ensures Filtering(workflows, jobs0, jobs0, seq(|jobs0|, k requires 0 <= k < |jobs0| => Trace(k, 0)), [])
  {
  }

  lemma AcceptStep(workflows: map<string, seq<Rule>>, jobs0: seq<Job>, jobs: seq<Job>, traces: seq<Trace>, accepted: seq<Box>)
    requires Filtering(workflows, jobs0, jobs, traces, accepted)
    requires jobs != [] && jobs[|jobs| - 1].workflow == Accept
    ensures Filtering(workflows, jobs0, jobs[..|jobs| - 1], traces[..|traces| - 1], accepted + [jobs[|jobs| - 1].box])
  {
    var box := jobs[|jobs| - 1].box;
    assert (accepted + [box])[..|accepted|] == accepted;
    forall p ensures Pending(workflows, jobs[..|jobs| - 1], p) + Hits(accepted + [box], p) == Pending(workflows, jobs0, p) {
      assert Walk(workflows, Accept, p, 0) == Some(Accept);
    }
  }

  lemma RejectStep(workflows: map<string, seq<Rule>>, jobs0: seq<Job>, jobs: seq<Job>, traces: seq<Trace>, accepted: seq<Box>)
    requires Filtering(workflows, jobs0, jobs, traces, accepted)
    requires jobs != [] && jobs[|jobs| - 1].workflow == Reject
    ensures Filtering(workflows, jobs0, jobs[..|jobs| - 1], traces[..|traces| - 1], accepted)
  {
    forall p ensures Pending(workflows, jobs[..|jobs| - 1], p) + Hits(accepted, p) == Pending(workflows, jobs0, p) {
      NeverAcceptedAfter(workflows, Reject, p, 0);
    }
  }

  /** A part with the lower end of each range of the box. */
  function Corner(box: Box): (p: Part)
    requires WellFormedBox(box)
    ensures InBox(box, p)
  {
    var p := map a | a in Names(box) :: Lookup(box, a).value.lo;
    assert InBox(box, p) by {
      forall i | 0 <= i < |box| ensures box[i].0 in p && Almanac.Contains(box[i].1, p[box[i].0]) {
        LookupAt(box, i);
      }
    }
    p
  }

  lemma UnknownReached(workflows: map<string, seq<Rule>>, jobs0: seq<Job>, jobs: seq<Job>, traces: seq<Trace>, accepted: seq<Box>)
    requires Filtering(workflows, jobs0, jobs, traces, accepted) && jobs != []
    ensures var j, t := jobs[|jobs| - 1], traces[|traces| - 1];
      ReachedBy(workflows, jobs0, j.workflow, t.origin, Corner(j.box), t.depth)
  {
    var j, t := jobs[|jobs| - 1], traces[|traces| - 1];
    assert Traced(workflows, jobs0, j, t);
  }

  lemma UnratedReached(workflows: map<string, seq<Rule>>, jobs0: seq<Job>, job: Job, t: Trace, attr: string)
    requires Traced(workflows, jobs0, job, t)
    requires job.workflow != Accept && job.workflow != Reject && job.workflow in workflows
    requires attr !in Names(job.box)
    requires exists i :: (&& 0 <= i < |workflows[job.workflow]| && workflows[job.workflow][i].Test?
                          && workflows[job.workflow][i].attr == attr && ReachesRule(workflows[job.workflow], job.box, i))
    ensures exists j, p, d, i :: UnratedAt(workflows, jobs0, attr, j, p, d, i)
  {
    var rules := workflows[job.workflow];
    var i :| 0 <= i < |rules| && rules[i].Test? && rules[i].attr == attr && ReachesRule(rules, job.box, i);
    var p := Corner(job.box);
    assert UnratedAt(workflows, jobs0, attr, t.origin, p, t.depth, i);
  }

  /** One hop from `w` to `t` leaves the walks of a part the same, one step later. */
  lemma {:induction false} WalkShift(workflows: map<string, seq<Rule>>, w: string, t: string, p: Part, d: nat)
    requires w != Accept && w != Reject && w in workflows && Route(workflows[w], p) == Some(t)
    ensures Walk(workflows, w, p, d + 1) == Walk(workflows, t, p, d)
  {
    if d > 0 {
      WalkShift(workflows, w, t, p, d - 1);
    }
  }

  lemma AcceptedShift(workflows: map<string, seq<Rule>>, w: string, t: string, p: Part)
    requires w != Accept && w != Reject && w in workflows && Route(workflows[w], p) == Some(t)
    ensures AcceptedFrom(workflows, w, p) <==> AcceptedFrom(workflows, t, p)
  {
    if d: nat :| Walk(workflows, w, p, d) == Some(Accept) {
      assert d > 0;
      WalkShift(workflows, w, t, p, d - 1);
    }
    if d: nat :| Walk(workflows, t, p, d) == Some(Accept) {
      WalkShift(workflows, w, t, p, d);
    }
  }

  /** When every job holding the part accepts it alike, the count is all of them or none. */
  lemma {:induction false} PendingUniform(workflows: map<string, seq<Rule>>, jobs: seq<Job>, p: Part, accept: bool)
    requires forall k :: 0 <= k < |jobs| && InBox(jobs[k].box, p) ==> AcceptedFrom(workflows, jobs[k].workflow, p) == accept
    ensures Pending(workflows, jobs, p) == if accept then Covered(jobs, p) else 0
  {
    if jobs != [] {
      PendingUniform(workflows, jobs[..|jobs| - 1], p, accept);
    }
  }

  /** The jobs one pass pushes accept a part exactly when the popped job did. */
  lemma PushedPending(workflows: map<string, seq<Rule>>, w: string, box: Box, pushed: seq<Job>, hops: seq<bool>, p: Part)
    requires w != Accept && w != Reject && w in workflows
    requires Dispatched(w, workflows[w], box, pushed, hops)
    ensures Pending(workflows, pushed, p) == if InBox(box, p) && AcceptedFrom(workflows, w, p) then 1 else 0
  {
    var accept := AcceptedFrom(workflows, w, p);
    forall k | 0 <= k < |pushed| && InBox(pushed[k].box, p)
      ensures AcceptedFrom(workflows, pushed[k].workflow, p) == accept
    {
      assert Routed(w, workflows[w], box, pushed, hops);
      assert if hops[k] then Route(workflows[w], p) == Some(pushed[k].workflow) else pushed[k].workflow == w;
      if hops[k] {
        AcceptedShift(workflows, w, pushed[k].workflow, p);
      }
    }
    PendingUniform(workflows, pushed, p, accept);
    if accept && InBox(box, p) && Route(workflows[w], p).None? {
      NeverAcceptedAfter(workflows, w, p, 0);
    }
  }

  lemma ExpandStep(workflows: map<string, seq<Rule>>, jobs0: seq<Job>, jobs: seq<Job>, traces: seq<Trace>,
                   accepted: seq<Box>, pushed: seq<Job>, hops: seq<bool>)
    requires Filtering(workflows, jobs0, jobs, traces, accepted) && jobs != []
    requires var w := jobs[|jobs| - 1].workflow; w != Accept && w != Reject && w in workflows
    requires Dispatched(jobs[|jobs| - 1].workflow, workflows[jobs[|jobs| - 1].workflow], jobs[|jobs| - 1].box, pushed, hops)
    ensures Filtering(workflows, jobs0, jobs[..|jobs| - 1] + pushed, traces[..|traces| - 1] + Forward(traces[|traces| - 1], hops), accepted)
  {
    var job, t := jobs[|jobs| - 1], traces[|traces| - 1];
    var jobs', traces' := jobs[..|jobs| - 1] + pushed, traces[..|traces| - 1] + Forward(t, hops);
    assert AllTraced(workflows, jobs0, jobs', traces') by {
      assert Traced(workflows, jobs0, job, t);
      forall k | 0 <= k < |pushed| ensures Traced(workflows, jobs0, pushed[k], Forward(t, hops)[k]) {
        PushedTraced(workflows, jobs0, job, t, pushed, hops, k);
      }
      forall k | 0 <= k < |jobs'| ensures Traced(workflows, jobs0, jobs'[k], traces'[k]) {
        if k >= |jobs| - 1 {
          assert jobs'[k] == pushed[k - (|jobs| - 1)];
          assert traces'[k] == Forward(t, hops)[k - (|jobs| - 1)];
        }
      }
    }
    assert Balanced(workflows, jobs0, jobs', accepted) by {
      forall p ensures Pending(workflows, jobs', p) + Hits(accepted, p) == Pending(workflows, jobs0, p) {
        PendingConcat(workflows, jobs[..|jobs| - 1], pushed, p);
        PushedPending(workflows, job.workflow, job.box, pushed, hops, p);
      }
    }
  }

  lemma PushedTraced(workflows: map<string, seq<Rule>>, jobs0: seq<Job>, job: Job, t: Trace,
                     pushed: seq<Job>, hops: seq<bool>, k: nat)
    requires Traced(workflows, jobs0, job, t)
    requires job.workflow != Accept && job.workflow != Reject && job.workflow in workflows
    requires Dispatched(job.workflow, workflows[job.workflow], job.box, pushed, hops) && k < |pushed|
    ensures Traced(workflows, jobs0, pushed[k], Forward(t, hops)[k])
  {
    var j := jobs0[t.origin];
    forall p | InBox(pushed[k].box, p)
      ensures InBox(j.box, p) && Walk(workflows, j.workflow, p, Forward(t, hops)[k].depth) == Some(pushed[k].workflow)
    {
      assert InBox(job.box, p);
    }
  }

  lemma FilteringEnd(workflows: map<string, seq<Rule>>, jobs0: seq<Job>, traces: seq<Trace>, accepted: seq<Box>)
    requires Filtering(workflows, jobs0, [], traces, accepted)
    ensures forall p :: Hits(accepted, p) == Pending(workflows, jobs0, p)
  {
  }

  // The totals of the accepted boxes.

  /** `sum(range(lo, hi + 1))`. */
  function RangeSum(lo: int, hi: int): int
    decreases hi - lo
  {
    if hi < lo then 0 else RangeSum(lo, hi - 1) + hi
  }

  /** Gauss: the sum of a run of consecutive integers is its length times the mean of its ends. */
  lemma {:induction false} RangeSumClosed(lo: int, hi: int)
    requires lo <= hi + 1
    ensures 2 * RangeSum(lo, hi) == (lo + hi) * (hi - lo + 1)
    decreases hi - lo
  {
    if lo <= hi {
      RangeSumClosed(lo, hi - 1);
    }
  }

  /** The ratings of every part value in a box, range by range. */
  function BoxRatings(box: Box): int
  {
    if box == [] then 0 else BoxRatings(box[..|box| - 1]) + RangeSum(box[|box| - 1].1.lo, box[|box| - 1].1.hi)
  }

  /** `sum_interval_ratings`. */
  function SumIntervalRatings(boxes: seq<Box>): int
  {
    if boxes == [] then 0 else SumIntervalRatings(boxes[..|boxes| - 1]) + BoxRatings(boxes[|boxes| - 1])
  }

  /** `maxr - minr + 1`, which is not clamped at zero. */
  function Width(a: Interval): int { a.hi - a.lo + 1 }

  /** `math.prod(maxr - minr + 1 ...)`. */
  function Combinations(box: Box): int
  {
    if box == [] then 1 else Combinations(box[..|box| - 1]) * Width(box[|box| - 1].1)
  }

  /** `sum_combinations`. */
  function SumCombinations(boxes: seq<Box>): int
  {
    if boxes == [] then 0 else SumCombinations(boxes[..|boxes| - 1]) + Combinations(boxes[|boxes| - 1])
  }

  lemma {:induction false} SumCombinationsConcat(a: seq<Box>, b: seq<Box>)
    ensures SumCombinations(a + b) == SumCombinations(a) + SumCombinations(b)
  {
    if b == [] {
      assert a + b == a;
    } else {
      assert (a + b)[..|a + b| - 1] == a + b[..|b| - 1];
      SumCombinationsConcat(a, b[..|b| - 1]);
    }
  }

  /** The product of the widths of all ranges except the one of `attr`. */
  function OtherWidths(box: Box, attr: string): int
  {
    if box == [] then 1
    else
      var last := box[|box| - 1];
      OtherWidths(box[..|box| - 1], attr) * (if last.0 == attr then 1 else Width(last.1))
  }

  /** Narrowing the one range of `attr` to `iv` scales the combinations by the width of `iv`. */
  lemma {:induction false} CombinationsAssign(box: Box, attr: string, iv: Interval)
    requires Distinct(box) && attr in Names(box)
    ensures Combinations(Assign(box, attr, iv)) == Width(iv) * OtherWidths(box, attr)
  {
    var init, last := box[..|box| - 1], box[|box| - 1];
    var r := Assign(box, attr, iv);
    var width := Width(iv);
    assert r[..|r| - 1] == Assign(init, attr, iv);
    assert Distinct(init);
    if last.0 == attr {
      assert attr !in Names(init) by {
        assert forall i :: 0 <= i < |init| ==> init[i].0 == box[i].0 != box[|box| - 1].0;
      }
      OthersUnassigned(init, attr, iv);
      assert Combinations(r) == Combinations(init) * width;
      assert OtherWidths(box, attr) == Combinations(init) * 1;
    } else {
      assert attr in Names(init) by {
        var i :| 0 <= i < |box| && box[i].0 == attr;
        assert init[i].0 == attr;
      }
      CombinationsAssign(init, attr, iv);
      var lastWidth := Width(last.1);
      var o := OtherWidths(init, attr);
      assert Combinations(r) == (width * o) * lastWidth;
      assert OtherWidths(box, attr) == o * lastWidth;
      MulAssoc(width, o, lastWidth);
    }
  }

  lemma MulDistrib(a: int, b: int, c: int)
    ensures (a + b) * c == a * c + b * c
  {
  }

  lemma MulAssoc(a: int, b: int, c: int)
    ensures (a * b) * c == a * (b * c)
  {
  }

  lemma {:induction false} OthersUnassigned(box: Box, attr: string, iv: Interval)
    requires attr !in Names(box)
    ensures Assign(box, attr, iv) == box && OtherWidths(box, attr) == Combinations(box)
  {
    assert forall i :: 0 <= i < |box| ==> box[i].0 in Names(box);
    if box != [] {
      var init := box[..|box| - 1];
      assert attr !in Names(init) by {
        assert forall i :: 0 <= i < |init| ==> init[i].0 == box[i].0;
      }
      OthersUnassigned(init, attr, iv);
    }
  }

  function Boxes(jobs: seq<Job>): (r: seq<Box>)
    ensures |r| == |jobs| && forall k :: 0 <= k < |jobs| ==> r[k] == jobs[k].box
  {
    seq(|jobs|, k requires 0 <= k < |jobs| => jobs[k].box)
  }

  /**
   * Splitting a box on one attribute, as a matching test rule does, keeps its number of
   * combinations: the slice sent on and the slices left over add up to the box.
   */
  lemma SplitCombinations(w: string, box: Box, attr: string, cur: Interval, iv: Interval, t: string)
    requires Distinct(box) && Lookup(box, attr) == Some(cur)
    requires Almanac.WellFormed(iv) && Almanac.Within(iv, cur)
    ensures SumCombinations(Boxes([Job(t, Assign(box, attr, iv))] + Spread(w, box, attr, Almanac.SubtractIntervals(cur, iv))))
      == Combinations(box)
  {
    var first := Assign(box, attr, iv);
    var jobs := Spread(w, box, attr, Almanac.SubtractIntervals(cur, iv));
    assert SumCombinations(Boxes([Job(t, first)] + jobs)) == Combinations(first) + SumCombinations(Boxes(jobs)) by {
      BoxesCons(Job(t, first), jobs);
      SumCombinationsCons(first, Boxes(jobs));
    }
    SplitTotal(w, box, attr, cur, iv);
  }

  lemma BoxesCons(job: Job, jobs: seq<Job>)
    ensures Boxes([job] + jobs) == [job.box] + Boxes(jobs)
  {
    var l, r := Boxes([job] + jobs), [job.box] + Boxes(jobs);
    forall k | 0 <= k < |l| ensures l[k] == r[k] {
      if k > 0 {
        assert ([job] + jobs)[k] == jobs[k - 1];
      }
    }
  }

  lemma SumCombinationsCons(box: Box, boxes: seq<Box>)
    ensures SumCombinations([box] + boxes) == Combinations(box) + SumCombinations(boxes)
  {
    SumCombinationsConcat([box], boxes);
    assert [box][..0] == [];
  }

  lemma SplitTotal(w: string, box: Box, attr: string, cur: Interval, iv: Interval)
    requires Distinct(box) && Lookup(box, attr) == Some(cur)
    requires Almanac.WellFormed(iv) && Almanac.Within(iv, cur)
    ensures Combinations(Assign(box, attr, iv)) + SumCombinations(Boxes(Spread(w, box, attr, Almanac.SubtractIntervals(cur, iv))))
      == Combinations(box)
  {
    var rest := Almanac.SubtractIntervals(cur, iv);
    var o := OtherWidths(box, attr);
    assert Combinations(Assign(box, attr, iv)) == Width(iv) * o by { CombinationsAssign(box, attr, iv); }
    assert Combinations(box) == Width(cur) * o by {
      CombinationsAssign(box, attr, cur);
      AssignSame(box, attr, cur);
    }
    assert SumCombinations(Boxes(Spread(w, box, attr, rest))) == Almanac.TotalCount(rest) * o by {
      Almanac.SubtractComplements(cur, iv);
      SpreadCombinations(w, box, attr, rest);
    }
    assert Width(iv) + Almanac.TotalCount(rest) == Width(cur) by {
      Almanac.SubtractComplements(cur, iv);
    }
    ScaledSum(Combinations(Assign(box, attr, iv)), SumCombinations(Boxes(Spread(w, box, attr, rest))), Combinations(box),
              Width(iv), Almanac.TotalCount(rest), Width(cur), o);
  }

  /** Assigning an attribute the range it has changes nothing. */
  lemma AssignSame(box: Box, attr: string, cur: Interval)
    requires Distinct(box) && Lookup(box, attr) == Some(cur)
    ensures Assign(box, attr, cur) == box
  {
    var k0 :| 0 <= k0 < |box| && box[k0] == (attr, cur);
    assert forall j :: 0 <= j < |box| && box[j].0 == attr ==> j == k0;
  }

  lemma ScaledSum(a: int, b: int, c: int, x: int, y: int, z: int, o: int)
    requires a == x * o && b == y * o && c == z * o && x + y == z
    ensures a + b == c
  {
    MulDistrib(x, y, o);
  }

  lemma {:induction false} SpreadCombinations(w: string, box: Box, attr: string, pieces: seq<Interval>)
    requires Distinct(box) && attr in Names(box)
    requires forall k :: 0 <= k < |pieces| ==> Almanac.WellFormed(pieces[k])
    ensures SumCombinations(Boxes(Spread(w, box, attr, pieces))) == Almanac.TotalCount(pieces) * OtherWidths(box, attr)
  {
    if pieces != [] {
      var s := Boxes(Spread(w, box, attr, pieces));
      var init, last := pieces[..|pieces| - 1], pieces[|pieces| - 1];
      var o := OtherWidths(box, attr);
      var a := SumCombinations(Boxes(Spread(w, box, attr, init)));
      var c := Combinations(Assign(box, attr, last));
      assert SumCombinations(s) == a + c by {
        assert s[..|s| - 1] == Boxes(Spread(w, box, attr, init));
        assert s[|s| - 1] == Assign(box, attr, last);
      }
      assert a == Almanac.TotalCount(init) * o by { SpreadCombinations(w, box, attr, init); }
      assert c == Almanac.Count(last) * o by { CombinationsAssign(box, attr, last); }
      assert Almanac.TotalCount(pieces) == Almanac.TotalCount(init) + Almanac.Count(last);
      MulDistrib(Almanac.TotalCount(init), Almanac.Count(last), o);
    }
  }

  /** The box of one part for the first half: every rating as a one-value range. */
  function PartBox(ratings: seq<(string, int)>): (r: Box)
    ensures |r| == |ratings|
    ensures forall k :: 0 <= k < |ratings| ==> r[k] == (ratings[k].0, Almanac.Interval(ratings[k].1, ratings[k].1))
  {
    seq(|ratings|, k requires 0 <= k < |ratings| => (ratings[k].0, Almanac.Interval(ratings[k].1, ratings[k].1)))
  }

  function RatingTotal(ratings: seq<(string, int)>): int
  {
    if ratings == [] then 0 else RatingTotal(ratings[..|ratings| - 1]) + ratings[|ratings| - 1].1
  }

  /** The ratings of a one-part box are that part's ratings. */
  lemma {:induction false} PartBoxRatings(ratings: seq<(string, int)>)
    ensures BoxRatings(PartBox(ratings)) == RatingTotal(ratings)
  {
    if ratings != [] {
      var b := PartBox(ratings);
      assert b[..|b| - 1] == PartBox(ratings[..|ratings| - 1]);
      PartBoxRatings(ratings[..|ratings| - 1]);
      var v := ratings[|ratings| - 1].1;
      assert RangeSum(v, v) == v by {
        assert RangeSum(v, v - 1) == 0;
      }
    }
  }

  /** The box of the second half: `x`, `m`, `a` and `s` each over `1..4000`. */
  const FullBox: Box := [("x", Almanac.Interval(1, 4000)), ("m", Almanac.Interval(1, 4000)),
                         ("a", Almanac.Interval(1, 4000)), ("s", Almanac.Interval(1, 4000))]

  /** The second half's box is well formed and holds 4000 ratings of each of its four attributes. */
  lemma FullBoxFacts()
    ensures WellFormedBox(FullBox) && Combinations(FullBox) == 4000 * 4000 * 4000 * 4000
  {
    assert Combinations(FullBox[..3][..2][..1]) == 4000;
    assert Combinations(FullBox[..3][..2]) == 4000 * 4000;
    assert Combinations(FullBox[..3]) == 4000 * 4000 * 4000;
    assert FullBox[..3] == [("x", Almanac.Interval(1, 4000)), ("m", Almanac.Interval(1, 4000)), ("a", Almanac.Interval(1, 4000))];
    assert FullBox[..3][..2] == [("x", Almanac.Interval(1, 4000)), ("m", Almanac.Interval(1, 4000))];
    assert FullBox[..3][..2][..1] == [("x", Almanac.Interval(1, 4000))];
    assert FullBox[..3][..2][..1][..0] == [];
  }

  // Reading the input.

  /** A name the line formats can carry: none of `:<>{},=`. */
  predicate Plain(s: string)
  {
    ':' !in s && '<' !in s && '>' !in s && '{' !in s && '}' !in s && ',' !in s && '=' !in s
  }

  /** A rule whose text reads back as itself. */
  predicate Printable(rule: Rule)
  {
    match rule
    case Goto(w) => Plain(w)
    case Test(a, sign, _, t) => (sign == -1 || sign == 1) && Plain(a) && Plain(t)
  }

  /** `parse` applied to each text in turn: the first text that does not parse is the error. */
  function ParseEach<T>(texts: seq<string>, parse: string -> Result<T, string>): (r: Result<seq<T>, string>)
    ensures r.Ok? <==> forall k :: 0 <= k < |texts| ==> parse(texts[k]).Ok?
    ensures r.Ok? ==> |r.value| == |texts| && forall k :: 0 <= k < |texts| ==> r.value[k] == parse(texts[k]).value
    ensures r.Err? ==> exists k :: 0 <= k < |texts| && parse(texts[k]) == Err(r.error)
  {
    if texts == [] then Ok([])
    else match parse(texts[0])
      case Err(e) => Err(e)
      case Ok(x) =>
        match ParseEach(texts[1..], parse)
        case Err(e) =>
          Err(e)
        case Ok(rest) =>
          assert forall k :: 1 <= k < |texts| ==> texts[k] == texts[1..][k - 1];
          Ok([x] + rest)
  }

  /** The rules of a workflow, `map(parse_rule, ...)`. */
  function ParseRules(texts: seq<string>): Result<seq<Rule>, string>
  {
    ParseEach(texts, ParseRule)
  }

  /** A workflow line `name{rule,...,rule}`: the braces must split it in two (the `ValueError` otherwise). */
  function ParseWorkflowLine(line: string): (r: Result<(string, seq<Rule>), string>)
    ensures r.Ok? ==> '{' !in r.value.0 && '}' !in r.value.0
  {
    var halves := Split(RemoveChar(line, '}'), '{');
    if |halves| != 2 then Err(line)
    else match ParseRules(Split(halves[1], ','))
      case Err(e) => Err(e)
      case Ok(rules) => Ok((halves[0], rules))
  }

  function RuleTexts(rules: seq<Rule>): (r: seq<string>)
    ensures |r| == |rules| && forall k :: 0 <= k < |rules| ==> r[k] == RuleText(rules[k])
  {
    seq(|rules|, k requires 0 <= k < |rules| => RuleText(rules[k]))
  }

  function WorkflowText(name: string, rules: seq<Rule>): string
  {
    name + "{" + Join(RuleTexts(rules), ',') + "}"
  }

  /** The text of a rule keeps out the braces and the comma. */
  lemma RuleTextPlain(rule: Rule)
    requires Printable(rule)
    ensures '{' !in RuleText(rule) && '}' !in RuleText(rule) && ',' !in RuleText(rule)
  {
    if rule.Test? {
      NumeralSymbols(rule.rating);
      var op := if rule.sign < 0 then "<" else ">";
      var s := RuleText(rule);
      assert s == rule.attr + op + IntToString(rule.rating) + ":" + rule.target;
    }
  }

  /** Reading a workflow's line gives back its name and rules. */
  lemma ParseWorkflowText(name: string, rules: seq<Rule>)
    requires Plain(name) && rules != [] && forall k :: 0 <= k < |rules| ==> Printable(rules[k])
    ensures ParseWorkflowLine(WorkflowText(name, rules)) == Ok((name, rules))
  {
    var texts := RuleTexts(rules);
    var body := Join(texts, ',');
    assert '{' !in body && '}' !in body by {
      forall k | 0 <= k < |texts| ensures '{' !in texts[k] && '}' !in texts[k] {
        RuleTextPlain(rules[k]);
      }
      JoinAvoids(texts, ',', '{');
      JoinAvoids(texts, ',', '}');
    }
    assert RemoveChar(WorkflowText(name, rules), '}') == name + ['{'] + body by {
      DropClosing(name, body);
    }
    assert Split(name + ['{'] + body, '{') == [name, body] by {
      SplitTwo(name, '{', body);
    }
    assert ParseRules(Split(body, ',')) == Ok(rules) by {
      forall k | 0 <= k < |texts| ensures ',' !in texts[k] {
        RuleTextPlain(rules[k]);
      }
      SplitJoin(texts, ',');
      RuleTextsParse(rules);
    }
  }

  lemma DropClosing(name: string, body: string)
    requires '}' !in name && '}' !in body
    ensures RemoveChar(name + "{" + body + "}", '}') == name + ['{'] + body
  {
    var open := name + ['{'] + body;
    assert name + "{" + body + "}" == open + ['}'];
    RemoveCharLast(open, '}');
    RemoveCharAbsent(open, '}');
  }

  lemma RuleTextsParse(rules: seq<Rule>)
    requires forall k :: 0 <= k < |rules| ==> Printable(rules[k])
    ensures ParseRules(RuleTexts(rules)) == Ok(rules)
  {
    var texts := RuleTexts(rules);
    forall k | 0 <= k < |rules| ensures ParseRule(texts[k]) == Ok(rules[k]) {
      ParseRuleText(rules[k]);
    }
    var r := ParseRules(texts);
    assert r.Ok?;
    assert forall k :: 0 <= k < |rules| ==> r.value[k] == rules[k];
    assert r.value == rules;
  }

  /** The attributes a part's ratings name. */
  function Rated(ratings: seq<(string, int)>): set<string>
  {
    set i | 0 <= i < |ratings| :: ratings[i].0
  }

  /** Each attribute is rated once, as the keys of a dict are. */
  predicate OnceEach(ratings: seq<(string, int)>)
  {
    forall i, j :: 0 <= i < j < |ratings| ==> ratings[i].0 != ratings[j].0
  }

  /** One `k=v` of a part line: `kv.split("=")` must give two pieces and `int(v)` must parse. */
  function ParseRating(kv: string): (r: Result<(string, int), string>)
    ensures r.Ok? ==> '=' !in r.value.0
  {
    var halves := Split(kv, '=');
    if |halves| != 2 then Err(kv)
    else match ParseInt(halves[1])
      case None => Err(kv)
      case Some(v) => Ok((halves[0], v))
  }

  /** `part[k] = v`: a new key goes last; a known key keeps its place and takes the new value. */
  function Put(ratings: seq<(string, int)>, k: string, v: int): (r: seq<(string, int)>)
    requires OnceEach(ratings)
    ensures OnceEach(r) && Rated(r) == Rated(ratings) + {k} && (k, v) in r && |ratings| <= |r|
    ensures forall i :: 0 <= i < |ratings| && ratings[i].0 != k ==> r[i] == ratings[i]
    ensures k !in Rated(ratings) ==> r == ratings + [(k, v)]
  {
    if k in Rated(ratings) then
      var r := seq(|ratings|, i requires 0 <= i < |ratings| => if ratings[i].0 == k then (k, v) else ratings[i]);
      assert Rated(r) == Rated(ratings) by {
        assert forall i :: 0 <= i < |ratings| ==> r[i].0 == ratings[i].0;
      }
      assert (k, v) in r by {
        var i :| 0 <= i < |ratings| && ratings[i].0 == k;
        assert r[i] == (k, v);
      }
      r
    else
      var r := ratings + [(k, v)];
      assert Rated(r) == Rated(ratings) + {k} by {
        assert forall i :: 0 <= i < |ratings| ==> r[i] == ratings[i];
        assert r[|ratings|] == (k, v);
      }
      assert OnceEach(r) by {
        assert forall i :: 0 <= i < |ratings| ==> ratings[i].0 in Rated(ratings);
      }
      r
  }

  /** The ratings of a part line, assigned into the part one after the other. */
  function ParseRatings(texts: seq<string>): (r: Result<seq<(string, int)>, string>)
    ensures r.Ok? ==> OnceEach(r.value)
  {
    if texts == [] then Ok([])
    else match ParseRatings(texts[..|texts| - 1])
      case Err(e) => Err(e)
      case Ok(ratings) =>
        match ParseRating(texts[|texts| - 1])
        case Err(e) => Err(e)
        case Ok(kv) => Ok(Put(ratings, kv.0, kv.1))
  }

  /** A part line `{x=..,m=..,a=..,s=..}`: the braces are dropped and the rest split at the commas. */
  function ParsePart(line: string): Result<seq<(string, int)>, string>
  {
    ParseRatings(Split(RemoveChar(RemoveChar(line, '{'), '}'), ','))
  }

  function RatingTexts(ratings: seq<(string, int)>): (r: seq<string>)
    ensures |r| == |ratings| && forall k :: 0 <= k < |ratings| ==> r[k] == ratings[k].0 + "=" + IntToString(ratings[k].1)
  {
    seq(|ratings|, k requires 0 <= k < |ratings| => ratings[k].0 + "=" + IntToString(ratings[k].1))
  }

  function PartText(ratings: seq<(string, int)>): string
  {
    "{" + Join(RatingTexts(ratings), ',') + "}"
  }

  /** Reading a part's line gives back its ratings, in order. */
  lemma ParsePartText(ratings: seq<(string, int)>)
    requires ratings != [] && OnceEach(ratings) && forall k :: 0 <= k < |ratings| ==> Plain(ratings[k].0)
    ensures ParsePart(PartText(ratings)) == Ok(ratings)
  {
    var texts := RatingTexts(ratings);
    var body := Join(texts, ',');
    forall k | 0 <= k < |texts| ensures '{' !in texts[k] && '}' !in texts[k] && ',' !in texts[k] {
      NumeralSymbols(ratings[k].1);
    }
    assert '{' !in body && '}' !in body by {
      JoinAvoids(texts, ',', '{');
      JoinAvoids(texts, ',', '}');
    }
    assert RemoveChar(RemoveChar(PartText(ratings), '{'), '}') == body by { DropBraces(body); }
    SplitJoin(texts, ',');
    RatingTextsParse(ratings);
  }

  lemma DropBraces(body: string)
    requires '{' !in body && '}' !in body
    ensures RemoveChar(RemoveChar("{" + body + "}", '{'), '}') == body
  {
    assert "{" + body + "}" == ['{'] + (body + ['}']);
    RemoveCharFirst(body + ['}'], '{');
    RemoveCharAbsent(body + ['}'], '{');
    RemoveCharLast(body, '}');
    RemoveCharAbsent(body, '}');
  }

  lemma {:induction false} RatingTextsParse(ratings: seq<(string, int)>)
    requires OnceEach(ratings) && forall k :: 0 <= k < |ratings| ==> Plain(ratings[k].0)
    ensures ParseRatings(RatingTexts(ratings)) == Ok(ratings)
  {
    if ratings != [] {
      var init, last := ratings[..|ratings| - 1], ratings[|ratings| - 1];
      var texts := RatingTexts(ratings);
      assert texts[..|texts| - 1] == RatingTexts(init);
      RatingTextsParse(init);
      RatingTextParse(last.0, last.1);
      FreshLast(ratings);
      ParseRatingsSnoc(texts, init, last);
      InitLast(ratings);
    }
  }

  /** The last attribute of a line that rates each attribute once is not among the earlier ones. */
  lemma FreshLast(ratings: seq<(string, int)>)
    requires OnceEach(ratings) && ratings != []
    ensures OnceEach(ratings[..|ratings| - 1])
    ensures ratings[|ratings| - 1].0 !in Rated(ratings[..|ratings| - 1])
  {
    var init := ratings[..|ratings| - 1];
    assert forall i :: 0 <= i < |init| ==> init[i].0 == ratings[i].0 != ratings[|ratings| - 1].0;
  }

  lemma ParseRatingsSnoc(texts: seq<string>, init: seq<(string, int)>, last: (string, int))
    requires texts != [] && ParseRatings(texts[..|texts| - 1]) == Ok(init)
    requires ParseRating(texts[|texts| - 1]) == Ok(last) && last.0 !in Rated(init)
    ensures ParseRatings(texts) == Ok(init + [last])
  {
  }

  lemma RatingTextParse(k: string, v: int)
    requires Plain(k)
    ensures ParseRating(k + "=" + IntToString(v)) == Ok((k, v))
  {
    NumeralSymbols(v);
    SplitTwo(k, '=', IntToString(v));
    ParseIntToString(v);
  }

  // The whole input.

  datatype InputError = NoSeparator | Malformed(text: string)

  /** `lines.index("")`. */
  function FirstBlank(lines: seq<string>): (r: Option<nat>)
    ensures r.None? <==> "" !in lines
    ensures r.Some? ==> r.value < |lines| && lines[r.value] == "" && "" !in lines[..r.value]
  {
    if lines == [] then None
    else if lines[0] == "" then Some(0)
    else match FirstBlank(lines[1..])
      case None => None
      case Some(i) => assert lines[1..][..i] == lines[1..i + 1]; Some(i + 1)
  }

  /** The last definition naming a workflow is the one that counts. */
  ghost predicate DefinedAt(defs: seq<(string, seq<Rule>)>, i: nat, name: string, rules: seq<Rule>)
  {
    i < |defs| && defs[i] == (name, rules) && forall j :: i < j < |defs| ==> defs[j].0 != name
  }

  /** `workflows[name] = rules` definition by definition: a later one overrides an earlier one. */
  function Collect(defs: seq<(string, seq<Rule>)>): (r: map<string, seq<Rule>>)
    ensures forall i :: 0 <= i < |defs| ==> defs[i].0 in r
    ensures forall n :: n in r ==> exists i :: DefinedAt(defs, i, n, r[n])
  {
    if defs == [] then map[]
    else
      var m := Collect(defs[..|defs| - 1]);
      var last := defs[|defs| - 1];
      var r := m[last.0 := last.1];
      assert forall i :: 0 <= i < |defs| - 1 ==> defs[i] == defs[..|defs| - 1][i];
      assert forall n :: n in r ==> exists i :: DefinedAt(defs, i, n, r[n]) by {
        DefinedLast(defs, defs[..|defs| - 1], m, r);
      }
      r
  }

  lemma DefinedLast(defs: seq<(string, seq<Rule>)>, init: seq<(string, seq<Rule>)>, m: map<string, seq<Rule>>,
                     r: map<string, seq<Rule>>)
    requires defs != [] && init == defs[..|defs| - 1] && r == m[defs[|defs| - 1].0 := defs[|defs| - 1].1]
    requires forall n :: n in m ==> exists i :: DefinedAt(init, i, n, m[n])
    ensures forall n :: n in r ==> exists i :: DefinedAt(defs, i, n, r[n])
  {
    var last := defs[|defs| - 1];
    forall n | n in r ensures exists i :: DefinedAt(defs, i, n, r[n]) {
      if n == last.0 {
        assert DefinedAt(defs, |defs| - 1, n, r[n]);
      } else {
        var i :| DefinedAt(init, i, n, m[n]);
        assert DefinedAt(defs, i, n, r[n]);
      }
    }
  }

  /** The workflow lines: each must parse, and the map keeps the last definition of each name. */
  function ParseWorkflows(lines: seq<string>): Result<map<string, seq<Rule>>, string>
  {
    match ParseEach(lines, ParseWorkflowLine)
    case Err(e) => Err(e)
    case Ok(defs) => Ok(Collect(defs))
  }

  /** Every line stripped. */
  function StripAll(lines: seq<string>): (r: seq<string>)
    ensures |r| == |lines| && forall i :: 0 <= i < |lines| ==> r[i] == Strip(lines[i])
  {
    seq(|lines|, i requires 0 <= i < |lines| => Strip(lines[i]))
  }

  /**
   * `parse_input`: the stripped lines before the first blank one are workflows, the ones after
   * it parts; without a blank line `lines.index` raises.
   */
  function ParseInput(lines: seq<string>): (r: Result<(map<string, seq<Rule>>, seq<seq<(string, int)>>), InputError>)
    ensures r == Err(NoSeparator) <==> forall i :: 0 <= i < |lines| ==> Strip(lines[i]) != ""
    ensures r.Ok? ==> exists sep: nat :: SplitAt(lines, sep, r.value.0, r.value.1)
  {
    var stripped := StripAll(lines);
    match FirstBlank(stripped)
    case None =>
      assert forall i :: 0 <= i < |lines| ==> Strip(lines[i]) != "" by {
        StripNoneBlank(lines);
      }
      Err(NoSeparator)
    case Some(sep) =>
      assert stripped[..sep] == StripAll(lines[..sep]) && stripped[sep + 1..] == StripAll(lines[sep + 1..]) &&
             forall i :: 0 <= i < sep ==> Strip(lines[i]) != "" by {
        StripSlices(lines, sep);
      }
      match ParseWorkflows(stripped[..sep])
      case Err(e) => Err(Malformed(e))
      case Ok(workflows) =>
        match ParseEach(stripped[sep + 1..], ParsePart)
        case Err(e) => Err(Malformed(e))
        case Ok(parts) =>
          assert SplitAt(lines, sep, workflows, parts);
          Ok((workflows, parts))
  }

  /**
   * The first blank stripped line is at `sep`; the workflows come from the stripped lines before
   * it and the parts from the ones after it.
   */
  ghost predicate SplitAt(lines: seq<string>, sep: nat, workflows: map<string, seq<Rule>>, parts: seq<seq<(string, int)>>)
  {
    && sep < |lines| && Strip(lines[sep]) == ""
    && (forall i :: 0 <= i < sep ==> Strip(lines[i]) != "")
    && ParseWorkflows(StripAll(lines[..sep])) == Ok(workflows)
    && ParseEach(StripAll(lines[sep + 1..]), ParsePart) == Ok(parts)
  }

  lemma StripNoneBlank(lines: seq<string>)
    requires "" !in StripAll(lines)
    ensures forall i :: 0 <= i < |lines| ==> Strip(lines[i]) != ""
  {
    var stripped := StripAll(lines);
    assert forall i :: 0 <= i < |lines| ==> stripped[i] in stripped;
  }

  lemma StripSlices(lines: seq<string>, sep: nat)
    requires sep < |lines| && "" !in StripAll(lines)[..sep]
    ensures StripAll(lines)[..sep] == StripAll(lines[..sep]) && StripAll(lines)[sep + 1..] == StripAll(lines[sep + 1..])
    ensures forall i :: 0 <= i < sep ==> Strip(lines[i]) != ""
  {
    var stripped := StripAll(lines);
    assert forall i :: 0 <= i < sep ==> stripped[..sep][i] in stripped[..sep];
  }
}
