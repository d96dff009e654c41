/**
 * Lavaduct lagoon (day18): a dig plan of straight trenches, decoded either from its letters and
 * decimal lengths or from the hexadecimal colour codes; the lagoon's size is the shoelace area
 * of the trench polygon adjusted by Pick's theorem.
 */
module Lagoon {
  import opened Wrappers
  import Text

  type Vec = (int, int)

  // Vectors.

  /** `dir_vectors`: the unit step of each direction letter; none for any other letter. */
  function DirVector(d: char): (r: Option<Vec>)
    ensures r.Some? <==> IsDir(d)
    ensures r.Some? ==> Manhattan(r.value) == 1
  {
    if d == 'R' then Some((1, 0))
    else if d == 'D' then Some((0, 1))
    else if d == 'L' then Some((-1, 0))
    else if d == 'U' then Some((0, -1))
    else None
  }

  /** `ordered_dir_vectors`: the direction letters in the order of the colour code's last digit. */
  const Ordered: string := "RDLU"

  /** The keys of `dir_vectors`. */
  predicate IsDir(d: char) { d == 'R' || d == 'D' || d == 'L' || d == 'U' }

  lemma OrderedDirs()
    ensures |Ordered| == 4 && forall d :: IsDir(d) <==> d in Ordered
  {
  }

  function Abs(n: int): nat { if n < 0 then -n else n }

  function Manhattan(v: Vec): nat { Abs(v.0) + Abs(v.1) }

  function AddVector(a: Vec, b: Vec): Vec { (a.0 + b.0, a.1 + b.1) }

  function MultiplyVector(a: Vec, b: Vec): Vec { (a.0 * b.0, a.1 * b.1) }

  /** Adding vectors does not depend on grouping or order. */
  lemma AddVectorLaws(a: Vec, b: Vec, c: Vec)
    ensures AddVector(AddVector(a, b), c) == AddVector(a, AddVector(b, c))
    ensures AddVector(a, b) == AddVector(b, a)
  {
  }

  /** The trench of one command: `t` blocks in the letter's direction. */
  function Trench(d: char, t: int): (r: Vec)
    requires IsDir(d)
  {
    if d == 'R' then (t, 0) else if d == 'D' then (0, t) else if d == 'L' then (-t, 0) else (0, -t)
  }

  /** `multiply_vector(dir_vectors[d], (t, t))` is the trench, at Manhattan distance |t|. */
  lemma TrenchScaled(d: char, t: int)
    requires IsDir(d)
    ensures MultiplyVector(DirVector(d).value, (t, t)) == Trench(d, t)
    ensures Manhattan(Trench(d, t)) == Abs(t)
  {
  }

  // Decoding a plan line.

  /** Any character the regular expression's `.` accepts. */
  predicate AnyChar(c: char) { c != '\n' }

  /** The length of the run of decimal digits at the start of `s`. */
  function DigitRun(s: string): (r: nat)
    ensures r <= |s| && (r < |s| ==> !Text.IsDigit(s[r]))
    ensures forall i :: 0 <= i < r ==> Text.IsDigit(s[i])
  {
    if s != [] && Text.IsDigit(s[0]) then 1 + DigitRun(s[1..]) else 0
  }

  /** The groups of the `([A-Z]) ([0-9]+) \(#(.....)(.)\)` pattern are well formed. */
  predicate Groups(letter: char, digits: string, five: string, d: char)
  {
    'A' <= letter <= 'Z' && digits != [] && Text.AllDigits(digits) &&
    |five| == 5 && (forall i :: 0 <= i < 5 ==> AnyChar(five[i])) && AnyChar(d)
  }

  /** The text the pattern matches for the given groups. */
  function Matched(letter: char, digits: string, five: string, d: char): string
  {
    [letter] + " " + digits + " (#" + five + [d] + ")"
  }

  /**
   * `re.match` of the plan pattern: the groups of the match at the start of the line, whatever
   * follows it. The digit group takes the whole run of digits, since only a blank may follow it.
   */
  function MatchLine(line: string): (r: Option<(char, string, string, char)>)
    ensures r.Some? ==> var (letter, digits, five, d) := r.value;
                        && Groups(letter, digits, five, d)
                        && Matched(letter, digits, five, d) <= line
  {
    if |line| < 2 || !('A' <= line[0] <= 'Z') || line[1] != ' ' then None
    else
      var k := DigitRun(line[2..]);
      var rest := line[2 + k..];
      if k == 0 || |rest| < 10 || rest[..3] != " (#" || rest[9] != ')' then None
      else if !(forall i :: 3 <= i < 9 ==> AnyChar(rest[i])) then None
      else
        var r := (line[0], line[2..2 + k], rest[3..8], rest[8]);
        assert Matched(r.0, r.1, r.2, r.3) == line[..12 + k];
        Some(r)
  }

  /** Whatever follows a match, the match is found with exactly its groups. */
  lemma MatchComplete(letter: char, digits: string, five: string, d: char, rest: string)
    requires Groups(letter, digits, five, d)
    ensures MatchLine(Matched(letter, digits, five, d) + rest) == Some((letter, digits, five, d))
  {
    var tail := " (#" + five + [d] + ")" + rest;
    LineParts(letter, digits, five, d, rest, tail);
    TailParts(five, d, rest, tail);
    RunOfDigits(digits, tail);
  }

  lemma LineParts(letter: char, digits: string, five: string, d: char, rest: string, tail: string)
    requires tail == " (#" + five + [d] + ")" + rest
    ensures var line := Matched(letter, digits, five, d) + rest;
            && |line| >= 2 + |digits| && line[0] == letter && line[1] == ' '
            && line[2..] == digits + tail && line[2 + |digits|..] == tail && line[2..2 + |digits|] == digits
  {
    var line := Matched(letter, digits, five, d) + rest;
    assert line == [letter, ' '] + digits + tail;
  }

  lemma TailParts(five: string, d: char, rest: string, tail: string)
    requires tail == " (#" + five + [d] + ")" + rest && |five| == 5
    requires (forall i :: 0 <= i < 5 ==> AnyChar(five[i])) && AnyChar(d)
    ensures |tail| >= 10 && tail[..3] == " (#" && tail[3..8] == five && tail[8] == d && tail[9] == ')'
    ensures forall i :: 3 <= i < 9 ==> AnyChar(tail[i])
  {
    assert forall i :: 3 <= i < 8 ==> tail[i] == five[i - 3];
  }

  lemma RunOfDigits(digits: string, tail: string)
    requires Text.AllDigits(digits) && tail != [] && !Text.IsDigit(tail[0])
    ensures DigitRun(digits + tail) == |digits|
    decreases |digits|
  {
    if digits != [] {
      assert (digits + tail)[1..] == digits[1..] + tail;
      RunOfDigits(digits[1..], tail);
    } else {
      assert digits + tail == tail;
    }
  }

  /** One plan line: the letter and length, and the direction and length of the colour code. */
  datatype Command = Command(dir: char, meters: nat, colorDir: char, colorMeters: int)

  /**
   * What decoding raises: no match of the pattern; `int` refusing the direction digit or the
   * five colour digits (`ValueError`); a direction digit past the four letters (`IndexError`).
   */
  datatype ParseError = NoMatch | BadNumber | BadIndex

  /** One line of `parse_input`; the direction digit is read before the colour length. */
  function ParseLine(line: string): (r: Result<Command, ParseError>)
    ensures r == Err(NoMatch) <==> MatchLine(line).None?
    ensures r.Ok? ==> 'A' <= r.value.dir <= 'Z' && IsDir(r.value.colorDir)
    ensures r.Ok? ==> -(Pow16(4) as int) < r.value.colorMeters < Pow16(5)
  {
    match MatchLine(line)
    case None => Err(NoMatch)
    case Some((letter, digits, five, d)) =>
      if !Text.IsDigit(d) then Err(BadNumber)
      else if Text.DigitValue(d) >= 4 then Err(BadIndex)
      else match Text.ParseHex(five)
        case None => Err(BadNumber)
        case Some(n) =>
          ColourRange(five);
          Ok(Command(letter, Text.NatOf(digits), Ordered[Text.DigitValue(d)], n))
  }

  /**
   * The colour code: its last digit 0, 1, 2, 3 gives R, D, L, U, and its first five characters,
   * read by `int(..., 16)`, give the length; a larger digit or characters that do not read as a
   * number raise.
   */
  lemma ColorCode(letter: char, digits: string, five: string, d: char, rest: string)
    requires Groups(letter, digits, five, d)
    ensures var r := ParseLine(Matched(letter, digits, five, d) + rest);
            && (Text.IsDigit(d) && Text.DigitValue(d) < 4 && Text.ParseHex(five).Some? ==>
                  r == Ok(Command(letter, Text.NatOf(digits), "RDLU"[Text.DigitValue(d)], Text.ParseHex(five).value)))
            && (!Text.IsDigit(d) ==> r == Err(BadNumber))
            && (Text.IsDigit(d) && Text.DigitValue(d) >= 4 ==> r == Err(BadIndex))
            && (Text.IsDigit(d) && Text.DigitValue(d) < 4 && Text.ParseHex(five).None? ==> r == Err(BadNumber))
  {
    MatchComplete(letter, digits, five, d, rest);
  }

  function Pow16(k: nat): (r: nat)
    ensures r >= 1
  {
    if k == 0 then 1 else 16 * Pow16(k - 1)
  }

  /** k hexadecimal digits hold a value below 16^k. */
  lemma {:induction false} HexBound(s: string)
    requires Text.AllHex(s)
    ensures Text.HexOf(s) < Pow16(|s|)
  {
    if s != [] {
      HexBound(s[..|s| - 1]);
      var h := Text.HexOf(s[..|s| - 1]);
      assert h + 1 <= Pow16(|s| - 1);
      assert Text.HexOf(s) < (h + 1) * 16;
    }
  }

  /** Five characters read as a hexadecimal number lie strictly between -16^4 and 16^5. */
  lemma ColourRange(five: string)
    requires |five| == 5 && Text.ParseHex(five).Some?
    ensures -(Pow16(4) as int) < Text.ParseHex(five).value < Pow16(5)
  {
    if Text.IsHexDigit(five[0]) {
      HexBound(five);
    } else {
      HexBound(five[1..]);
    }
  }

  /** The k lower-case hexadecimal digits of n, with leading zeros. */
  function HexText(n: nat, k: nat): (s: string)
    ensures |s| == k && Text.AllHex(s)
  {
    if k == 0 then [] else HexText(n / 16, k - 1) + [Text.HexChar(n % 16)]
  }

  lemma {:induction false} HexTextValue(n: nat, k: nat)
    requires n < Pow16(k)
    ensures Text.HexOf(HexText(n, k)) == n
  {
    if k > 0 {
      var s := HexText(n, k);
      assert s[..|s| - 1] == HexText(n / 16, k - 1);
      assert n / 16 < Pow16(k - 1);
      HexTextValue(n / 16, k - 1);
    }
  }

  /** A plan line as the puzzle input writes it; a negative length is a minus sign and four digits. */
  function FormatLine(c: Command): string
    requires IsDir(c.colorDir)
  {
    Matched(c.dir, Text.NatToString(c.meters), ColourText(c.colorMeters), Text.DigitChar(DirIndex(c.colorDir)))
  }

  function ColourText(n: int): (s: string)
    ensures |s| == 5 && forall i :: 0 <= i < 5 ==> AnyChar(s[i])
  {
    if n < 0 then "-" + HexText(-n, 4) else HexText(n, 5)
  }

  function DirIndex(d: char): (k: nat)
    requires IsDir(d)
    ensures k < 4 && Ordered[k] == d
  {
    if d == 'R' then 0 else if d == 'D' then 1 else if d == 'L' then 2 else 3
  }

  /** Decoding a written line gives back its command. */
  lemma ParseFormat(c: Command)
    requires 'A' <= c.dir <= 'Z' && IsDir(c.colorDir) && -(Pow16(4) as int) < c.colorMeters < Pow16(5)
    ensures ParseLine(FormatLine(c)) == Ok(c)
  {
    var digits := Text.NatToString(c.meters);
    var five := ColourText(c.colorMeters);
    var d := Text.DigitChar(DirIndex(c.colorDir));
    assert FormatLine(c) + [] == FormatLine(c);
    MatchComplete(c.dir, digits, five, d, []);
    Text.NatToStringValue(c.meters);
    if c.colorMeters < 0 {
      HexTextValue(-c.colorMeters, 4);
      assert five[1..] == HexText(-c.colorMeters, 4);
    } else {
      HexTextValue(c.colorMeters, 5);
    }
  }

  /** The results of decoding each line, in order. */
  function Decoded(lines: seq<string>): (r: seq<Result<Command, ParseError>>)
    ensures |r| == |lines| && forall i :: 0 <= i < |lines| ==> r[i] == ParseLine(lines[i])
  {
    if lines == [] then [] else Decoded(lines[..|lines| - 1]) + [ParseLine(lines[|lines| - 1])]
  }

  /** The values of a sequence of results, up to its first error. */
  function Collect<T, E>(rs: seq<Result<T, E>>): (r: Result<seq<T>, E>)
    ensures r.Ok? ==> |r.value| == |rs|
  {
    if rs == [] then Ok([])
    else
      var before := Collect(rs[..|rs| - 1]);
      if before.Err? then before
      else if rs[|rs| - 1].Err? then Err(rs[|rs| - 1].error)
      else Ok(before.value + [rs[|rs| - 1].value])
  }

  /** The stripped non-empty lines decoded in order, up to the first that raises. */
  function Commands(lines: seq<string>): (r: Result<seq<Command>, ParseError>)
  {
    Collect(Decoded(lines))
  }

  /** Collecting succeeds exactly when every result is a value, and then gives those values. */
  lemma {:induction false} CollectEach<T, E>(rs: seq<Result<T, E>>)
    ensures Collect(rs).Ok? <==> forall i :: 0 <= i < |rs| ==> rs[i].Ok?
    ensures Collect(rs).Ok? ==> forall i :: 0 <= i < |rs| ==> Collect(rs).value[i] == rs[i].value
  {
    if rs != [] {
      var init := rs[..|rs| - 1];
      CollectEach(init);
      assert forall i :: 0 <= i < |init| ==> init[i] == rs[i];
    }
  }

  /** Decoding succeeds exactly when every line decodes, and then each command is its line's. */
  lemma CommandsEach(lines: seq<string>)
    ensures Commands(lines).Ok? <==> forall i :: 0 <= i < |lines| ==> ParseLine(lines[i]).Ok?
    ensures Commands(lines).Ok? ==> forall i :: 0 <= i < |lines| ==> Commands(lines).value[i] == ParseLine(lines[i]).value
  {
    CollectEach(Decoded(lines));
  }

  /** An error in a prefix is the error of the whole sequence. */
  lemma {:induction false} CollectErr<T, E>(rs: seq<Result<T, E>>, n: nat)
    requires n <= |rs| && Collect(rs[..n]).Err?
    ensures Collect(rs) == Collect(rs[..n])
    decreases |rs| - n
  {
    if n < |rs| {
      assert rs[..n + 1][..n] == rs[..n];
      CollectErr(rs, n + 1);
    } else {
      assert rs[..n] == rs;
    }
  }

  lemma CollectSnoc<T, E>(rs: seq<Result<T, E>>, n: nat)
    requires n < |rs| && Collect(rs[..n]).Ok?
    ensures Collect(rs[..n + 1]) ==
              if rs[n].Err? then Err(rs[n].error) else Ok(Collect(rs[..n]).value + [rs[n].value])
  {
    assert rs[..n + 1][..n] == rs[..n];
  }

  /** `parse_input`: strip every line, skip empty ones and decode the rest in order. */
  method ParseInput(input: seq<string>) returns (r: Result<seq<Command>, ParseError>)
    ensures r == Commands(Text.Lines(input))
  {
    var lines := Text.Lines(input);
    ghost var rs := Decoded(lines);
    var result: seq<Command> := [];
    for i := 0 to |lines|
      invariant Collect(rs[..i]).Ok? && Collect(rs[..i]).value == result
    {
      CollectSnoc(rs, i);
      var c := ParseLine(lines[i]);
      if c.Err? {
        CollectErr(rs, i + 1);
        return Err(c.error);
      }
      result := result + [c.value];
    }
    assert rs[..|lines|] == rs;
    return Ok(result);
  }

  // Digging.

  /** `dig` raises `KeyError` on a direction letter other than R, D, L, U. */
  datatype DigError = UnknownDirection(d: char)

  /**
   * The vertex list of `dig`: the start, then the position after each command; the first
   * command with an unknown letter raises.
   */
  function Trail(plan: seq<(char, int)>, start: Vec): (r: Result<seq<Vec>, DigError>)
    ensures r.Ok? ==> |r.value| == |plan| + 1 && r.value[0] == start
  {
    if plan == [] then Ok([start])
    else
      var before := Trail(plan[..|plan| - 1], start);
      var (d, t) := plan[|plan| - 1];
      if before.Err? then before
      else if !IsDir(d) then Err(UnknownDirection(d))
      else Ok(before.value + [AddVector(before.value[|plan| - 1], Trench(d, t))])
  }

  /** Each vertex is the one before moved t blocks in the command's direction; an error names an unknown letter. */
  lemma {:induction false} TrailSteps(plan: seq<(char, int)>, start: Vec)
    ensures Trail(plan, start).Ok? <==> forall i :: 0 <= i < |plan| ==> IsDir(plan[i].0)
    ensures Trail(plan, start).Ok? ==> forall i :: 0 <= i < |plan| ==>
              Trail(plan, start).value[i + 1] == AddVector(Trail(plan, start).value[i], Trench(plan[i].0, plan[i].1))
    ensures Trail(plan, start).Err? ==> !IsDir(Trail(plan, start).error.d)
  {
    if plan != [] {
      var init := plan[..|plan| - 1];
      TrailSteps(init, start);
      assert forall i :: 0 <= i < |init| ==> init[i] == plan[i];
    }
  }

  lemma {:induction false} TrailErr(plan: seq<(char, int)>, start: Vec, n: nat)
    requires n <= |plan| && Trail(plan[..n], start).Err?
    ensures Trail(plan, start) == Trail(plan[..n], start)
    decreases |plan| - n
  {
    if n < |plan| {
      assert plan[..n + 1][..n] == plan[..n];
      TrailErr(plan, start, n + 1);
    } else {
      assert plan[..n] == plan;
    }
  }

  function Translate(p: seq<Vec>, v: Vec): (r: seq<Vec>)
    ensures |r| == |p| && forall i :: 0 <= i < |p| ==> r[i] == AddVector(p[i], v)
  {
    if p == [] then [] else Translate(p[..|p| - 1], v) + [AddVector(p[|p| - 1], v)]
  }

  /** Digging from a moved start moves every vertex by the same amount. */
  lemma {:induction false} TrailTranslate(plan: seq<(char, int)>, start: Vec, v: Vec)
    ensures Trail(plan, AddVector(start, v)).Ok? <==> Trail(plan, start).Ok?
    ensures Trail(plan, start).Ok? ==> Trail(plan, AddVector(start, v)).value == Translate(Trail(plan, start).value, v)
    ensures Trail(plan, start).Err? ==> Trail(plan, AddVector(start, v)) == Trail(plan, start)
  {
    if plan != [] {
      var init := plan[..|plan| - 1];
      TrailTranslate(init, start, v);
      if Trail(init, start).Ok? {
        TranslateStep(init, plan[|plan| - 1], start, v);
        assert init + [plan[|plan| - 1]] == plan;
      }
    }
  }

  lemma TranslateStep(plan: seq<(char, int)>, c: (char, int), start: Vec, v: Vec)
    requires Trail(plan, start).Ok?
    requires Trail(plan, AddVector(start, v)).Ok?
    requires Trail(plan, AddVector(start, v)).value == Translate(Trail(plan, start).value, v)
    ensures Trail(plan + [c], AddVector(start, v)).Ok? <==> Trail(plan + [c], start).Ok?
    ensures Trail(plan + [c], start).Ok? ==>
              Trail(plan + [c], AddVector(start, v)).value == Translate(Trail(plan + [c], start).value, v)
    ensures Trail(plan + [c], start).Err? ==> Trail(plan + [c], AddVector(start, v)) == Trail(plan + [c], start)
  {
    var p := Trail(plan, start).value;
    var q := Trail(plan, AddVector(start, v)).value;
    if IsDir(c.0) {
      var t := Trench(c.0, c.1);
      var x := AddVector(p[|plan|], t);
      TrailStep(plan, c, start, p);
      TrailStep(plan, c, AddVector(start, v), q);
      assert q[|plan|] == AddVector(p[|plan|], v);
      AddVectorLaws(p[|plan|], v, t);
      AddVectorLaws(p[|plan|], t, v);
      AddVectorLaws(v, t, p[|plan|]);
      TranslateSnoc(p, x, v);
    } else {
      assert (plan + [c])[..|plan|] == plan;
    }
  }

  lemma TranslateSnoc(p: seq<Vec>, x: Vec, v: Vec)
    ensures Translate(p + [x], v) == Translate(p, v) + [AddVector(x, v)]
  {
    assert (p + [x])[..|p|] == p;
  }

  // The shoelace sum.

  function Cross(a: Vec, b: Vec): int { a.0 * b.1 - b.0 * a.1 }

  /** `sum(x0 * y1 - x1 * y0 for … in zip(a, b))` for lists of equal length. */
  function CrossPairs(a: seq<Vec>, b: seq<Vec>): int
    requires |a| == |b|
  {
    if a == [] then 0 else CrossPairs(a[..|a| - 1], b[..|b| - 1]) + Cross(a[|a| - 1], b[|b| - 1])
  }

  /** The cross sum of `area`: each vertex with the next, the last with the first. */
  function CrossSum(p: seq<Vec>): int
    requires p != []
  {
    CrossPairs(p, p[1..] + [p[0]])
  }

  /** Vertex k, or the first vertex once k is past the last: the successor in the polygon of vertex k - 1. */
  function Wrap(p: seq<Vec>, k: nat): Vec
    requires 0 < |p| && k <= |p|
  {
    if k < |p| then p[k] else p[0]
  }

  /** The cross terms of the first k vertices with their successors around the polygon. */
  function Around(p: seq<Vec>, k: nat): int
    requires 0 < |p| && k <= |p|
  {
    if k == 0 then 0 else Around(p, k - 1) + Cross(p[k - 1], Wrap(p, k))
  }

  /** The zip in `area` pairs vertex i with vertex i + 1, wrapping to the first. */
  lemma CrossSumAround(p: seq<Vec>)
    requires p != []
    ensures CrossSum(p) == Around(p, |p|)
  {
    var next := p[1..] + [p[0]];
    assert forall k :: 0 <= k < |p| ==> next[k] == Wrap(p, k + 1);
    PairsAround(p, next, |p|);
    assert p[..|p|] == p && next[..|p|] == next;
  }

  lemma {:induction false} PairsAround(p: seq<Vec>, next: seq<Vec>, k: nat)
    requires 0 < |p| == |next| && k <= |p|
    requires forall i :: 0 <= i < |p| ==> next[i] == Wrap(p, i + 1)
    ensures CrossPairs(p[..k], next[..k]) == Around(p, k)
  {
    if k > 0 {
      assert p[..k][..k - 1] == p[..k - 1] && next[..k][..k - 1] == next[..k - 1];
      PairsAround(p, next, k - 1);
    }
  }

  /** Moving both ends of a cross term by v adds terms linear in v. */
  lemma CrossShift(a: Vec, b: Vec, v: Vec)
    ensures Cross(AddVector(a, v), AddVector(b, v)) == Cross(a, b) + v.1 * (a.0 - b.0) + v.0 * (b.1 - a.1)
  {
    assert (a.0 + v.0) * (b.1 + v.1) == a.0 * b.1 + a.0 * v.1 + v.0 * b.1 + v.0 * v.1;
    assert (b.0 + v.0) * (a.1 + v.1) == b.0 * a.1 + b.0 * v.1 + v.0 * a.1 + v.0 * v.1;
    assert v.1 * (a.0 - b.0) == a.0 * v.1 - b.0 * v.1;
    assert v.0 * (b.1 - a.1) == v.0 * b.1 - v.0 * a.1;
  }

  /** The first k terms of a moved polygon: the linear terms telescope to the first vertex and vertex k. */
  lemma {:induction false} AroundShift(p: seq<Vec>, v: Vec, k: nat)
    requires 0 < |p| && k <= |p|
    ensures Around(Translate(p, v), k) ==
            Around(p, k) + v.1 * (p[0].0 - Wrap(p, k).0) + v.0 * (Wrap(p, k).1 - p[0].1)
  {
    if k > 0 {
      var q := Translate(p, v);
      var a, b, c := p[0], p[k - 1], Wrap(p, k);
      AroundShift(p, v, k - 1);
      assert Wrap(p, k - 1) == b;
      assert q[k - 1] == AddVector(b, v) && Wrap(q, k) == AddVector(c, v);
      CrossShift(b, c, v);
      ShiftSum(a, b, c, v);
    }
  }

  lemma ShiftSum(a: Vec, b: Vec, c: Vec, v: Vec)
    ensures v.1 * (a.0 - b.0) + v.1 * (b.0 - c.0) == v.1 * (a.0 - c.0)
    ensures v.0 * (b.1 - a.1) + v.0 * (c.1 - b.1) == v.0 * (c.1 - a.1)
  {
    assert v.1 * (a.0 - b.0) + v.1 * (b.0 - c.0) == v.1 * ((a.0 - b.0) + (b.0 - c.0));
    assert v.0 * (b.1 - a.1) + v.0 * (c.1 - b.1) == v.0 * ((b.1 - a.1) + (c.1 - b.1));
  }

  /** The shoelace sum does not depend on where the polygon lies. */
  lemma CrossSumTranslate(p: seq<Vec>, v: Vec)
    requires p != []
    ensures CrossSum(Translate(p, v)) == CrossSum(p)
  {
    var q := Translate(p, v);
    CrossSumAround(p);
    CrossSumAround(q);
    AroundShift(p, v, |p|);
    NoShift(p[0], v, Around(q, |p|), Around(p, |p|));
  }

  /** Once the walk is back at its first vertex the linear terms cancel. */
  lemma NoShift(a: Vec, v: Vec, moved: int, fixed: int)
    requires moved == fixed + v.1 * (a.0 - a.0) + v.0 * (a.1 - a.1)
    ensures moved == fixed
  {
  }

  // The lagoon size.

  /** `sum(cmd[1] for cmd in plan)`: the plan's total trench length. */
  function Meters(plan: seq<(char, int)>): int
  {
    if plan == [] then 0 else Meters(plan[..|plan| - 1]) + plan[|plan| - 1].1
  }

  /** `int(x / 2)`: halving rounded toward zero, as `int` truncates the float. */
  function Half(n: int): (r: int)
    ensures n >= 0 ==> 2 * r <= n <= 2 * r + 1
    ensures n < 0 ==> 2 * r - 1 <= n <= 2 * r
  {
    if n >= 0 then n / 2 else -((-n) / 2)
  }

  /**
   * The size `dig` returns: half the absolute shoelace sum plus half the trench length plus one,
   * as one exact halving of `|cross sum| + length + 2`.
   */
  function Size(plan: seq<(char, int)>, start: Vec): Result<int, DigError>
  {
    match Trail(plan, start)
    case Err(e) => Err(e)
    case Ok(points) => Ok(Half(Abs(CrossSum(points)) + Meters(plan) + 2))
  }

  /** `dig`: walk the plan collecting the vertices, then apply the shoelace sum and Pick's theorem. */
  method Dig(plan: seq<(char, int)>, start: Vec) returns (r: Result<int, DigError>)
    ensures r == Size(plan, start)
  {
    var points := [start];
    var pos := start;
    for i := 0 to |plan|
      invariant Trail(plan[..i], start) == Ok(points)
      invariant pos == points[i]
    {
      assert plan[..i + 1][..i] == plan[..i];
      var (d, t) := plan[i];
      var v := DirVector(d);
      if v.None? {
        TrailErr(plan, start, i + 1);
        return Err(UnknownDirection(d));
      }
      TrenchScaled(d, t);
      pos := AddVector(pos, MultiplyVector(v.value, (t, t)));
      points := points + [pos];
    }
    assert plan[..|plan|] == plan;
    var area := Abs(CrossSum(points));
    var total := Meters(plan);
    r := Ok(Half(area + total + 2));
  }

  /** The lagoon's size does not depend on where digging starts. */
  lemma SizeAnywhere(plan: seq<(char, int)>, start: Vec, other: Vec)
    ensures Size(plan, start) == Size(plan, other)
  {
    var v := (other.0 - start.0, other.1 - start.1);
    assert AddVector(start, v) == other;
    if Trail(plan, start).Ok? {
      SizeMoved(plan, start, v);
    } else {
      TrailTranslate(plan, start, v);
    }
  }

  lemma SizeMoved(plan: seq<(char, int)>, start: Vec, v: Vec)
    requires Trail(plan, start).Ok?
    ensures Size(plan, start) == Size(plan, AddVector(start, v))
  {
    var points := Trail(plan, start).value;
    TrailMoved(plan, start, v, points);
    CrossSumTranslate(points, v);
    SameSize(plan, start, AddVector(start, v), points, Translate(points, v));
  }

  lemma TrailMoved(plan: seq<(char, int)>, start: Vec, v: Vec, points: seq<Vec>)
    requires Trail(plan, start) == Ok(points)
    ensures Trail(plan, AddVector(start, v)) == Ok(Translate(points, v))
  {
    TrailTranslate(plan, start, v);
  }

  lemma SameSize(plan: seq<(char, int)>, s1: Vec, s2: Vec, p1: seq<Vec>, p2: seq<Vec>)
    requires Trail(plan, s1) == Ok(p1) && Trail(plan, s2) == Ok(p2)
    requires p1 != [] && p2 != [] && CrossSum(p1) == CrossSum(p2)
    ensures Size(plan, s1) == Size(plan, s2)
  {
  }

  lemma SizeOfTrail(plan: seq<(char, int)>, start: Vec, points: seq<Vec>, m: int)
    requires Trail(plan, start) == Ok(points) && m == Meters(plan)
    ensures Size(plan, start).Ok? && Size(plan, start).value == Half(Abs(CrossSum(points)) + m + 2)
  {
  }

  /** A w by h rectangle dug round its edge holds (w + 1) * (h + 1) cubic metres. */
  lemma SizeRectangle(w: nat, h: nat, start: Vec)
    ensures Size([('R', w), ('D', h), ('L', w), ('U', h)], start) == Ok((w + 1) * (h + 1))
  {
    RectangleAtOrigin(w, h);
    SizeAnywhere([('R', w), ('D', h), ('L', w), ('U', h)], start, (0, 0));
  }

  lemma RectangleAtOrigin(w: nat, h: nat)
    ensures Size([('R', w), ('D', h), ('L', w), ('U', h)], (0, 0)) == Ok((w + 1) * (h + 1))
  {
    var plan := [('R', w as int), ('D', h as int), ('L', w as int), ('U', h as int)];
    var points := [(0, 0), (w as int, 0), (w as int, h as int), (0, h as int), (0, 0)];
    RectangleTrail(w, h);
    RectangleCross(w, h, points);
    RectangleMeters(w, h);
    SizeOfTrail(plan, (0, 0), points, 2 * w + 2 * h);
  }

  lemma RectangleTrail(w: nat, h: nat)
    ensures Trail([('R', w as int), ('D', h as int), ('L', w as int), ('U', h as int)], (0, 0)) ==
            Ok([(0, 0), (w as int, 0), (w as int, h as int), (0, h as int), (0, 0)])
  {
    var o: Vec := (0, 0);
    var x, y := w as int, h as int;
    assert Trail([], o) == Ok([o]);
    TrailStep([], ('R', x), o, [o]);
    assert [] + [('R', x)] == [('R', x)] && [o] + [(x, 0)] == [o, (x, 0)];
    TrailStep([('R', x)], ('D', y), o, [o, (x, 0)]);
    assert [('R', x)] + [('D', y)] == [('R', x), ('D', y)];
    assert [o, (x, 0)] + [(x, y)] == [o, (x, 0), (x, y)];
    TrailStep([('R', x), ('D', y)], ('L', x), o, [o, (x, 0), (x, y)]);
    assert [('R', x), ('D', y)] + [('L', x)] == [('R', x), ('D', y), ('L', x)];
    assert [o, (x, 0), (x, y)] + [(0, y)] == [o, (x, 0), (x, y), (0, y)];
    TrailStep([('R', x), ('D', y), ('L', x)], ('U', y), o, [o, (x, 0), (x, y), (0, y)]);
    assert [('R', x), ('D', y), ('L', x)] + [('U', y)] == [('R', x), ('D', y), ('L', x), ('U', y)];
    assert [o, (x, 0), (x, y), (0, y)] + [o] == [o, (x, 0), (x, y), (0, y), o];
  }

  lemma TrailStep(plan: seq<(char, int)>, c: (char, int), start: Vec, points: seq<Vec>)
    requires Trail(plan, start) == Ok(points) && IsDir(c.0)
    ensures Trail(plan + [c], start) == Ok(points + [AddVector(points[|plan|], Trench(c.0, c.1))])
  {
    assert (plan + [c])[..|plan|] == plan;
  }

  lemma RectangleCross(w: nat, h: nat, points: seq<Vec>)
    requires points == [(0, 0), (w as int, 0), (w as int, h as int), (0, h as int), (0, 0)]
    ensures CrossSum(points) == 2 * (w * h)
  {
    CrossSumAround(points);
    assert Around(points, 1) == 0;
    assert Around(points, 2) == w * h;
    assert Around(points, 3) == 2 * (w * h);
    assert Around(points, 4) == 2 * (w * h);
    assert Around(points, 5) == 2 * (w * h);
  }

  lemma RectangleMeters(w: nat, h: nat)
    ensures Meters([('R', w as int), ('D', h as int), ('L', w as int), ('U', h as int)]) == 2 * w + 2 * h
  {
    var p1 := [('R', w as int)];
    var p2 := p1 + [('D', h as int)];
    var p3 := p2 + [('L', w as int)];
    MetersSnoc([], ('R', w));
    assert [] + [('R', w as int)] == p1;
    MetersSnoc(p1, ('D', h));
    MetersSnoc(p2, ('L', w));
    MetersSnoc(p3, ('U', h));
    assert p3 + [('U', h as int)] == [('R', w as int), ('D', h as int), ('L', w as int), ('U', h as int)];
  }

  lemma TrailSnoc(plan: seq<(char, int)>, c: (char, int), start: Vec)
    ensures var before := Trail(plan, start);
            Trail(plan + [c], start) ==
              if before.Err? then before
              else if !IsDir(c.0) then Err(UnknownDirection(c.0))
              else Ok(before.value + [AddVector(before.value[|plan|], Trench(c.0, c.1))])
  {
    assert (plan + [c])[..|plan|] == plan;
  }

  lemma MetersSnoc(plan: seq<(char, int)>, c: (char, int))
    ensures Meters(plan + [c]) == Meters(plan) + c.1
  {
    assert (plan + [c])[..|plan|] == plan;
  }
}
