/**
 * Never tell me the odds (day24): hailstones are read as position and velocity numbers, and
 * the rock that hits every hailstone is found by solving a linear system whose rows come from
 * cross products of pairs of hailstones. The system is built here; solving it is not.
 */
module Hail {
  import opened Wrappers
  import Text

  /** A position or a velocity in space. */
  type Vec3 = (int, int, int)

  /** A hailstone as `parse_input` reads it: the numbers before `@` and the numbers after. */
  type Stone = (seq<int>, seq<int>)

  datatype HailError =
    | NotTwoParts(line: string)            // `ps, vs = line.split("@")` did not unpack
    | BadNumber(text: string)              // `int(p.strip())` refused a coordinate
    | Mismatch(a: seq<int>, b: seq<int>)   // `dot_operate` met different dimensions
    | TooShort(v: seq<int>)                // `cross` indexed past the end of a vector
    | NoStone(index: nat)                  // `hailstones[i]` past the end of the list

  // ---------------------------------------------------------------------------------------
  // Reading hailstones

  /** The values in order, or the first error among them: a generator that raises stops the tuple. */
  function Collect<T>(rs: seq<Result<T, HailError>>): Result<seq<T>, HailError>
  {
    if rs == [] then Ok([])
    else if rs[0].Err? then Err(rs[0].error)
    else
      var rest := Collect(rs[1..]);
      if rest.Err? then rest else Ok([rs[0].value] + rest.value)
  }

  /** Collecting succeeds when every item does, gives their values in order, and otherwise gives one of their errors. */
  lemma {:induction false} CollectFacts<T>(rs: seq<Result<T, HailError>>)
    ensures Collect(rs).Ok? <==> forall k :: 0 <= k < |rs| ==> rs[k].Ok?
    ensures Collect(rs).Ok? ==> |Collect(rs).value| == |rs| && forall k :: 0 <= k < |rs| ==> rs[k] == Ok(Collect(rs).value[k])
    ensures Collect(rs).Err? ==> exists k :: 0 <= k < |rs| && rs[k] == Err(Collect(rs).error)
    decreases |rs|
  {
    if rs != [] {
      CollectFacts(rs[1..]);
      assert forall k :: 1 <= k < |rs| ==> rs[k] == rs[1..][k - 1];
      if rs[0].Ok? && Collect(rs[1..]).Err? {
        var k :| 0 <= k < |rs[1..]| && rs[1..][k] == Err(Collect(rs).error);
        assert rs[k + 1] == Err(Collect(rs).error);
      }
    }
  }

  /** `int(p.strip())`. */
  function Number(p: string): Option<int>
  {
    Text.ParseInt(Text.Strip(p))
  }

  function ReadNumber(p: string): Result<int, HailError>
  {
    match Number(p)
    case None => Err(BadNumber(p))
    case Some(n) => Ok(n)
  }

  /** `tuple(int(p.strip()) for p in parts)`: stops at the first text `int` refuses. */
  function ParseNumbers(parts: seq<string>): Result<seq<int>, HailError>
  {
    Collect(seq(|parts|, k requires 0 <= k < |parts| => ReadNumber(parts[k])))
  }

  /** One number per text, each as `int` reads it; a text it refuses is the error. */
  lemma ParseNumbersFacts(parts: seq<string>)
    ensures ParseNumbers(parts).Ok? <==> forall k :: 0 <= k < |parts| ==> Number(parts[k]).Some?
    ensures ParseNumbers(parts).Ok? ==> |ParseNumbers(parts).value| == |parts|
    ensures ParseNumbers(parts).Ok? ==> forall k :: 0 <= k < |parts| ==> Number(parts[k]) == Some(ParseNumbers(parts).value[k])
    ensures ParseNumbers(parts).Err? ==> exists k :: 0 <= k < |parts| && Number(parts[k]).None? && ParseNumbers(parts).error == BadNumber(parts[k])
  {
    var rs := seq(|parts|, k requires 0 <= k < |parts| => ReadNumber(parts[k]));
    CollectFacts(rs);
    forall k | 0 <= k < |parts| ensures rs[k].Ok? == Number(parts[k]).Some? {
    }
    if forall k :: 0 <= k < |parts| ==> Number(parts[k]).Some? {
      assert forall k :: 0 <= k < |rs| ==> rs[k].Ok?;
    }
    if ParseNumbers(parts).Err? {
      var k :| 0 <= k < |rs| && rs[k] == Err(ParseNumbers(parts).error);
      assert Number(parts[k]).None? && ParseNumbers(parts).error == BadNumber(parts[k]);
    }
  }

  /** One line `px, py, pz @ vx, vy, vz`: exactly one `@`, then comma-separated integers on each side. */
  function ParseStone(line: string): (r: Result<Stone, HailError>)
    ensures r.Ok? ==> |Text.Split(line, '@')| == 2
    ensures r.Ok? ==> ParseNumbers(Text.Split(Text.Split(line, '@')[0], ',')) == Ok(r.value.0)
    ensures r.Ok? ==> ParseNumbers(Text.Split(Text.Split(line, '@')[1], ',')) == Ok(r.value.1)
    ensures |Text.Split(line, '@')| != 2 ==> r == Err(NotTwoParts(line))
  {
    var halves := Text.Split(line, '@');
    if |halves| != 2 then Err(NotTwoParts(line))
    else
      var ps := ParseNumbers(Text.Split(halves[0], ','));
      if ps.Err? then Err(ps.error)
      else
        var vs := ParseNumbers(Text.Split(halves[1], ','));
        if vs.Err? then Err(vs.error) else Ok((ps.value, vs.value))
  }

  /** The lines in order; the first line that does not parse is the error. */
  function ParseLines(lines: seq<string>): Result<seq<Stone>, HailError>
  {
    Collect(seq(|lines|, k requires 0 <= k < |lines| => ParseStone(lines[k])))
  }

  /** Every line is one hailstone, in order; the input is refused when any line is, with that line's error. */
  lemma ParseLinesFacts(lines: seq<string>)
    ensures ParseLines(lines).Ok? <==> forall k :: 0 <= k < |lines| ==> ParseStone(lines[k]).Ok?
    ensures ParseLines(lines).Ok? ==> |ParseLines(lines).value| == |lines|
    ensures ParseLines(lines).Ok? ==> forall k :: 0 <= k < |lines| ==> ParseStone(lines[k]) == Ok(ParseLines(lines).value[k])
    ensures ParseLines(lines).Err? ==> exists k :: 0 <= k < |lines| && ParseStone(lines[k]) == Err(ParseLines(lines).error)
  {
    var rs := seq(|lines|, k requires 0 <= k < |lines| => ParseStone(lines[k]));
    CollectFacts(rs);
    forall k | 0 <= k < |lines| ensures rs[k] == ParseStone(lines[k]) {
    }
  }

  /**
   * `parse_input`: the input is joined, stripped and cut at its line breaks; every line is one
   * hailstone, and the first line that does not read as one fails the input.
   */
  function ParseInput(data: seq<string>): (r: Result<seq<Stone>, HailError>)
    ensures Text.Strip(Text.Flatten(data)) == [] ==> r == Ok([])
    ensures var lines := InputLines(data);
            && (r.Ok? <==> forall k :: 0 <= k < |lines| ==> ParseStone(lines[k]).Ok?)
            && (r.Ok? ==> |r.value| == |lines| && forall k :: 0 <= k < |lines| ==> ParseStone(lines[k]) == Ok(r.value[k]))
            && (r.Err? ==> exists k :: 0 <= k < |lines| && ParseStone(lines[k]) == Err(r.error))
  {
    var lines := InputLines(data);
    ParseLinesFacts(lines);
    ParseLines(lines)
  }

  /** The lines of the joined and stripped input. */
  function InputLines(data: seq<string>): (r: seq<string>)
    ensures Text.Strip(Text.Flatten(data)) == [] ==> r == []
  {
    Text.SplitLines(Text.Strip(Text.Flatten(data)))
  }

  // ---------------------------------------------------------------------------------------
  // Writing hailstones back: the partner of the parser

  /** Each number written with `str`. */
  function Numerals(ns: seq<int>): (r: seq<string>)
    ensures |r| == |ns| && forall k :: 0 <= k < |ns| ==> r[k] == Text.IntToString(ns[k])
  {
    if ns == [] then [] else [Text.IntToString(ns[0])] + Numerals(ns[1..])
  }

  /** The numbers joined by commas. */
  function NumbersText(ns: seq<int>): string
  {
    Text.Join(Numerals(ns), ',')
  }

  function StoneText(s: Stone): string
  {
    NumbersText(s.0) + "@" + NumbersText(s.1)
  }

  function StoneLines(stones: seq<Stone>): (r: seq<string>)
    ensures |r| == |stones| && forall k :: 0 <= k < |stones| ==> r[k] == StoneText(stones[k])
  {
    if stones == [] then [] else [StoneText(stones[0])] + StoneLines(stones[1..])
  }

  /** The hailstones one per line. */
  function StonesText(stones: seq<Stone>): string
  {
    Text.Join(StoneLines(stones), '\n')
  }

  /** A character of a written number: a digit or a minus sign. */
  predicate NumeralChar(c: char) { Text.IsDigit(c) || c == '-' }

  lemma IntToStringChars(i: int)
    ensures Text.IntToString(i) != []
    ensures forall k :: 0 <= k < |Text.IntToString(i)| ==> NumeralChar(Text.IntToString(i)[k])
    ensures Text.IsDigit(Text.IntToString(i)[|Text.IntToString(i)| - 1])
  {
  }

  /** `int(str(i).strip()) == i`. */
  lemma NumberOfNumeral(i: int)
    ensures Number(Text.IntToString(i)) == Some(i)
  {
    IntToStringChars(i);
    Text.StripTrimmed(Text.IntToString(i));
    Text.ParseIntToString(i);
  }

  /** Every character of the joined parts is a character of one of the parts or the separator. */
  lemma {:induction false} JoinChars(parts: seq<string>, sep: char, c: char)
    requires c in Text.Join(parts, sep)
    ensures c == sep || exists k :: 0 <= k < |parts| && c in parts[k]
    decreases |parts|
  {
    if |parts| > 1 {
      var rest := Text.Join(parts[1..], sep);
      assert Text.Join(parts, sep) == parts[0] + [sep] + rest;
      if c in rest && c != sep {
        JoinChars(parts[1..], sep, c);
        var k :| 0 <= k < |parts[1..]| && c in parts[1..][k];
        assert c in parts[k + 1];
      }
    }
  }

  /** The last character of a join of non-empty parts is the last part's last character. */
  lemma {:induction false} JoinLast(parts: seq<string>, sep: char)
    requires parts != [] && parts[|parts| - 1] != []
    ensures Text.Join(parts, sep) != []
    ensures Text.Join(parts, sep)[|Text.Join(parts, sep)| - 1] == parts[|parts| - 1][|parts[|parts| - 1]| - 1]
    decreases |parts|
  {
    if |parts| > 1 {
      assert parts[1..][|parts[1..]| - 1] == parts[|parts| - 1];
      JoinLast(parts[1..], sep);
    }
  }

  /** The first character of a join whose first part is non-empty is that part's first character. */
  lemma JoinFirst(parts: seq<string>, sep: char)
    requires parts != [] && parts[0] != []
    ensures Text.Join(parts, sep) != [] && Text.Join(parts, sep)[0] == parts[0][0]
  {
  }

  /** Written numbers hold only numeral characters and commas. */
  lemma NumbersTextChars(ns: seq<int>, c: char)
    requires c in NumbersText(ns)
    ensures NumeralChar(c) || c == ','
  {
    var texts := Numerals(ns);
    JoinChars(texts, ',', c);
    if c != ',' {
      var k :| 0 <= k < |texts| && c in texts[k];
      IntToStringChars(ns[k]);
    }
  }

  lemma StoneTextChars(s: Stone, c: char)
    requires c in StoneText(s)
    ensures NumeralChar(c) || c == ',' || c == '@'
  {
    var t := StoneText(s);
    assert t == NumbersText(s.0) + ['@'] + NumbersText(s.1);
    if c in NumbersText(s.0) {
      NumbersTextChars(s.0, c);
    } else if c in NumbersText(s.1) {
      NumbersTextChars(s.1, c);
    }
  }

  lemma NumeralsParse(ns: seq<int>)
    ensures ParseNumbers(Numerals(ns)) == Ok(ns)
  {
    var texts := Numerals(ns);
    forall k | 0 <= k < |ns| ensures Number(texts[k]) == Some(ns[k]) {
      NumberOfNumeral(ns[k]);
    }
    ParseNumbersFacts(texts);
    assert ParseNumbers(texts).value == ns;
  }

  /** The numbers a written list of numbers reads back as. */
  lemma NumbersRoundTrip(ns: seq<int>)
    requires ns != []
    ensures ParseNumbers(Text.Split(NumbersText(ns), ',')) == Ok(ns)
  {
    var texts := Numerals(ns);
    forall k | 0 <= k < |texts| ensures ',' !in texts[k] {
      IntToStringChars(ns[k]);
    }
    Text.SplitJoin(texts, ',');
    NumeralsParse(ns);
  }

  lemma StoneRoundTrip(s: Stone)
    requires s.0 != [] && s.1 != []
    ensures ParseStone(StoneText(s)) == Ok(s)
  {
    var a := NumbersText(s.0);
    var b := NumbersText(s.1);
    forall c | c in a ensures c != '@' { NumbersTextChars(s.0, c); }
    forall c | c in b ensures c != '@' { NumbersTextChars(s.1, c); }
    assert StoneText(s) == Text.Join([a, b], '@');
    Text.SplitJoin([a, b], '@');
    NumbersRoundTrip(s.0);
    NumbersRoundTrip(s.1);
  }

  lemma LinesRoundTrip(stones: seq<Stone>)
    requires forall k :: 0 <= k < |stones| ==> stones[k].0 != [] && stones[k].1 != []
    ensures ParseLines(StoneLines(stones)) == Ok(stones)
  {
    var lines := StoneLines(stones);
    forall k | 0 <= k < |stones| ensures ParseStone(lines[k]) == Ok(stones[k]) {
      StoneRoundTrip(stones[k]);
    }
    ParseLinesFacts(lines);
    assert ParseLines(lines).value == stones;
  }

  /** Written numbers start with a digit or a minus sign and end with a digit. */
  lemma NumbersFirstLast(ns: seq<int>)
    requires ns != []
    ensures NumbersText(ns) != [] && NumeralChar(NumbersText(ns)[0])
    ensures Text.IsDigit(NumbersText(ns)[|NumbersText(ns)| - 1])
  {
    var texts := Numerals(ns);
    IntToStringChars(ns[0]);
    IntToStringChars(ns[|ns| - 1]);
    JoinFirst(texts, ',');
    JoinLast(texts, ',');
  }

  /** A written hailstone starts with a numeral character and ends with a digit. */
  lemma StoneTextEnds(s: Stone)
    requires s.0 != [] && s.1 != []
    ensures StoneText(s) != [] && NumeralChar(StoneText(s)[0]) && Text.IsDigit(StoneText(s)[|StoneText(s)| - 1])
  {
    NumbersFirstLast(s.0);
    NumbersFirstLast(s.1);
    var t := StoneText(s);
    assert t[0] == NumbersText(s.0)[0];
    assert t[|t| - 1] == NumbersText(s.1)[|NumbersText(s.1)| - 1];
  }

  lemma StonesTextEnds(stones: seq<Stone>)
    requires stones != [] && forall k :: 0 <= k < |stones| ==> stones[k].0 != [] && stones[k].1 != []
    ensures StonesText(stones) != []
    ensures !Text.IsSpace(StonesText(stones)[0]) && !Text.IsSpace(StonesText(stones)[|StonesText(stones)| - 1])
  {
    var lines := StoneLines(stones);
    var first := StoneText(stones[0]);
    var last := StoneText(stones[|stones| - 1]);
    StoneTextEnds(stones[0]);
    StoneTextEnds(stones[|stones| - 1]);
    assert lines[0] == first;
    assert lines[|lines| - 1] == last;
    assert NumeralChar(lines[0][0]);
    assert Text.IsDigit(lines[|lines| - 1][|lines[|lines| - 1]| - 1]);
    JoinEnds(lines, '\n');
  }

  /** Parts starting with a numeral character and ending with a digit join into text with no blank at either end. */
  lemma JoinEnds(parts: seq<string>, sep: char)
    requires parts != [] && parts[0] != [] && NumeralChar(parts[0][0])
    requires parts[|parts| - 1] != [] && Text.IsDigit(parts[|parts| - 1][|parts[|parts| - 1]| - 1])
    ensures Text.Join(parts, sep) != []
    ensures !Text.IsSpace(Text.Join(parts, sep)[0]) && !Text.IsSpace(Text.Join(parts, sep)[|Text.Join(parts, sep)| - 1])
  {
    JoinFirst(parts, sep);
    JoinLast(parts, sep);
  }

  lemma StoneLinesNoBreak(stones: seq<Stone>)
    ensures forall k :: 0 <= k < |stones| ==> Text.NoBreak(StoneLines(stones)[k]) && StoneLines(stones)[k] != []
  {
    var lines := StoneLines(stones);
    forall k | 0 <= k < |lines| ensures Text.NoBreak(lines[k]) && lines[k] != [] {
      forall j | 0 <= j < |lines[k]| ensures !Text.IsLineBreak(lines[k][j]) {
        StoneTextChars(stones[k], lines[k][j]);
      }
      assert '@' in lines[k];
    }
  }

  /** The written hailstones hold no line break inside a line and no blank at either end. */
  lemma StonesTextShape(stones: seq<Stone>)
    requires stones != [] && forall k :: 0 <= k < |stones| ==> stones[k].0 != [] && stones[k].1 != []
    ensures forall k :: 0 <= k < |stones| ==> Text.NoBreak(StoneLines(stones)[k]) && StoneLines(stones)[k] != []
    ensures Text.Strip(StonesText(stones)) == StonesText(stones) != []
  {
    var text := StonesText(stones);
    StoneLinesNoBreak(stones);
    StonesTextEnds(stones);
    Text.StripTrimmed(text);
  }

  /** Reading the written hailstones gives them back: `parse_input` inverts the input format. */
  lemma ParseFormat(stones: seq<Stone>)
    requires forall k :: 0 <= k < |stones| ==> stones[k].0 != [] && stones[k].1 != []
    ensures ParseInput([StonesText(stones)]) == Ok(stones)
  {
    var text := StonesText(stones);
    assert Text.Flatten([text]) == text by {
      assert Text.Flatten([text]) == text + Text.Flatten([text][1..]);
    }
    LinesRoundTrip(stones);
    if stones != [] {
      StonesTextShape(stones);
      Text.SplitLinesJoin(StoneLines(stones));
    }
  }

  // ---------------------------------------------------------------------------------------
  // Vectors

  /** The two entries of the `dot` table. */
  datatype Op = Add | Sub

  function Apply(op: Op, x: int, y: int): int
  {
    match op
    case Add => x + y
    case Sub => x - y
  }

  /** A list or a tuple of numbers: `dot_operate` gives back the kind it was given. */
  datatype Vector = List(items: seq<int>) | Tuple(items: seq<int>)

  function Combine(op: Op, a: seq<int>, b: seq<int>): (r: seq<int>)
    requires |a| == |b|
    ensures |r| == |a| && forall i :: 0 <= i < |a| ==> r[i] == Apply(op, a[i], b[i])
  {
    seq(|a|, i requires 0 <= i < |a| => Apply(op, a[i], b[i]))
  }

  /** `dot_operate(op, a, b)` as a value: the componentwise operation, or the dimension error. */
  function Dot(op: Op, a: Vector, b: Vector): (r: Result<Vector, HailError>)
    ensures r.Ok? <==> |a.items| == |b.items|
    ensures r.Err? ==> r.error == Mismatch(a.items, b.items)
    ensures r.Ok? ==> r.value.List? == a.List? && |r.value.items| == |a.items|
    ensures r.Ok? ==> forall i :: 0 <= i < |a.items| ==> r.value.items[i] == Apply(op, a.items[i], b.items[i])
  {
    if |a.items| != |b.items| then Err(Mismatch(a.items, b.items))
    else
      var items := Combine(op, a.items, b.items);
      Ok(if a.List? then List(items) else Tuple(items))
  }

  /** `dot_operate`: copies `a`, then overwrites each entry with `op` of the two entries. */
  method DotOperate(op: Op, a: Vector, b: Vector) returns (r: Result<Vector, HailError>)
    ensures r == Dot(op, a, b)
    ensures r.Ok? <==> |a.items| == |b.items|
    ensures r.Ok? ==> r.value.List? == a.List? && |r.value.items| == |a.items|
    ensures r.Ok? ==> forall i :: 0 <= i < |a.items| ==> r.value.items[i] == Apply(op, a.items[i], b.items[i])
  {
    if |a.items| != |b.items| {
      return Err(Mismatch(a.items, b.items));
    }
    var result := a.items;
    for i := 0 to |b.items|
      invariant |result| == |a.items|
      invariant forall k :: 0 <= k < i ==> result[k] == Apply(op, a.items[k], b.items[k])
      invariant forall k :: i <= k < |result| ==> result[k] == a.items[k]
    {
      result := result[i := Apply(op, a.items[i], b.items[i])];
    }
    assert result == Combine(op, a.items, b.items);
    r := Ok(if a.List? then List(result) else Tuple(result));
  }

  /** Subtracting undoes adding, and the kind of vector is kept. */
  lemma DotAddSub(a: Vector, b: Vector)
    requires |a.items| == |b.items|
    ensures Dot(Add, a, b).Ok? && Dot(Sub, Dot(Add, a, b).value, b) == Ok(a)
  {
    var s := Dot(Add, a, b).value;
    var d := Dot(Sub, s, b).value;
    assert d.items == a.items;
  }

  function Plus3(a: Vec3, b: Vec3): Vec3 { (a.0 + b.0, a.1 + b.1, a.2 + b.2) }

  function Minus3(a: Vec3, b: Vec3): Vec3 { (a.0 - b.0, a.1 - b.1, a.2 - b.2) }

  function Scale3(t: int, a: Vec3): Vec3 { (t * a.0, t * a.1, t * a.2) }

  function Inner3(a: Vec3, b: Vec3): int { a.0 * b.0 + a.1 * b.1 + a.2 * b.2 }

  const Zero3: Vec3 := (0, 0, 0)

  /** The cross product of two vectors in space. */
  function Cross3(a: Vec3, b: Vec3): Vec3
  {
    (a.1 * b.2 - a.2 * b.1, a.2 * b.0 - a.0 * b.2, a.0 * b.1 - a.1 * b.0)
  }

  /** The first three numbers of a vector. */
  function Head3(s: seq<int>): Vec3
    requires |s| >= 3
  {
    (s[0], s[1], s[2])
  }

  function Seq3(a: Vec3): (s: seq<int>)
    ensures |s| == 3 && Head3(s) == a
  {
    [a.0, a.1, a.2]
  }

  /** `cross(a, b)`: reads the first three entries of each vector; a shorter one raises. */
  function Cross(a: seq<int>, b: seq<int>): (r: Result<Vec3, HailError>)
    ensures r.Ok? <==> |a| >= 3 && |b| >= 3
    ensures r.Ok? ==> r.value == Cross3(Head3(a), Head3(b))
    ensures r.Err? ==> r.error.TooShort?
  {
    if |a| < 3 then Err(TooShort(a)) else if |b| < 3 then Err(TooShort(b))
    else Ok(Cross3(Head3(a), Head3(b)))
  }

  lemma MulSub(x: int, y: int, z: int)
    ensures z * (x - y) == z * x - z * y
  {
  }

  lemma SubMul(x: int, y: int, z: int)
    ensures (x - y) * z == x * z - y * z
  {
  }

  lemma MulAssoc(t: int, x: int, z: int)
    ensures (t * x) * z == t * (x * z) && x * (t * z) == t * (x * z)
  {
  }

  /** The cross product is orthogonal to both factors and changes sign when they are swapped. */
  lemma CrossFacts(a: Vec3, b: Vec3)
    ensures Inner3(a, Cross3(a, b)) == 0 && Inner3(b, Cross3(a, b)) == 0
    ensures Cross3(b, a) == Scale3(-1, Cross3(a, b))
  {

  }

  /** A vector crossed with a multiple of itself is zero. */
  lemma CrossParallel(a: Vec3, t: int)
    ensures Cross3(a, Scale3(t, a)) == Zero3
  {
    MulAssoc(t, a.2, a.1);
    MulAssoc(t, a.1, a.2);
    MulAssoc(t, a.0, a.2);
    MulAssoc(t, a.2, a.0);
    MulAssoc(t, a.1, a.0);
    MulAssoc(t, a.0, a.1);
  }

  /** The cross product distributes over subtraction in its first argument. */
  lemma CrossSubLeft(a: Vec3, b: Vec3, c: Vec3)
    ensures Cross3(Minus3(a, b), c) == Minus3(Cross3(a, c), Cross3(b, c))
  {
    SubMul(a.1, b.1, c.2);
    SubMul(a.2, b.2, c.1);
    SubMul(a.2, b.2, c.0);
    SubMul(a.0, b.0, c.2);
    SubMul(a.0, b.0, c.1);
    SubMul(a.1, b.1, c.0);
  }

  /** The cross product distributes over subtraction in its second argument. */
  lemma CrossSubRight(c: Vec3, a: Vec3, b: Vec3)
    ensures Cross3(c, Minus3(a, b)) == Minus3(Cross3(c, a), Cross3(c, b))
  {
    MulSub(a.2, b.2, c.1);
    MulSub(a.1, b.1, c.2);
    MulSub(a.0, b.0, c.2);
    MulSub(a.2, b.2, c.0);
    MulSub(a.1, b.1, c.0);
    MulSub(a.0, b.0, c.1);
  }

  // ---------------------------------------------------------------------------------------
  // The linear system

  /**
   * `get_mat_coeff(hailstones, r, v, i, j)`: `r × (vi − vj) + v × (rj − ri)`, raising when an
   * index is past the list, two vectors differ in length or a difference has fewer than three
   * entries.
   */
  function MatCoeff(stones: seq<Stone>, r: Vec3, v: Vec3, i: nat, j: nat): (res: Result<Vec3, HailError>)
    ensures res.Ok? <==> Pairable(stones, i, j)
    ensures !(i < |stones| && j < |stones|) ==> res == Err(NoStone(if i < |stones| then j else i))
    ensures res.Ok? ==> res.value == Coeff(PositionOf(stones[i]), VelocityOf(stones[i]), PositionOf(stones[j]), VelocityOf(stones[j]), r, v)
  {
    if i >= |stones| then Err(NoStone(i))
    else if j >= |stones| then Err(NoStone(j))
    else
      var dv := Dot(Sub, Tuple(stones[i].1), Tuple(stones[j].1));
      if dv.Err? then Err(dv.error)
      else
        var left := Cross(Seq3(r), dv.value.items);
        if left.Err? then Err(left.error)
        else
          var dp := Dot(Sub, Tuple(stones[j].0), Tuple(stones[i].0));
          if dp.Err? then Err(dp.error)
          else
            var right := Cross(Seq3(v), dp.value.items);
            if right.Err? then Err(right.error)
            else
              assert Head3(dv.value.items) == Minus3(VelocityOf(stones[i]), VelocityOf(stones[j]));
              assert Head3(dp.value.items) == Minus3(PositionOf(stones[j]), PositionOf(stones[i]));
              Ok(Plus3(left.value, right.value))
  }

  /** The two hailstones exist, their positions and velocities agree in length, and have at least three entries. */
  predicate Pairable(stones: seq<Stone>, i: nat, j: nat)
  {
    i < |stones| && j < |stones| &&
    |stones[i].1| == |stones[j].1| && |stones[i].1| >= 3 &&
    |stones[i].0| == |stones[j].0| && |stones[i].0| >= 3
  }

  function PositionOf(s: Stone): Vec3
    requires |s.0| >= 3
  {
    Head3(s.0)
  }

  function VelocityOf(s: Stone): Vec3
    requires |s.1| >= 3
  {
    Head3(s.1)
  }

  /** The left-hand side of the pair equation for hailstones (ri, vi) and (rj, vj) at the unknowns (r, v). */
  function Coeff(ri: Vec3, vi: Vec3, rj: Vec3, vj: Vec3, r: Vec3, v: Vec3): Vec3
  {
    Plus3(Cross3(r, Minus3(vi, vj)), Cross3(v, Minus3(rj, ri)))
  }

  /**
   * `get_rhs(hailstones, i, j)`: `vj × rj − vi × ri`. Hailstone `j` is read first, so its errors
   * come first.
   */
  function Rhs(stones: seq<Stone>, i: nat, j: nat): (res: Result<Vec3, HailError>)
    ensures res.Ok? <==> i < |stones| && j < |stones| && |stones[i].0| >= 3 && |stones[i].1| >= 3 &&
                         |stones[j].0| >= 3 && |stones[j].1| >= 3
    ensures res.Ok? ==> res.value == Minus3(Cross3(VelocityOf(stones[j]), PositionOf(stones[j])),
                                            Cross3(VelocityOf(stones[i]), PositionOf(stones[i])))
  {
    if j >= |stones| then Err(NoStone(j))
    else
      var a := Cross(stones[j].1, stones[j].0);
      if a.Err? then Err(a.error)
      else if i >= |stones| then Err(NoStone(i))
      else
        var b := Cross(stones[i].1, stones[i].0);
        if b.Err? then Err(b.error)
        else
          var d := Dot(Sub, Tuple(Seq3(a.value)), Tuple(Seq3(b.value)));
          assert Head3(d.value.items) == Minus3(a.value, b.value);
          Ok(Head3(d.value.items))
  }

  /** Row `k` of the strip: the `k`-th entry of the coefficient vector at each of the six unit vectors. */
  function StripRow(cols: seq<Vec3>, k: nat): (row: seq<int>)
    requires |cols| == 6 && k < 3
    ensures |row| == 6
  {
    seq(6, c requires 0 <= c < 6 => Entry(cols[c], k))
  }

  function Entry(a: Vec3, k: nat): int
    requires k < 3
  {
    if k == 0 then a.0 else if k == 1 then a.1 else a.2
  }

  /** The six unit vectors, as (r, v) pairs, in the order `get_eq_strip` passes them. */
  function Unit(c: nat): (Vec3, Vec3)
    requires c < 6
  {
    if c == 0 then ((1, 0, 0), Zero3) else if c == 1 then ((0, 1, 0), Zero3)
    else if c == 2 then ((0, 0, 1), Zero3) else if c == 3 then (Zero3, (1, 0, 0))
    else if c == 4 then (Zero3, (0, 1, 0)) else (Zero3, (0, 0, 1))
  }

  /**
   * `get_eq_strip(hailstones, i, j)`: three rows of six coefficients, column `c` being
   * `get_mat_coeff` at the `c`-th unit vector, and the right-hand side of the pair.
   */
  function EqStrip(stones: seq<Stone>, i: nat, j: nat): (res: Result<(seq<seq<int>>, Vec3), HailError>)
    ensures res.Ok? <==> Pairable(stones, i, j)
    ensures res.Err? ==> exists c :: 0 <= c < 6 && MatCoeff(stones, Unit(c).0, Unit(c).1, i, j) == Err(res.error)
    ensures res.Ok? ==> |res.value.0| == 3 && forall k :: 0 <= k < 3 ==> |res.value.0[k]| == 6
    ensures res.Ok? ==> forall k, c :: 0 <= k < 3 && 0 <= c < 6 ==>
                          res.value.0[k][c] == Entry(MatCoeff(stones, Unit(c).0, Unit(c).1, i, j).value, k)
    ensures res.Ok? ==> res.value.1 == Rhs(stones, i, j).value
  {
    var a := MatCoeff(stones, Unit(0).0, Unit(0).1, i, j);
    if a.Err? then Err(a.error)
    else
      var cols := seq(6, c requires 0 <= c < 6 => MatCoeff(stones, Unit(c).0, Unit(c).1, i, j).value);
      var rows := seq(3, k requires 0 <= k < 3 => StripRow(cols, k));
      Ok((rows, Rhs(stones, i, j).value))
  }

  /**
   * `get_eq(hailstones, i, j, k)`: the strips of the pairs (i, j) and (j, k) stacked into six
   * rows, with their right-hand sides joined.
   */
  function Eq(stones: seq<Stone>, i: nat, j: nat, k: nat): (res: Result<(seq<seq<int>>, seq<int>), HailError>)
    ensures res.Ok? <==> Pairable(stones, i, j) && Pairable(stones, j, k)
    ensures res.Ok? ==> res.value.0 == EqStrip(stones, i, j).value.0 + EqStrip(stones, j, k).value.0
    ensures res.Ok? ==> res.value.1 == Seq3(EqStrip(stones, i, j).value.1) + Seq3(EqStrip(stones, j, k).value.1)
    ensures !Pairable(stones, i, j) ==> res == Err(EqStrip(stones, i, j).error)
  {
    var a := EqStrip(stones, i, j);
    if a.Err? then Err(a.error)
    else
      var b := EqStrip(stones, j, k);
      if b.Err? then Err(b.error)
      else Ok((a.value.0 + b.value.0, Seq3(a.value.1) + Seq3(b.value.1)))
  }

  // ---------------------------------------------------------------------------------------
  // What the system means

  /** The scalar product of a row with the unknowns. */
  function Times(row: seq<int>, x: seq<int>): int
    requires |row| == |x|
  {
    if row == [] then 0 else row[0] * x[0] + Times(row[1..], x[1..])
  }

  /** The unknowns (r, v) as the six numbers the system multiplies. */
  function Unknowns(r: Vec3, v: Vec3): (x: seq<int>)
    ensures |x| == 6
  {
    [r.0, r.1, r.2, v.0, v.1, v.2]
  }

  /** The coefficient vector is linear in the unknowns: it is the sum of its columns, weighted. */
  lemma CoeffLinear(ri: Vec3, vi: Vec3, rj: Vec3, vj: Vec3, r: Vec3, v: Vec3)
    ensures var cols := seq(6, c requires 0 <= c < 6 => Coeff(ri, vi, rj, vj, Unit(c).0, Unit(c).1));
            forall k :: 0 <= k < 3 ==> Times(seq(6, c requires 0 <= c < 6 => Entry(cols[c], k)), Unknowns(r, v)) == Entry(Coeff(ri, vi, rj, vj, r, v), k)
  {
    var cols := seq(6, c requires 0 <= c < 6 => Coeff(ri, vi, rj, vj, Unit(c).0, Unit(c).1));
    forall k | 0 <= k < 3
      ensures Times(seq(6, c requires 0 <= c < 6 => Entry(cols[c], k)), Unknowns(r, v)) == Entry(Coeff(ri, vi, rj, vj, r, v), k)
    {
      var row := seq(6, c requires 0 <= c < 6 => Entry(cols[c], k));
      TimesSix(row, Unknowns(r, v));
    }
  }

  lemma TimesSix(row: seq<int>, x: seq<int>)
    requires |row| == 6 && |x| == 6
    ensures Times(row, x) == row[0] * x[0] + row[1] * x[1] + row[2] * x[2] + row[3] * x[3] + row[4] * x[4] + row[5] * x[5]
  {
    assert Times(row[6..], x[6..]) == 0;
    assert row[5..][1..] == row[6..] && x[5..][1..] == x[6..];
    assert Times(row[5..], x[5..]) == row[5] * x[5];
    assert row[4..][1..] == row[5..] && x[4..][1..] == x[5..];
    assert Times(row[4..], x[4..]) == row[4] * x[4] + row[5] * x[5];
    assert row[3..][1..] == row[4..] && x[3..][1..] == x[4..];
    assert Times(row[3..], x[3..]) == row[3] * x[3] + row[4] * x[4] + row[5] * x[5];
    assert row[2..][1..] == row[3..] && x[2..][1..] == x[3..];
    assert Times(row[2..], x[2..]) == row[2] * x[2] + row[3] * x[3] + row[4] * x[4] + row[5] * x[5];
    assert row[1..][1..] == row[2..] && x[1..][1..] == x[2..];
    assert Times(row[1..], x[1..]) == row[1] * x[1] + row[2] * x[2] + row[3] * x[3] + row[4] * x[4] + row[5] * x[5];
  }

  /**
   * Each strip row times the unknowns is the matching entry of `get_mat_coeff` at those
   * unknowns: the matrix is the linear map `get_mat_coeff` stands for.
   */
  lemma StripTimes(stones: seq<Stone>, i: nat, j: nat, r: Vec3, v: Vec3)
    requires Pairable(stones, i, j)
    ensures forall k :: 0 <= k < 3 ==>
              Times(EqStrip(stones, i, j).value.0[k], Unknowns(r, v)) == Entry(MatCoeff(stones, r, v, i, j).value, k)
  {
    var ri, vi := PositionOf(stones[i]), VelocityOf(stones[i]);
    var rj, vj := PositionOf(stones[j]), VelocityOf(stones[j]);
    CoeffLinear(ri, vi, rj, vj, r, v);
    var rows := EqStrip(stones, i, j).value.0;
    var cols := seq(6, c requires 0 <= c < 6 => Coeff(ri, vi, rj, vj, Unit(c).0, Unit(c).1));
    forall k | 0 <= k < 3
      ensures rows[k] == seq(6, c requires 0 <= c < 6 => Entry(cols[c], k))
    {
    }
  }

  /**
   * The hailstone passes through the rock's position at the time `t / q`, any rational time:
   * `q * ri + t * vi == q * r + t * v` with `q > 0`.
   */
  predicate Hits(s: Stone, r: Vec3, v: Vec3, t: int, q: int)
  {
    q > 0 && |s.0| >= 3 && |s.1| >= 3 &&
    Plus3(Scale3(q, PositionOf(s)), Scale3(t, VelocityOf(s))) == Plus3(Scale3(q, r), Scale3(t, v))
  }

  /** At a hit at time t / q, q times the offset of the hailstone's start from the rock's is −t times their velocity difference. */
  lemma HitOffset(ri: Vec3, vi: Vec3, r: Vec3, v: Vec3, t: int, q: int)
    requires Plus3(Scale3(q, ri), Scale3(t, vi)) == Plus3(Scale3(q, r), Scale3(t, v))
    ensures Scale3(q, Minus3(ri, r)) == Scale3(-t, Minus3(vi, v))
  {
    HitOffsetAxis(ri.0, vi.0, r.0, v.0, t, q);
    HitOffsetAxis(ri.1, vi.1, r.1, v.1, t, q);
    HitOffsetAxis(ri.2, vi.2, r.2, v.2, t, q);
  }

  /** One coordinate of HitOffset. */
  lemma HitOffsetAxis(ri: int, vi: int, r: int, v: int, t: int, q: int)
    requires q * ri + t * vi == q * r + t * v
    ensures q * (ri - r) == (-t) * (vi - v)
  {
    MulSub(ri, r, q);
    MulSub(vi, v, -t);
    NegMul(t, vi);
    NegMul(t, v);
  }

  lemma NegMul(t: int, x: int)
    ensures (-t) * x == -(t * x)
  {
  }

  /** The cross product is linear in its second factor. */
  lemma CrossScaleRight(a: Vec3, q: int, b: Vec3)
    ensures Cross3(a, Scale3(q, b)) == Scale3(q, Cross3(a, b))
  {
    MulAssoc(q, a.1, b.2);
    MulAssoc(q, a.2, b.1);
    MulAssoc(q, a.2, b.0);
    MulAssoc(q, a.0, b.2);
    MulAssoc(q, a.0, b.1);
    MulAssoc(q, a.1, b.0);
    MulSub(a.1 * b.2, a.2 * b.1, q);
    MulSub(a.2 * b.0, a.0 * b.2, q);
    MulSub(a.0 * b.1, a.1 * b.0, q);
  }

  /** A vector a positive multiple of which is zero is zero. */
  lemma ScaleZero(q: int, a: Vec3)
    requires q > 0 && Scale3(q, a) == Zero3
    ensures a == Zero3
  {
    MulZero(q, a.0);
    MulZero(q, a.1);
    MulZero(q, a.2);
  }

  lemma MulZero(q: int, x: int)
    requires q > 0
    ensures q * x == 0 ==> x == 0
  {
    if x > 0 {
      assert q * x >= x;
    } else if x < 0 {
      assert q * x <= x;
    }
  }

  /** A hit makes `(vi − v) × (ri − r)` zero, written out by distributing the product. */
  lemma HitExpanded(ri: Vec3, vi: Vec3, r: Vec3, v: Vec3, t: int, q: int)
    requires q > 0 && Plus3(Scale3(q, ri), Scale3(t, vi)) == Plus3(Scale3(q, r), Scale3(t, v))
    ensures Plus3(Minus3(Cross3(vi, ri), Cross3(vi, r)), Minus3(Cross3(v, r), Cross3(v, ri))) == Zero3
  {
    var d := Minus3(vi, v);
    var e := Minus3(ri, r);
    HitOffset(ri, vi, r, v, t, q);
    CrossParallel(d, -t);
    CrossScaleRight(d, q, e);
    ScaleZero(q, Cross3(d, e));
    CrossSubRight(vi, ri, r);
    CrossSubRight(v, ri, r);
    CrossSubLeft(vi, v, e);
  }

  /**
   * The equation of a pair holds at the rock: when the rock meets hailstones `i` and `j`,
   * `get_mat_coeff(r, v, i, j) == get_rhs(i, j)`.
   */
  lemma PairEquation(stones: seq<Stone>, i: nat, j: nat, r: Vec3, v: Vec3, ti: int, qi: int, tj: int, qj: int)
    requires Pairable(stones, i, j) && Hits(stones[i], r, v, ti, qi) && Hits(stones[j], r, v, tj, qj)
    ensures MatCoeff(stones, r, v, i, j) == Rhs(stones, i, j)
  {
    var ri, vi := PositionOf(stones[i]), VelocityOf(stones[i]);
    var rj, vj := PositionOf(stones[j]), VelocityOf(stones[j]);
    HitExpanded(ri, vi, r, v, ti, qi);
    HitExpanded(rj, vj, r, v, tj, qj);
    CrossSubRight(r, vi, vj);
    CrossSubRight(v, rj, ri);
    CrossFacts(vi, r);
    CrossFacts(vj, r);
  }

  /**
   * The rock solves the system of `get_eq`: when it meets hailstones `i`, `j` and `k`, each of
   * the six rows times its position and velocity gives the row's right-hand side.
   */
  lemma RockSolves(stones: seq<Stone>, i: nat, j: nat, k: nat, r: Vec3, v: Vec3,
                   ti: int, qi: int, tj: int, qj: int, tk: int, qk: int)
    requires Pairable(stones, i, j) && Pairable(stones, j, k)
    requires Hits(stones[i], r, v, ti, qi) && Hits(stones[j], r, v, tj, qj) && Hits(stones[k], r, v, tk, qk)
    ensures Eq(stones, i, j, k).Ok?
    ensures var (rows, rhs) := Eq(stones, i, j, k).value;
            |rows| == 6 && |rhs| == 6 && forall n :: 0 <= n < 6 ==> |rows[n]| == 6 && Times(rows[n], Unknowns(r, v)) == rhs[n]
  {
    PairEquation(stones, i, j, r, v, ti, qi, tj, qj);
    PairEquation(stones, j, k, r, v, tj, qj, tk, qk);
    StripTimes(stones, i, j, r, v);
    StripTimes(stones, j, k, r, v);
    var (rows, rhs) := Eq(stones, i, j, k).value;
    var a := EqStrip(stones, i, j).value;
    var b := EqStrip(stones, j, k).value;
    forall n | 0 <= n < 6 ensures |rows[n]| == 6 && Times(rows[n], Unknowns(r, v)) == rhs[n] {
      if n < 3 {
        assert rows[n] == a.0[n] && rhs[n] == Entry(a.1, n);
      } else {
        assert rows[n] == b.0[n - 3] && rhs[n] == Entry(b.1, n - 3);
      }
    }
  }
}
