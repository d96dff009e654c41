/**
 * Character and numeral helpers shared by the parsers: `str.split` on one separator,
 * `str.join`, `str.splitlines`, counting, and Python's `int(...)` on decimal and hexadecimal text.
 */
module Text {
  import opened Wrappers

  predicate IsDigit(c: char) { '0' <= c <= '9' }

  function DigitValue(c: char): (r: nat)
    requires IsDigit(c)
    ensures r < 10
  {
    c as int - '0' as int
  }

  function DigitChar(d: nat): (c: char)
    requires d < 10
    ensures IsDigit(c) && DigitValue(c) == d
  {
    ('0' as int + d) as char
  }

  predicate AllDigits(s: string) { forall i :: 0 <= i < |s| ==> IsDigit(s[i]) }

  /** The value of a run of decimal digits, most significant first. */
  function NatOf(s: string): nat
    requires AllDigits(s)
  {
    if s == [] then 0 else NatOf(s[..|s| - 1]) * 10 + DigitValue(s[|s| - 1])
  }

  /** The decimal numeral of `n`, without leading zeros (`str(n)`). */
  function NatToString(n: nat): (s: string)
    ensures s != [] && AllDigits(s)
    decreases n
  {
    if n < 10 then [DigitChar(n)] else NatToString(n / 10) + [DigitChar(n % 10)]
  }

  lemma {:induction false} NatToStringValue(n: nat)
    ensures NatOf(NatToString(n)) == n
    decreases n
  {
    var s := NatToString(n);
    if n >= 10 {
      assert s[..|s| - 1] == NatToString(n / 10);
      NatToStringValue(n / 10);
    } else {
      assert s[..0] == [];
    }
  }

  /**
   * `int(s)` for text made of an optional sign and at least one decimal digit; Python's
   * extra forms (surrounding blanks, `_` between digits) are refused here.
   */
  function ParseInt(s: string): (r: Option<int>)
    ensures r.Some? && s != [] && IsDigit(s[0]) ==> AllDigits(s) && r.value == NatOf(s)
    ensures r.Some? && s != [] && s[0] == '-' ==> AllDigits(s[1..]) && r.value == -(NatOf(s[1..]) as int)
    ensures r.Some? <==> (AllDigits(s) && s != []) ||
                         (s != [] && (s[0] == '-' || s[0] == '+') && |s| > 1 && AllDigits(s[1..]))
  {
    if s != [] && (s[0] == '-' || s[0] == '+') then
      if |s| > 1 && AllDigits(s[1..]) then Some(if s[0] == '-' then -(NatOf(s[1..]) as int) else NatOf(s[1..])) else None
    else if s != [] && AllDigits(s) then Some(NatOf(s))
    else None
  }

  /** `str(i)`: a minus sign for negative numbers, then the digits. */
  function IntToString(i: int): (s: string)
  {
    if i < 0 then "-" + NatToString(-i) else NatToString(i)
  }

  lemma ParseIntToString(i: int)
    ensures ParseInt(IntToString(i)) == Some(i)
  {
    NatToStringValue(if i < 0 then -i else i);
    if i < 0 {
      assert IntToString(i)[1..] == NatToString(-i);
    }
  }

  predicate IsHexDigit(c: char) { IsDigit(c) || 'a' <= c <= 'f' || 'A' <= c <= 'F' }

  function HexValue(c: char): (r: nat)
    requires IsHexDigit(c)
    ensures r < 16
  {
    if IsDigit(c) then DigitValue(c) else if 'a' <= c <= 'f' then c as int - 'a' as int + 10 else c as int - 'A' as int + 10
  }

  /** The lower-case hexadecimal digit of `d`, as `format(d, "x")` writes it. */
  function HexChar(d: nat): (c: char)
    requires d < 16
    ensures IsHexDigit(c) && HexValue(c) == d
  {
    if d < 10 then DigitChar(d) else ('a' as int + d - 10) as char
  }

  predicate AllHex(s: string) { forall i :: 0 <= i < |s| ==> IsHexDigit(s[i]) }

  /** `int(s, 16)` for a run of hexadecimal digits of either case, most significant first. */
  function HexOf(s: string): nat
    requires AllHex(s)
  {
    if s == [] then 0 else HexOf(s[..|s| - 1]) * 16 + HexValue(s[|s| - 1])
  }

  /**
   * `int(s, 16)` on an optional sign followed by hexadecimal digits. Python also accepts
   * surrounding blanks, `_` between digits and a `0x` prefix; those forms are refused here.
   */
  function ParseHex(s: string): (r: Option<int>)
    ensures r.Some? <==> (s != [] && AllHex(s)) ||
                         (|s| > 1 && (s[0] == '-' || s[0] == '+') && AllHex(s[1..]))
    ensures r.Some? && s[0] == '-' ==> r.value == -(HexOf(s[1..]) as int)
    ensures r.Some? && s[0] == '+' ==> r.value == HexOf(s[1..])
    ensures r.Some? && IsHexDigit(s[0]) ==> r.value == HexOf(s)
  {
    if s != [] && (s[0] == '-' || s[0] == '+') then
      if |s| > 1 && AllHex(s[1..]) then Some(if s[0] == '-' then -(HexOf(s[1..]) as int) else HexOf(s[1..])) else None
    else if s != [] && AllHex(s) then Some(HexOf(s))
    else None
  }

  /** How many times `c` occurs in `s`. */
  function CountChar(s: string, c: char): nat
  {
    if s == [] then 0 else CountChar(s[..|s| - 1], c) + (if s[|s| - 1] == c then 1 else 0)
  }

  lemma {:induction false} CountCharZero(s: string, c: char)
    ensures CountChar(s, c) == 0 <==> c !in s
  {
    if s != [] {
      CountCharZero(s[..|s| - 1], c);
      assert s == s[..|s| - 1] + [s[|s| - 1]];
    }
  }

  lemma {:induction false} CountCharConcat(a: string, b: string, c: char)
    ensures CountChar(a + b, c) == CountChar(a, c) + CountChar(b, c)
    decreases |b|
  {
    if b != [] {
      CountCharConcat(a, b[..|b| - 1], c);
      assert (a + b)[..|a + b| - 1] == a + b[..|b| - 1];
      assert (a + b)[|a + b| - 1] == b[|b| - 1];
    } else {
      assert a + b == a;
    }
  }

  /** The index of the first `c` in `s`, if any (`s.index(c)`, or `None` where it raises). */
  function IndexOf<T(==)>(s: seq<T>, c: T): (r: Option<nat>)
    ensures r.None? <==> c !in s
    ensures r.Some? ==> r.value < |s| && s[r.value] == c && c !in s[..r.value]
  {
    if s == [] then None
    else if s[0] == c then Some(0)
    else match IndexOf(s[1..], c)
      case None => None
      case Some(i) => assert s[1..][..i] == s[1..i + 1]; Some(i + 1)
  }

  /** The first `c` is the one at i exactly when no `c` comes before it. */
  lemma {:induction false} IndexOfAt<T>(s: seq<T>, c: T, i: nat)
    requires i < |s| && s[i] == c && c !in s[..i]
    ensures IndexOf(s, c) == Some(i)
  {
    if i > 0 {
      assert s[0] == s[..i][0];
      assert s[1..][..i - 1] == s[1..i];
      assert forall k :: 0 <= k < i - 1 ==> s[1..i][k] == s[..i][k + 1];
      IndexOfAt(s[1..], c, i - 1);
    }
  }

  /** `s.split(sep)`: the pieces between the separators, empty pieces included. */
  function Split(s: string, sep: char): (r: seq<string>)
    ensures |r| >= 1
    ensures forall k :: 0 <= k < |r| ==> sep !in r[k]
    decreases |s|
  {
    match IndexOf(s, sep)
    case None => [s]
    case Some(i) => [s[..i]] + Split(s[i + 1..], sep)
  }

  /** Splitting at the first separator: the piece before it, then the split of the rest. */
  lemma SplitAt(s: string, sep: char, i: nat)
    requires IndexOf(s, sep) == Some(i)
    ensures Split(s, sep) == [s[..i]] + Split(s[i + 1..], sep)
  {
  }

  /** A trailing separator adds one empty piece at the end. */
  lemma {:induction false} SplitSnoc(x: string, sep: char)
    ensures Split(x + [sep], sep) == Split(x, sep) + [[]]
    decreases |x|
  {
    match IndexOf(x, sep)
    case None => SplitSnocWhole(x, sep);
    case Some(i) =>
      SplitSnoc(x[i + 1..], sep);
      SplitSnocStep(x, sep, i);
  }

  lemma SplitSnocWhole(x: string, sep: char)
    requires sep !in x
    ensures Split(x + [sep], sep) == [x, []]
  {
    var s := x + [sep];
    PrefixIndex(x, sep, []);
    assert x + [sep] + [] == s;
    assert s[|x| + 1..] == [] && s[..|x|] == x;
    assert Split(s, sep) == [x] + Split([], sep);
  }

  lemma SplitSnocStep(x: string, sep: char, i: nat)
    requires IndexOf(x, sep) == Some(i)
    requires Split(x[i + 1..] + [sep], sep) == Split(x[i + 1..], sep) + [[]]
    ensures Split(x + [sep], sep) == Split(x, sep) + [[]]
  {
    SplitSnocHead(x, sep, i);
    SplitAt(x, sep, i);
    var t := Split(x[i + 1..], sep);
    assert [x[..i]] + (t + [[]]) == ([x[..i]] + t) + [[]];
  }

  lemma SplitSnocHead(x: string, sep: char, i: nat)
    requires IndexOf(x, sep) == Some(i)
    ensures Split(x + [sep], sep) == [x[..i]] + Split(x[i + 1..] + [sep], sep)
  {
    AppendSlices(x, [sep], i);
    AppendSlices(x, [sep], i + 1);
    IndexOfAt(x + [sep], sep, i);
    SplitAt(x + [sep], sep, i);
  }

  lemma InitLast<T>(s: seq<T>)
    requires s != []
    ensures s == s[..|s| - 1] + [s[|s| - 1]]
  {
  }

  lemma ConsAssoc<T>(x: T, u: seq<T>, v: seq<T>)
    ensures [x] + (u + v) == ([x] + u) + v
  {
  }

  lemma AppendSlices<T>(x: seq<T>, y: seq<T>, i: nat)
    requires i <= |x|
    ensures (x + y)[..i] == x[..i] && (x + y)[i..] == x[i..] + y
  {
  }

  /** The parts one after another, as `"".join(parts)` or a generator over nested loops. */
  function Flatten<T>(parts: seq<seq<T>>): seq<T>
  {
    if parts == [] then [] else parts[0] + Flatten(parts[1..])
  }

  lemma {:induction false} FlattenSnoc<T>(parts: seq<seq<T>>, last: seq<T>)
    ensures Flatten(parts + [last]) == Flatten(parts) + last
  {
    if parts == [] {
      assert parts + [last] == [last];
    } else {
      assert (parts + [last])[1..] == parts[1..] + [last];
      FlattenSnoc(parts[1..], last);
    }
  }

  /** `sep.join(parts)`. */
  function Join(parts: seq<string>, sep: char): string
  {
    if parts == [] then "" else if |parts| == 1 then parts[0] else parts[0] + [sep] + Join(parts[1..], sep)
  }

  /** Splitting undoes joining when no piece holds the separator. */
  lemma {:induction false} SplitJoin(parts: seq<string>, sep: char)
    requires parts != [] && forall k :: 0 <= k < |parts| ==> sep !in parts[k]
    ensures Split(Join(parts, sep), sep) == parts
  {
    if |parts| == 1 {
      assert IndexOf(parts[0], sep).None?;
    } else {
      var s := Join(parts, sep);
      var rest := Join(parts[1..], sep);
      assert s == parts[0] + [sep] + rest;
      PrefixIndex(parts[0], sep, rest);
      assert s[..|parts[0]|] == parts[0];
      assert s[|parts[0]| + 1..] == rest;
      SplitJoin(parts[1..], sep);
    }
  }

  lemma PrefixIndex(head: string, sep: char, rest: string)
    requires sep !in head
    ensures IndexOf(head + [sep] + rest, sep) == Some(|head|)
  {
    var s := head + [sep] + rest;
    var r := IndexOf(s, sep);
    assert s[|head|] == sep;
    assert r.Some?;
  }

  /** Joining the pieces of a split gives the text back. */
  lemma {:induction false} JoinSplit(s: string, sep: char)
    ensures Join(Split(s, sep), sep) == s
    decreases |s|
  {
    match IndexOf(s, sep)
    case None =>
    case Some(i) =>
      JoinSplit(s[i + 1..], sep);
      var tail := Split(s[i + 1..], sep);
      assert Split(s, sep) == [s[..i]] + tail;
      assert ([s[..i]] + tail)[1..] == tail;
      assert s == s[..i] + [sep] + s[i + 1..];
  }

  /** A character `str.splitlines()` breaks at. */
  predicate IsLineBreak(c: char)
  {
    c == '\n' || c == '\r' || c as int == 0x0b || c as int == 0x0c || c as int == 0x1c ||
    c as int == 0x1d || c as int == 0x1e || c as int == 0x85 || c as int == 0x2028 || c as int == 0x2029
  }

  predicate NoBreak(s: string) { forall k :: 0 <= k < |s| ==> !IsLineBreak(s[k]) }

  /** Where the first line break of `s` is, if it has one. */
  function FirstBreak(s: string): (r: Option<nat>)
    ensures r.None? ==> NoBreak(s)
    ensures r.Some? ==> r.value < |s| && IsLineBreak(s[r.value]) && NoBreak(s[..r.value])
  {
    if s == [] then None
    else if IsLineBreak(s[0]) then Some(0)
    else match FirstBreak(s[1..])
      case None => None
      case Some(i) => assert s[1..][..i] == s[1..i + 1]; Some(i + 1)
  }

  /** The first break is the one at i exactly when no break comes before it. */
  lemma {:induction false} FirstBreakAt(s: string, i: nat)
    requires i < |s| && IsLineBreak(s[i]) && NoBreak(s[..i])
    ensures FirstBreak(s) == Some(i)
  {
    if i > 0 {
      assert s[0] == s[..i][0];
      assert s[1..][..i - 1] == s[1..i];
      assert forall k :: 0 <= k < i - 1 ==> s[1..i][k] == s[..i][k + 1];
      FirstBreakAt(s[1..], i - 1);
    }
  }

  /**
   * `s.splitlines()`: the lines between the line breaks, where `\r\n` is one break and a
   * break at the very end opens no further line.
   */
  function SplitLines(s: string): (r: seq<string>)
    ensures forall k :: 0 <= k < |r| ==> NoBreak(r[k])
    ensures r == [] <==> s == []
    decreases |s|
  {
    if s == [] then []
    else match FirstBreak(s)
      case None => [s]
      case Some(i) =>
        var next := if s[i] == '\r' && i + 1 < |s| && s[i + 1] == '\n' then i + 2 else i + 1;
        [s[..i]] + SplitLines(s[next..])
  }

  /** Cutting text written one row per line gives the rows back, when the last row is not empty. */
  lemma {:induction false} SplitLinesJoin(lines: seq<string>)
    requires forall k :: 0 <= k < |lines| ==> NoBreak(lines[k])
    requires lines != [] ==> lines[|lines| - 1] != []
    ensures SplitLines(Join(lines, '\n')) == lines
  {
    if |lines| == 1 {
      assert Join(lines, '\n') == lines[0];
    } else if |lines| > 1 {
      var s := Join(lines, '\n');
      var rest := Join(lines[1..], '\n');
      assert s == lines[0] + ['\n'] + rest;
      assert s[..|lines[0]|] == lines[0];
      FirstBreakAt(s, |lines[0]|);
      assert s[|lines[0]| + 1..] == rest;
      SplitLinesJoin(lines[1..]);
    }
  }

  /**
   * A character `str.strip()` removes, among the ASCII ones: tab, line feed, vertical tab,
   * form feed, carriage return, the separators 0x1c-0x1f and space.
   */
  predicate IsSpace(c: char)
  {
    '\t' <= c <= '\r' || '\U{1c}' <= c <= ' '
  }

  predicate Blank(s: string) { forall k :: 0 <= k < |s| ==> IsSpace(s[k]) }

  /** `s.strip()`: the text without its leading and trailing blanks. */
  function Strip(s: string): (r: string)
    ensures |r| <= |s|
    ensures r != [] ==> !IsSpace(r[0]) && !IsSpace(r[|r| - 1])
  {
    var head := StripStart(s);
    var r := StripEnd(head);
    assert r != [] ==> r[0] == head[0];
    r
  }

  /** What `strip` removes is a run of blanks at each end: the rest is a slice of the text. */
  lemma StripSlice(s: string)
    ensures exists i, j :: TrimmedAt(s, Strip(s), i, j)
  {
    var head := StripStart(s);
    var r := StripEnd(head);
    var i := |s| - |head|;
    var j := i + |r|;
    StripParts(s);
    assert TrimmedAt(s, Strip(s), i, j);
  }

  /** `r` is `s[i..j]` with only blanks around it. */
  ghost predicate TrimmedAt(s: string, r: string, i: int, j: int)
  {
    0 <= i <= j <= |s| && r == s[i..j] && Blank(s[..i]) && Blank(s[j..])
  }

  lemma StripParts(s: string)
    ensures TrimmedAt(s, StripEnd(StripStart(s)), |s| - |StripStart(s)|, |s| - |StripStart(s)| + |StripEnd(StripStart(s))|)
  {
    TrimParts(s, StripStart(s), StripEnd(StripStart(s)));
  }

  /** A suffix `head` of `s` after blanks, cut to a prefix `r` before blanks, is a trimmed slice of `s`. */
  lemma TrimParts(s: string, head: string, r: string)
    requires |head| <= |s| && head == s[|s| - |head|..] && Blank(s[..|s| - |head|])
    requires |r| <= |head| && r == head[..|r|] && Blank(head[|r|..])
    ensures TrimmedAt(s, r, |s| - |head|, |s| - |head| + |r|)
  {
    var i := |s| - |head|;
    DropSlices(s, i, |r|);
    assert s[i + |r|..] == head[|r|..];
  }

  lemma DropSlices<T>(s: seq<T>, i: nat, n: nat)
    requires i + n <= |s|
    ensures s[i..][..n] == s[i..i + n] && s[i..][n..] == s[i + n..]
  {
  }

  function StripStart(s: string): (r: string)
    ensures |r| <= |s| && r == s[|s| - |r|..]
    ensures Blank(s[..|s| - |r|])
    ensures r != [] ==> !IsSpace(r[0])
  {
    if s != [] && IsSpace(s[0]) then StripStart(s[1..]) else s
  }

  function StripEnd(s: string): (r: string)
    ensures |r| <= |s| && r == s[..|r|]
    ensures Blank(s[|r|..])
    ensures r != [] ==> !IsSpace(r[|r| - 1])
  {
    if s != [] && IsSpace(s[|s| - 1]) then StripEnd(s[..|s| - 1]) else s
  }

  /** Text without blanks at either end is its own strip. */
  lemma StripTrimmed(s: string)
    requires s != [] ==> !IsSpace(s[0]) && !IsSpace(s[|s| - 1])
    ensures Strip(s) == s
  {
  }

  /** `s.replace(c, "")`: the text with every `c` taken out. */
  function RemoveChar(s: string, c: char): (r: string)
    ensures c !in r && |r| <= |s|
  {
    if s == [] then [] else RemoveChar(s[..|s| - 1], c) + (if s[|s| - 1] == c then [] else [s[|s| - 1]])
  }

  lemma {:induction false} RemoveCharConcat(a: string, b: string, c: char)
    ensures RemoveChar(a + b, c) == RemoveChar(a, c) + RemoveChar(b, c)
  {
    if b == [] {
      assert a + b == a;
    } else {
      assert (a + b)[..|a + b| - 1] == a + b[..|b| - 1];
      RemoveCharConcat(a, b[..|b| - 1], c);
    }
  }

  lemma RemoveCharLast(s: string, c: char)
    ensures RemoveChar(s + [c], c) == RemoveChar(s, c)
  {
    assert (s + [c])[..|s|] == s;
  }

  lemma RemoveCharFirst(s: string, c: char)
    ensures RemoveChar([c] + s, c) == RemoveChar(s, c)
  {
    RemoveCharConcat([c], s, c);
    assert [c][..0] == [];
  }

  /** Taking out a character the text does not hold changes nothing. */
  lemma {:induction false} RemoveCharAbsent(s: string, c: char)
    requires c !in s
    ensures RemoveChar(s, c) == s
  {
    if s != [] {
      RemoveCharAbsent(s[..|s| - 1], c);
    }
  }

  /** A character that is neither the separator nor in any piece is not in their join. */
  lemma {:induction false} JoinAvoids(parts: seq<string>, sep: char, c: char)
    requires c != sep && forall k :: 0 <= k < |parts| ==> c !in parts[k]
    ensures c !in Join(parts, sep)
  {
    if |parts| > 1 {
      JoinAvoids(parts[1..], sep, c);
    }
  }

  /** `filter(bool, [it.strip() for it in lines])`: the stripped lines that are not empty. */
  function Lines(input: seq<string>): (r: seq<string>)
    ensures |r| <= |input|
    ensures forall k :: 0 <= k < |r| ==> r[k] != []
  {
    if input == [] then []
    else
      var rest := Lines(input[1..]);
      var line := Strip(input[0]);
      if line == [] then rest else [line] + rest
  }
}
