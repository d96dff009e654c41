/**
 * Lens library (day15): the 8-bit string hash, and the 256 boxes of labelled lenses that
 * `name-` and `name=n` commands edit.
 */
module LensLibrary {
  import opened Wrappers
  import opened Text

  // The hash.

  /** One character of `hash_str`: add the code point, times 17, modulo 256. */
  function Step(h: int, c: char): (r: nat)
    ensures r < 256
  {
    (h + c as int) * 17 % 256
  }

  /** `hash_str`, character by character from 0. */
  function HashOf(s: string): (h: nat)
    ensures h < 256
  {
    if s == [] then 0 else Step(HashOf(s[..|s| - 1]), s[|s| - 1])
  }

  /** The same hash, carried on from a running value `h` (the loop of `hash_str` from any point). */
  function HashFrom(h: int, s: string): int
    decreases |s|
  {
    if s == [] then h else HashFrom(Step(h, s[0]), s[1..])
  }

  /** The hash of a concatenation continues from the hash of its first half. */
  lemma {:induction false} HashConcat(a: string, b: string)
    ensures HashOf(a + b) == HashFrom(HashOf(a), b)
    decreases |b|
  {
    if b != [] {
      var c := b[0];
      assert a + b == (a + [c]) + b[1..];
      assert (a + [c])[..|a|] == a;
      assert HashOf(a + [c]) == Step(HashOf(a), c);
      assert HashFrom(HashOf(a), b) == HashFrom(Step(HashOf(a), c), b[1..]);
      HashConcat(a + [c], b[1..]);
    } else {
      assert a + b == a;
    }
  }

  /** `hash_str`. */
  method HashStr(s: string) returns (h: nat)
    ensures h == HashOf(s) && h < 256
  {
    h := 0;
    var i := 0;
    while i < |s|
      invariant 0 <= i <= |s| && h == HashOf(s[..i])
    {
      assert s[..i + 1][..i] == s[..i];
      h := h + s[i] as int;
      h := h * 17;
      h := h % 256;
      assert h == Step(HashOf(s[..i]), s[i]);
      i := i + 1;
    }
    assert s[..i] == s;
  }

  // The boxes.

  /** The value stored under a name: an id (always 1000, see `HashmapCmd`) and the focal length. */
  datatype Lens = Lens(id: int, focal: int)

  /** A box is an ordered dict from name to lens; a new name goes last. */
  type Box = seq<(string, Lens)>

  function Labels(box: Box): set<string>
  {
    set i | 0 <= i < |box| :: box[i].0
  }

  predicate DistinctLabels(box: Box)
  {
    forall i, j :: 0 <= i < j < |box| ==> box[i].0 != box[j].0
  }

  /** Where `name` sits in the box, if it is there. */
  function Slot(box: Box, name: string): (r: Option<nat>)
    ensures r.None? <==> name !in Labels(box)
    ensures r.Some? ==> r.value < |box| && box[r.value].0 == name
    ensures r.Some? ==> forall i :: 0 <= i < r.value ==> box[i].0 != name
  {
    if box == [] then None
    else if box[0].0 == name then Some(0)
    else match Slot(box[1..], name)
      case None =>
        assert Labels(box) == {box[0].0} + Labels(box[1..]) by {
          assert forall i :: 1 <= i < |box| ==> box[i] == box[1..][i - 1];
        }
        None
      case Some(i) =>
        assert box[1..][i] == box[i + 1];
        Some(i + 1)
  }

  /** `del box[name]`: every entry with another name stays, in order. */
  function Remove(box: Box, name: string): (r: Box)
    ensures Labels(r) == Labels(box) - {name}
    ensures DistinctLabels(box) ==> DistinctLabels(r)
    ensures name !in Labels(box) ==> r == box
    ensures |r| <= |box|
    ensures forall i :: 0 <= i < |r| ==> r[i] in box
  {
    if box == [] then []
    else
      var init, last := box[..|box| - 1], box[|box| - 1];
      var rest := Remove(init, name);
      assert Labels(box) == Labels(init) + {last.0} && (forall i :: 0 <= i < |rest| ==> rest[i] in box) by {
        LabelsLast(box);
      }
      if last.0 == name then rest
      else
        assert (DistinctLabels(box) ==> DistinctLabels(rest + [last])) && Labels(rest + [last]) == Labels(rest) + {last.0} by {
          KeepLast(box, name, rest);
        }
        assert name !in Labels(box) ==> rest + [last] == box;
        rest + [last]
  }

  /** In a box with distinct names, `del box[name]` cuts out exactly the entry's slot and keeps the order of the others. */
  lemma {:induction false} RemoveSlot(box: Box, name: string)
    ensures DistinctLabels(box) && Slot(box, name).Some? ==>
      Remove(box, name) == box[..Slot(box, name).value] + box[Slot(box, name).value + 1..]
  {
    if box != [] {
      var init := box[..|box| - 1];
      RemoveSlot(init, name);
      if box[|box| - 1].0 == name {
        RemoveDropsLast(box, name, Remove(init, name));
      } else {
        RemoveKeepsLast(box, name, Remove(init, name));
      }
    }
  }

  /** When the last entry is the one removed, a box with distinct names loses exactly that slot. */
  lemma RemoveDropsLast(box: Box, name: string, rest: Box)
    requires box != [] && box[|box| - 1].0 == name
    requires name !in Labels(box[..|box| - 1]) ==> rest == box[..|box| - 1]
    ensures DistinctLabels(box) && Slot(box, name).Some? ==>
      rest == box[..Slot(box, name).value] + box[Slot(box, name).value + 1..]
  {
    LabelsLast(box);
    if DistinctLabels(box) && Slot(box, name).Some? {
      assert Slot(box, name).value == |box| - 1;
    }
  }

  /** When the last entry stays, the slot removed from the front part is the box's own slot. */
  lemma RemoveKeepsLast(box: Box, name: string, rest: Box)
    requires box != [] && box[|box| - 1].0 != name
    requires DistinctLabels(box[..|box| - 1]) && Slot(box[..|box| - 1], name).Some? ==>
      rest == box[..|box| - 1][..Slot(box[..|box| - 1], name).value] + box[..|box| - 1][Slot(box[..|box| - 1], name).value + 1..]
    ensures DistinctLabels(box) && Slot(box, name).Some? ==>
      rest + [box[|box| - 1]] == box[..Slot(box, name).value] + box[Slot(box, name).value + 1..]
  {
    if DistinctLabels(box) && Slot(box, name).Some? {
      LabelsLast(box);
      SlotBeforeLast(box, name);
      SnocCut(box[..|box| - 1], box[|box| - 1], Slot(box, name).value);
    }
  }

  /** A name found before the last entry sits at the same slot once the last entry is dropped. */
  lemma SlotBeforeLast(box: Box, name: string)
    requires box != [] && box[|box| - 1].0 != name && Slot(box, name).Some?
    ensures Slot(box[..|box| - 1], name) == Slot(box, name)
  {
    var init := box[..|box| - 1];
    var s := Slot(box, name).value;
    assert init[s].0 == name;
    assert name in Labels(init);
  }

  /** Cutting slot `s` out of `xs` and then appending `x` is cutting it out of `xs + [x]`. */
  lemma SnocCut<T>(xs: seq<T>, x: T, s: nat)
    requires s < |xs|
    ensures xs[..s] + xs[s + 1..] + [x] == (xs + [x])[..s] + (xs + [x])[s + 1..]
  {
    assert (xs + [x])[..s] == xs[..s];
    assert (xs + [x])[s + 1..] == xs[s + 1..] + [x];
  }

  lemma KeepLast(box: Box, name: string, rest: Box)
    requires box != [] && box[|box| - 1].0 != name
    requires Labels(rest) == Labels(box[..|box| - 1]) - {name}
    requires DistinctLabels(box[..|box| - 1]) ==> DistinctLabels(rest)
    ensures DistinctLabels(box) ==> DistinctLabels(rest + [box[|box| - 1]])
    ensures Labels(rest + [box[|box| - 1]]) == Labels(rest) + {box[|box| - 1].0}
  {
    LabelsLast(box);
    LabelsLast(rest + [box[|box| - 1]]);
  }

  lemma LabelsLast(box: Box)
    requires box != []
    ensures box[..|box| - 1] + [box[|box| - 1]] == box
    ensures Labels(box) == Labels(box[..|box| - 1]) + {box[|box| - 1].0}
    ensures forall x :: x in box[..|box| - 1] ==> x in box
    ensures DistinctLabels(box) <==> DistinctLabels(box[..|box| - 1]) && box[|box| - 1].0 !in Labels(box[..|box| - 1])
  {
    var init := box[..|box| - 1];
    assert forall i :: 0 <= i < |init| ==> box[i] == init[i];
  }

  /** `box[name] = lens`: a known name keeps its slot and takes the new lens; a new one goes last. */
  function Assign(box: Box, name: string, lens: Lens): (r: Box)
    ensures Labels(r) == Labels(box) + {name}
    ensures DistinctLabels(box) ==> DistinctLabels(r)
    ensures name in Labels(box) ==> |r| == |box| && Slot(r, name) == Slot(box, name)
    ensures name !in Labels(box) ==> r == box + [(name, lens)]
    ensures forall i :: 0 <= i < |box| && box[i].0 != name ==> r[i] == box[i]
    ensures forall i :: 0 <= i < |r| ==> r[i] in box || r[i] == (name, lens)
    ensures Slot(r, name).Some? && r[Slot(r, name).value].1 == lens
  {
    match Slot(box, name)
    case None =>
      var r := box + [(name, lens)];
      assert Labels(r) == Labels(box) + {name} by {
        assert forall i :: 0 <= i < |box| ==> r[i] == box[i];
        assert r[|box|].0 == name;
      }
      r
    case Some(i) =>
      var r := box[i := (name, lens)];
      assert forall j :: 0 <= j < |box| ==> r[j].0 == box[j].0;
      assert Labels(r) == Labels(box);
      r
  }

  /** `create_boxes`. */
  function CreateBoxes(): (r: seq<Box>)
    ensures |r| == 256 && forall b :: 0 <= b < 256 ==> r[b] == []
  {
    seq(256, _ => [])
  }

  // One command.

  predicate IsSep(c: char) { c == '-' || c == '=' }

  /** The first `-` or `=` of the text. */
  function FirstSep(s: string): (r: Option<nat>)
    ensures r.None? <==> forall k :: 0 <= k < |s| ==> !IsSep(s[k])
    ensures r.Some? ==> r.value < |s| && IsSep(s[r.value]) && forall k :: 0 <= k < r.value ==> !IsSep(s[k])
  {
    if s == [] then None
    else if IsSep(s[0]) then Some(0)
    else match FirstSep(s[1..])
      case None =>
        assert forall k :: 1 <= k < |s| ==> s[k] == s[1..][k - 1];
        None
      case Some(i) =>
        assert forall k :: 1 <= k <= i ==> s[k] == s[1..][k - 1];
        Some(i + 1)
  }

  /** `re.split(r"[-=]", cmd)[0]`: the text up to the first separator. */
  function Label(cmd: string): (r: string)
    ensures forall k :: 0 <= k < |r| ==> !IsSep(r[k])
    ensures r <= cmd
  {
    match FirstSep(cmd)
    case None => cmd
    case Some(i) => cmd[..i]
  }

  /** `(re.split(r"[-=]", cmd) + [""])[1]`: the text between the first and second separators. */
  function FocalText(cmd: string): (r: string)
    ensures FirstSep(cmd).None? ==> r == ""
    ensures forall k :: 0 <= k < |r| ==> !IsSep(r[k])
  {
    match FirstSep(cmd)
    case None => ""
    case Some(i) => Label(cmd[i + 1..])
  }

  datatype CmdError =
    | BadFocalLength(text: string)  // `int(focal_len)` raised ValueError
    | NoBox(index: nat)             // `new_boxes[box_idx]` raised IndexError

  /**
   * `hashmap_cmd`: a command holding `-` removes its name from box `HashOf(name)`; otherwise
   * one holding `=` stores `(1000, n)` under its name there (the id is reset to 1000 on every
   * call); any other command changes nothing. The boxes are copied, so the result is a new list.
   */
  function HashmapCmd(boxes: seq<Box>, cmd: string): (r: Result<seq<Box>, CmdError>)
    ensures r.Ok? ==> |r.value| == |boxes|
    ensures r.Ok? ==> forall b :: 0 <= b < |boxes| && b != HashOf(Label(cmd)) ==> r.value[b] == boxes[b]
    ensures r == Err(NoBox(HashOf(Label(cmd)))) <==> HashOf(Label(cmd)) >= |boxes| && ('-' in cmd || ('=' in cmd && ParseInt(FocalText(cmd)).Some?))
    ensures r.Err? && r.error.BadFocalLength? <==> '-' !in cmd && '=' in cmd && ParseInt(FocalText(cmd)).None?
    ensures r.Err? && r.error.BadFocalLength? ==> r.error.text == FocalText(cmd)
    ensures '-' !in cmd && '=' !in cmd ==> r == Ok(boxes)
    ensures r.Ok? && '-' in cmd ==> r.value[HashOf(Label(cmd))] == Remove(boxes[HashOf(Label(cmd))], Label(cmd))
    ensures r.Ok? && '-' !in cmd && '=' in cmd ==>
              r.value[HashOf(Label(cmd))] == Assign(boxes[HashOf(Label(cmd))], Label(cmd), Lens(1000, ParseInt(FocalText(cmd)).value))
  {
    var name := Label(cmd);
    var idx := HashOf(name);
    if '-' in cmd then
      if idx >= |boxes| then Err(NoBox(idx))
      else if name in Labels(boxes[idx]) then Ok(boxes[idx := Remove(boxes[idx], name)])
      else Ok(boxes)
    else if '=' in cmd then
      match ParseInt(FocalText(cmd))
      case None => Err(BadFocalLength(FocalText(cmd)))
      case Some(n) =>
        if idx >= |boxes| then Err(NoBox(idx))
        else Ok(boxes[idx := Assign(boxes[idx], name, Lens(1000, n))])
    else Ok(boxes)
  }

  /** The commands applied one after the other, stopping at the first error. */
  function RunCommands(boxes: seq<Box>, cmds: seq<string>): (r: Result<seq<Box>, CmdError>)
    ensures r.Ok? ==> |r.value| == |boxes|
    decreases |cmds|
  {
    if cmds == [] then Ok(boxes)
    else match HashmapCmd(boxes, cmds[0])
      case Err(e) => Err(e)
      case Ok(next) => RunCommands(next, cmds[1..])
  }

  /**
   * The state the commands keep: 256 boxes, each name at most once per box, every name in the
   * box its hash names, and every id 1000.
   */
  predicate Filed(boxes: seq<Box>)
  {
    && |boxes| == 256
    && (forall b :: 0 <= b < 256 ==> DistinctLabels(boxes[b]))
    && (forall b, i :: 0 <= b < 256 && 0 <= i < |boxes[b]| ==> HashOf(boxes[b][i].0) == b)
    && (forall b, i :: 0 <= b < 256 && 0 <= i < |boxes[b]| ==> boxes[b][i].1.id == 1000)
  }

  lemma CreateBoxesFiled()
    ensures Filed(CreateBoxes())
  {
  }

  /** Every command keeps the boxes filed, and so no command sequence from there meets `NoBox`. */
  lemma HashmapCmdFiled(boxes: seq<Box>, cmd: string)
    requires Filed(boxes)
    ensures HashmapCmd(boxes, cmd).Ok? || HashmapCmd(boxes, cmd).error.BadFocalLength?
    ensures HashmapCmd(boxes, cmd).Ok? ==> Filed(HashmapCmd(boxes, cmd).value)
  {
    var r := HashmapCmd(boxes, cmd);
    var name := Label(cmd);
    var idx := HashOf(name);
    if r.Ok? {
      var box, nb := boxes[idx], r.value[idx];
      assert forall i :: 0 <= i < |nb| ==> (nb[i] in box || nb[i].0 == name) && (nb[i] in box || nb[i].1.id == 1000);
      forall i | 0 <= i < |nb| ensures HashOf(nb[i].0) == idx && nb[i].1.id == 1000 {
        if nb[i] in box {
          var j :| 0 <= j < |box| && box[j] == nb[i];
          assert HashOf(box[j].0) == idx;
        }
      }
    }
  }

  lemma {:induction false} RunCommandsFiled(boxes: seq<Box>, cmds: seq<string>)
    requires Filed(boxes)
    ensures RunCommands(boxes, cmds).Ok? || RunCommands(boxes, cmds).error.BadFocalLength?
    ensures RunCommands(boxes, cmds).Ok? ==> Filed(RunCommands(boxes, cmds).value)
    decreases |cmds|
  {
    if cmds != [] {
      HashmapCmdFiled(boxes, cmds[0]);
      if HashmapCmd(boxes, cmds[0]).Ok? {
        RunCommandsFiled(HashmapCmd(boxes, cmds[0]).value, cmds[1..]);
      }
    }
  }

  // Focusing power.

  predicate SortedById(lenses: seq<Lens>)
  {
    forall i, j :: 0 <= i < j < |lenses| ==> lenses[i].id <= lenses[j].id
  }

  /** Insert after every lens of no greater id, as a stable sort does. */
  function InsertById(sorted: seq<Lens>, x: Lens): seq<Lens>
  {
    if sorted == [] || sorted[|sorted| - 1].id <= x.id then sorted + [x]
    else InsertById(sorted[..|sorted| - 1], x) + [sorted[|sorted| - 1]]
  }

  lemma {:induction false} InsertByIdOrdered(sorted: seq<Lens>, x: Lens)
    requires SortedById(sorted)
    ensures |InsertById(sorted, x)| == |sorted| + 1
    ensures InsertById(sorted, x)[|sorted|] == x || (sorted != [] && InsertById(sorted, x)[|sorted|] == sorted[|sorted| - 1])
    ensures SortedById(InsertById(sorted, x))
  {
    if sorted != [] && sorted[|sorted| - 1].id > x.id {
      var n := |sorted| - 1;
      var rest := InsertById(sorted[..n], x);
      assert forall i :: 0 <= i < n ==> sorted[..n][i] == sorted[i];
      InsertByIdOrdered(sorted[..n], x);
      assert rest[n].id <= sorted[n].id;
      assert forall i :: 0 <= i < n ==> rest[i].id <= rest[n].id;
    }
  }

  lemma {:induction false} InsertByIdCount(sorted: seq<Lens>, x: Lens)
    ensures multiset(InsertById(sorted, x)) == multiset(sorted) + multiset{x}
  {
    if sorted != [] && sorted[|sorted| - 1].id > x.id {
      var n := |sorted| - 1;
      InsertByIdCount(sorted[..n], x);
      assert sorted == sorted[..n] + [sorted[n]];
    }
  }

  /** `sorted(lenses, key=itemgetter(0))`: a stable insertion sort on the id. */
  function SortById(lenses: seq<Lens>): seq<Lens>
  {
    if lenses == [] then [] else InsertById(SortById(lenses[..|lenses| - 1]), lenses[|lenses| - 1])
  }

  /** Sorting gives a permutation ordered by id. */
  lemma {:induction false} SortByIdFacts(lenses: seq<Lens>)
    ensures SortedById(SortById(lenses)) && multiset(SortById(lenses)) == multiset(lenses)
  {
    if lenses != [] {
      var n := |lenses| - 1;
      SortByIdFacts(lenses[..n]);
      InsertByIdOrdered(SortById(lenses[..n]), lenses[n]);
      InsertByIdCount(SortById(lenses[..n]), lenses[n]);
      assert lenses == lenses[..n] + [lenses[n]];
    }
  }

  /** The sort is stable: lenses that all share one id keep their order. */
  lemma {:induction false} SortSameId(lenses: seq<Lens>, id: int)
    requires forall i :: 0 <= i < |lenses| ==> lenses[i].id == id
    ensures SortById(lenses) == lenses
  {
    if lenses != [] {
      var init := lenses[..|lenses| - 1];
      SortSameId(init, id);
      assert lenses == init + [lenses[|lenses| - 1]];
    }
  }

  function Lenses(box: Box): (r: seq<Lens>)
    ensures |r| == |box| && forall i :: 0 <= i < |box| ==> r[i] == box[i].1
  {
    seq(|box|, i requires 0 <= i < |box| => box[i].1)
  }

  /** The power of one box's lenses in slot order: slot `s` (from 0) weighs `1 + s`. */
  function SlotPower(lenses: seq<Lens>): int
  {
    if lenses == [] then 0 else SlotPower(lenses[..|lenses| - 1]) + |lenses| * lenses[|lenses| - 1].focal
  }

  /** `calc_focus_power`: box `b` (from 0) weighs `1 + b`; its lenses are taken sorted by id. */
  function FocusPower(boxes: seq<Box>): int
  {
    if boxes == [] then 0
    else FocusPower(boxes[..|boxes| - 1]) + |boxes| * SlotPower(SortById(Lenses(boxes[|boxes| - 1])))
  }

  /** With every id 1000, the slots are the insertion order of the labels. */
  lemma FiledSlots(boxes: seq<Box>, b: nat)
    requires Filed(boxes) && b < 256
    ensures SortById(Lenses(boxes[b])) == Lenses(boxes[b])
  {
    SortSameId(Lenses(boxes[b]), 1000);
  }

  /** Re-assigning a name only changes that lens's contribution, in the same slot. */
  lemma {:induction false} SlotPowerUpdate(lenses: seq<Lens>, s: nat, lens: Lens)
    requires s < |lenses|
    ensures SlotPower(lenses[s := lens]) == SlotPower(lenses) + (1 + s) * (lens.focal - lenses[s].focal)
  {
    var n := |lenses|;
    var u := lenses[s := lens];
    if s == n - 1 {
      assert u[..n - 1] == lenses[..n - 1];
    } else {
      assert u[..n - 1] == lenses[..n - 1][s := lens];
      SlotPowerUpdate(lenses[..n - 1], s, lens);
    }
  }

  lemma {:induction false} FocusPowerEmpty(boxes: seq<Box>)
    requires forall b :: 0 <= b < |boxes| ==> boxes[b] == []
    ensures FocusPower(boxes) == 0
  {
    if boxes != [] {
      FocusPowerEmpty(boxes[..|boxes| - 1]);
    }
  }

  /** `calc_focus_power`, with its two loops. */
  method CalcFocusPower(boxes: seq<Box>) returns (result: int)
    ensures result == FocusPower(boxes)
  {
    result := 0;
    var b := 0;
    while b < |boxes|
      invariant 0 <= b <= |boxes| && result == FocusPower(boxes[..b])
    {
      var lenses := SortById(Lenses(boxes[b]));
      var s := 0;
      while s < |lenses|
        invariant 0 <= s <= |lenses| && result == FocusPower(boxes[..b]) + Weighted(1 + b, SlotPower(lenses[..s]))
      {
        SlotStep(1 + b, lenses, s);
        result := result + (1 + b) * (1 + s) * lenses[s].focal;
        s := s + 1;
      }
      assert lenses[..s] == lenses;
      BoxStep(boxes, b);
      b := b + 1;
    }
    assert boxes[..b] == boxes;
  }

  function Weighted(w: int, x: int): int { w * x }

  lemma SlotStep(w: int, lenses: seq<Lens>, s: nat)
    requires s < |lenses|
    ensures Weighted(w, SlotPower(lenses[..s + 1])) == Weighted(w, SlotPower(lenses[..s])) + w * (1 + s) * lenses[s].focal
  {
    assert lenses[..s + 1][..s] == lenses[..s];
    var x, y, f := SlotPower(lenses[..s]), 1 + s, lenses[s].focal;
    assert SlotPower(lenses[..s + 1]) == x + y * f;
    assert w * (x + y * f) == w * x + w * y * f;
  }

  lemma BoxStep(boxes: seq<Box>, b: nat)
    requires b < |boxes|
    ensures FocusPower(boxes[..b + 1]) == FocusPower(boxes[..b]) + Weighted(1 + b, SlotPower(SortById(Lenses(boxes[b]))))
  {
    assert boxes[..b + 1][..b] == boxes[..b];
  }
}
