/**
 * Pulse propagation (day20): flip-flops, conjunctions and a broadcaster wired by name, and the
 * store that queues pulses and delivers them in the order they were sent.
 */
module Pulses {
  import opened Wrappers

  /** `(src, level, dest)`; `high` is the level. */
  datatype Pulse = Pulse(src: string, high: bool, dest: string)

  /**
   * A module's wiring and state. A flip-flop keeps whether it is on; a conjunction keeps the
   * sources whose last pulse was high (the keys of its `state` dict).
   */
  datatype Module =
    | Broadcaster(outputs: seq<string>)
    | FlipFlop(outputs: seq<string>, on: bool)
    | Conjunction(inputs: seq<string>, outputs: seq<string>, remembered: set<string>)

  // One module receiving one pulse.

  /**
   * `send(pulse)`: the new module and the level it sends to all its outputs, if it sends.
   * A broadcaster forwards the level; a flip-flop ignores a high pulse and flips on a low
   * one, sending its new state; a conjunction records the source's level and sends low
   * exactly when it remembers as many high sources as it has inputs.
   */
  function Receive(m: Module, p: Pulse): (r: (Module, Option<bool>))
    ensures r.0.outputs == m.outputs
    ensures r.0.Broadcaster? == m.Broadcaster? && r.0.FlipFlop? == m.FlipFlop? && r.0.Conjunction? == m.Conjunction?
    ensures m.Conjunction? ==> r.0.inputs == m.inputs
    ensures r.1.None? <==> m.FlipFlop? && p.high
  {
    match m
    case Broadcaster(_) => (m, Some(p.high))
    case FlipFlop(_, on) => if p.high then (m, None) else (m.(on := !on), Some(!on))
    case Conjunction(inputs, _, remembered) =>
      var now := if p.high then remembered + {p.src} else remembered - {p.src};
      (m.(remembered := now), Some(|now| != |inputs|))
  }

  /** Two low pulses leave a flip-flop as it was. */
  lemma FlipFlopTwice(m: Module, p: Pulse, q: Pulse)
    requires m.FlipFlop? && !p.high && !q.high
    ensures Receive(Receive(m, p).0, q).0 == m
  {
  }

  /** The sources whose most recent pulse in `history` was high. */
  function LastHigh(history: seq<Pulse>): set<string>
  {
    if history == [] then {}
    else
      var p := history[|history| - 1];
      if p.high then LastHigh(history[..|history| - 1]) + {p.src} else LastHigh(history[..|history| - 1]) - {p.src}
  }

  /** The conjunction after the pulses of `history`, one after the other. */
  function ReceiveAll(m: Module, history: seq<Pulse>): (r: Module)
    requires m.Conjunction?
    ensures r.Conjunction? && r.inputs == m.inputs && r.outputs == m.outputs
  {
    if history == [] then m else Receive(ReceiveAll(m, history[..|history| - 1]), history[|history| - 1]).0
  }

  /** A conjunction that starts empty remembers exactly the sources whose last pulse was high. */
  lemma {:induction false} ConjunctionMemory(m: Module, history: seq<Pulse>)
    requires m.Conjunction? && m.remembered == {}
    ensures ReceiveAll(m, history).remembered == LastHigh(history)
  {
    if history != [] {
      ConjunctionMemory(m, history[..|history| - 1]);
    }
  }

  /**
   * With distinct inputs, and pulses only from those inputs, a conjunction sends low exactly
   * when the last pulse of every input was high.
   */
  lemma ConjunctionSendsLow(m: Module, history: seq<Pulse>, p: Pulse)
    requires m.Conjunction? && m.remembered == {}
    requires forall i, j :: 0 <= i < j < |m.inputs| ==> m.inputs[i] != m.inputs[j]
    requires forall k :: 0 <= k < |history| ==> history[k].src in m.inputs
    requires p.src in m.inputs
    ensures Receive(ReceiveAll(m, history), p).1 == Some(false) <==>
            forall k :: 0 <= k < |m.inputs| ==> m.inputs[k] in LastHigh(history + [p])
  {
    var h := history + [p];
    assert h[..|h| - 1] == history;
    ConjunctionMemory(m, history);
    assert ReceiveAll(m, h) == Receive(ReceiveAll(m, history), p).0;
    ConjunctionMemory(m, h);
    assert LastHigh(h) <= Names(m.inputs) by {
      LastHighFrom(h, m.inputs);
    }
    FullCount(LastHigh(h), m.inputs);
  }

  /** A subset as large as its superset is all of it. */
  lemma SubsetSameSize(a: set<string>, b: set<string>)
    requires a <= b && |a| == |b|
    ensures a == b
  {
    assert a * b == a && a + b == b;
    assert |b - a| == 0;
  }

  function Names(s: seq<string>): set<string>
  {
    set k | 0 <= k < |s| :: s[k]
  }

  /** Among distinct names, a subset as large as the whole list holds every name. */
  lemma FullCount(remembered: set<string>, inputs: seq<string>)
    requires forall i, j :: 0 <= i < j < |inputs| ==> inputs[i] != inputs[j]
    requires remembered <= Names(inputs)
    ensures |remembered| == |inputs| <==> forall k :: 0 <= k < |inputs| ==> inputs[k] in remembered
  {
    DistinctSize(inputs);
    assert forall k :: 0 <= k < |inputs| ==> inputs[k] in Names(inputs);
    if |remembered| == |inputs| {
      SubsetSameSize(remembered, Names(inputs));
    }
    if forall k :: 0 <= k < |inputs| ==> inputs[k] in remembered {
      assert Names(inputs) <= remembered;
      assert remembered == Names(inputs);
    }
  }

  lemma {:induction false} LastHighFrom(history: seq<Pulse>, names: seq<string>)
    requires forall k :: 0 <= k < |history| ==> history[k].src in names
    ensures LastHigh(history) <= Names(names)
  {
    if history != [] {
      LastHighFrom(history[..|history| - 1], names);
    }
  }

  lemma {:induction false} DistinctSize(s: seq<string>)
    requires forall i, j :: 0 <= i < j < |s| ==> s[i] != s[j]
    ensures |Names(s)| == |s|
  {
    if s != [] {
      var init := s[..|s| - 1];
      DistinctSize(init);
      NamesSnoc(s);
    }
  }

  /** The names of a list are those of all but its last entry, plus the last, which is new. */
  lemma NamesSnoc(s: seq<string>)
    requires s != [] && forall i, j :: 0 <= i < j < |s| ==> s[i] != s[j]
    ensures Names(s) == Names(s[..|s| - 1]) + {s[|s| - 1]}
    ensures s[|s| - 1] !in Names(s[..|s| - 1])
  {
    var init := s[..|s| - 1];
    assert forall k :: 0 <= k < |init| ==> init[k] == s[k];
  }

  // Building the store.

  /** `typedsrc.lstrip("%&")`. */
  function StripType(s: string): (r: string)
    ensures r != [] ==> r[0] != '%' && r[0] != '&'
    ensures |r| <= |s| && r == s[|s| - |r|..]
  {
    if s != [] && (s[0] == '%' || s[0] == '&') then StripType(s[1..]) else s
  }

  /** `name_to_src.get(d, [])`. */
  function SourcesOf(srcs: map<string, seq<string>>, d: string): seq<string>
  {
    if d in srcs then srcs[d] else []
  }

  /** One config line's `name_to_src.setdefault(name, []).append(src)` for each of its destinations. */
  function AddSources(srcs: map<string, seq<string>>, src: string, dests: seq<string>): map<string, seq<string>>
  {
    if dests == [] then srcs
    else
      var m := AddSources(srcs, src, dests[..|dests| - 1]);
      var d := dests[|dests| - 1];
      m[d := SourcesOf(m, d) + [src]]
  }

  /** The first loop of `Store.__init__`, from `srcs`. */
  function AddAll(srcs: map<string, seq<string>>, config: seq<(string, seq<string>)>): map<string, seq<string>>
  {
    if config == [] then srcs
    else AddSources(AddAll(srcs, config[..|config| - 1]), StripType(config[|config| - 1].0), config[|config| - 1].1)
  }

  lemma AddAllSnoc(srcs: map<string, seq<string>>, config: seq<(string, seq<string>)>, i: nat)
    requires i < |config|
    ensures AddAll(srcs, config[..i + 1]) == AddSources(AddAll(srcs, config[..i]), StripType(config[i].0), config[i].1)
  {
    assert config[..i + 1][..i] == config[..i] && config[..i + 1][i] == config[i];
  }

  /** `name_to_src` after the first loop of `Store.__init__`. */
  function Sources(config: seq<(string, seq<string>)>): map<string, seq<string>>
  {
    AddAll(map[], config)
  }

  function Occurrences(s: seq<string>, n: string): nat
  {
    if s == [] then 0 else Occurrences(s[..|s| - 1], n) + (if s[|s| - 1] == n then 1 else 0)
  }

  function Copies(src: string, k: nat): (r: seq<string>)
    ensures |r| == k && forall i :: 0 <= i < k ==> r[i] == src
  {
    if k == 0 then [] else Copies(src, k - 1) + [src]
  }

  /** The reference reading: the stripped names of the lines naming `n`, once per mention, in config order. */
  function SourcesNaming(config: seq<(string, seq<string>)>, n: string): seq<string>
  {
    if config == [] then []
    else SourcesNaming(config[..|config| - 1], n) + Copies(StripType(config[|config| - 1].0), Occurrences(config[|config| - 1].1, n))
  }

  lemma {:induction false} AddSourcesNaming(srcs: map<string, seq<string>>, src: string, dests: seq<string>, n: string)
    ensures SourcesOf(AddSources(srcs, src, dests), n) == SourcesOf(srcs, n) + Copies(src, Occurrences(dests, n))
    ensures n in AddSources(srcs, src, dests) <==> n in srcs || n in dests
  {
    if dests == [] {
      assert SourcesOf(srcs, n) + [] == SourcesOf(srcs, n);
    } else {
      var init, d := dests[..|dests| - 1], dests[|dests| - 1];
      AddSourcesNaming(srcs, src, init, n);
      var m := AddSources(srcs, src, init);
      AddOneNaming(m, src, d, n);
      assert n in dests <==> n in init || n == d;
      if d == n {
        assert Copies(src, Occurrences(dests, n)) == Copies(src, Occurrences(init, n)) + [src];
      }
    }
  }

  /** One destination appended: only its own entry grows, by one source at its end. */
  lemma AddOneNaming(m: map<string, seq<string>>, src: string, d: string, n: string)
    ensures SourcesOf(m[d := SourcesOf(m, d) + [src]], n) == if d == n then SourcesOf(m, n) + [src] else SourcesOf(m, n)
    ensures n in m[d := SourcesOf(m, d) + [src]] <==> n in m || n == d
  {
  }

  /** `Store.__init__` records, for each name, the sources naming it in config order. */
  lemma SourcesRecorded(config: seq<(string, seq<string>)>, n: string)
    ensures SourcesOf(Sources(config), n) == SourcesNaming(config, n)
    ensures n in Sources(config) <==> exists i :: 0 <= i < |config| && n in config[i].1
  {
    AddAllNaming(config, n);
    MentionedSomewhere(config, n);
  }

  /** Some line of the config names `n` as a destination. */
  predicate Mentioned(config: seq<(string, seq<string>)>, n: string)
  {
    config != [] && (Mentioned(config[..|config| - 1], n) || n in config[|config| - 1].1)
  }

  lemma {:induction false} MentionedSomewhere(config: seq<(string, seq<string>)>, n: string)
    ensures Mentioned(config, n) <==> exists i :: 0 <= i < |config| && n in config[i].1
  {
    if config != [] {
      var init := config[..|config| - 1];
      MentionedSomewhere(init, n);
      if Mentioned(init, n) {
        var i :| 0 <= i < |init| && n in init[i].1;
        assert config[i] == init[i];
      }
      if exists i :: 0 <= i < |config| && n in config[i].1 {
        var i :| 0 <= i < |config| && n in config[i].1;
        if i < |init| {
          assert init[i] == config[i];
        }
      }
    }
  }

  lemma {:induction false} AddAllNaming(config: seq<(string, seq<string>)>, n: string)
    ensures SourcesOf(AddAll(map[], config), n) == SourcesNaming(config, n)
    ensures n in AddAll(map[], config) <==> Mentioned(config, n)
  {
    if config != [] {
      var init, last := config[..|config| - 1], config[|config| - 1];
      AddAllNaming(init, n);
      AddSourcesNaming(AddAll(map[], init), StripType(last.0), last.1, n);
    }
  }

  datatype ConfigError =
    | UnknownType(typed: string)  // `NotImplementedError(f"Unknown module type {typedsrc}")`
    | NoInputs(name: string)      // `name_to_src[typedsrc[1:]]` raised KeyError
    | NoSources(name: string)     // `name_to_src[src]` in `find_src_conj` raised KeyError
    | Unbounded                   // `find_src_conj` did not finish within the model's bound

  /** The module one config line defines, under its name. */
  function MakeModule(typed: string, dests: seq<string>, srcs: map<string, seq<string>>): (r: Result<(string, Module), ConfigError>)
    ensures typed == "broadcaster" ==> r == Ok((typed, Broadcaster(dests)))
    ensures r.Ok? && r.value.0 != typed ==> |typed| > 0 && r.value.0 == typed[1..]
    ensures r.Ok? && r.value.1.Conjunction? ==> r.value.0 in srcs && r.value.1.inputs == srcs[r.value.0] && r.value.1.remembered == {}
    ensures r.Ok? ==> r.value.1.outputs == dests && (r.value.1.FlipFlop? ==> !r.value.1.on)
    ensures r.Err? && r.error.UnknownType? <==> typed != "broadcaster" && (typed == [] || (typed[0] != '%' && typed[0] != '&'))
    ensures r.Err? && r.error.NoInputs? ==> typed != [] && typed[0] == '&' && typed[1..] !in srcs
  {
    if typed == "broadcaster" then Ok((typed, Broadcaster(dests)))
    else if typed != [] && typed[0] == '%' then Ok((typed[1..], FlipFlop(dests, false)))
    else if typed != [] && typed[0] == '&' then
      if typed[1..] in srcs then Ok((typed[1..], Conjunction(srcs[typed[1..]], dests, {})))
      else Err(NoInputs(typed[1..]))
    else Err(UnknownType(typed))
  }

  /** `name_to_mod` after the second loop: the first bad line raises; a later definition of a name replaces an earlier one. */
  function BuildModules(config: seq<(string, seq<string>)>, srcs: map<string, seq<string>>): (r: Result<map<string, Module>, ConfigError>)
    ensures r.Ok? <==> forall i :: 0 <= i < |config| ==> MakeModule(config[i].0, config[i].1, srcs).Ok?
    ensures r.Err? ==> exists i :: 0 <= i < |config| && MakeModule(config[i].0, config[i].1, srcs) == Err(r.error)
    ensures r.Ok? ==> forall n :: n in r.value ==> exists i :: 0 <= i < |config| && MakeModule(config[i].0, config[i].1, srcs) == Ok((n, r.value[n]))
  {
    if config == [] then Ok(map[])
    else
      var init, last := config[..|config| - 1], config[|config| - 1];
      assert forall i :: 0 <= i < |init| ==> init[i] == config[i];
      match BuildModules(init, srcs)
      case Err(e) => Err(e)
      case Ok(mods) =>
        match MakeModule(last.0, last.1, srcs)
        case Err(e) => Err(e)
        case Ok(def) => Ok(mods[def.0 := def.1])
  }

  // `name_to_src_conj`, the last step of `Store.__init__`.

  /** The order in which `name_to_src` gains its keys: each destination the first time it is named. */
  function AppendNew(order: seq<string>, dests: seq<string>): (r: seq<string>)
    ensures forall n :: n in r <==> n in order || n in dests
  {
    if dests == [] then order
    else
      var o := AppendNew(order, dests[..|dests| - 1]);
      var d := dests[|dests| - 1];
      if d in o then o else o + [d]
  }

  function OrderAll(order: seq<string>, config: seq<(string, seq<string>)>): (r: seq<string>)
    ensures forall n :: n in r <==> n in order || Mentioned(config, n)
  {
    if config == [] then order
    else AppendNew(OrderAll(order, config[..|config| - 1]), config[|config| - 1].1)
  }

  lemma OrderAllSnoc(order: seq<string>, config: seq<(string, seq<string>)>, i: nat)
    requires i < |config|
    ensures OrderAll(order, config[..i + 1]) == AppendNew(OrderAll(order, config[..i]), config[i].1)
  {
    assert config[..i + 1][..i] == config[..i] && config[..i + 1][i] == config[i];
  }

  /** The keys of `name_to_src` in insertion order, the order its comprehension visits them. */
  function Order(config: seq<(string, seq<string>)>): seq<string>
  {
    OrderAll([], config)
  }

  /** Where `find_src_conj` stops: a conjunction, or a name that is not a module, but not `broadcaster`. */
  predicate Landing(mods: map<string, Module>, c: string)
  {
    c != "broadcaster" && (c !in mods || mods[c].Conjunction?)
  }

  /**
   * The loop of `find_src_conj` from the stack `stack` with `found` collected: the name on top
   * is popped; `broadcaster` is skipped, a landing name collected, and any other module's
   * sources are pushed, a module no line names raising `KeyError`. `fuel` bounds the pops.
   */
  function UpstreamWalk(srcs: map<string, seq<string>>, mods: map<string, Module>, stack: seq<string>, found: set<string>, fuel: nat)
    : (r: Result<set<string>, ConfigError>)
    ensures r.Ok? ==> found <= r.value && forall c :: c in r.value && c !in found ==> Landing(mods, c)
    ensures r.Err? ==> r.error == Unbounded || r.error.NoSources?
    ensures r.Err? && r.error.NoSources? ==>
      var n := r.error.name; n != "broadcaster" && n in mods && !mods[n].Conjunction? && n !in srcs
    ensures stack == [] ==> r == Ok(found)
    decreases fuel
  {
    if stack == [] then Ok(found)
    else if fuel == 0 then Err(Unbounded)
    else
      var src, rest := stack[|stack| - 1], stack[..|stack| - 1];
      if src == "broadcaster" then UpstreamWalk(srcs, mods, rest, found, fuel - 1)
      else if Landing(mods, src) then UpstreamWalk(srcs, mods, rest, found + {src}, fuel - 1)
      else if src !in srcs then Err(NoSources(src))
      else UpstreamWalk(srcs, mods, rest + srcs[src], found, fuel - 1)
  }

  /** `find_src_conj(dest)`: the walk from a copy of the sources of `dest`. */
  function SrcConj(srcs: map<string, seq<string>>, mods: map<string, Module>, dest: string, fuel: nat): Result<set<string>, ConfigError>
  {
    UpstreamWalk(srcs, mods, SourcesOf(srcs, dest), {}, fuel)
  }

  /** The set comprehension over the sources `list` of one name: the union of their walks, or the first error. */
  function ConjOfAll(srcs: map<string, seq<string>>, mods: map<string, Module>, list: seq<string>, fuel: nat)
    : (r: Result<set<string>, ConfigError>)
    ensures r.Ok? ==> forall c :: c in r.value ==> Landing(mods, c)
    ensures r.Ok? ==> forall k :: 0 <= k < |list| ==> SrcConj(srcs, mods, list[k], fuel).Ok? && SrcConj(srcs, mods, list[k], fuel).value <= r.value
    ensures r.Err? ==> exists k :: 0 <= k < |list| && SrcConj(srcs, mods, list[k], fuel) == Err(r.error)
  {
    if list == [] then Ok({})
    else
      var init := list[..|list| - 1];
      assert forall k :: 0 <= k < |init| ==> init[k] == list[k];
      match ConjOfAll(srcs, mods, init, fuel)
      case Err(e) => Err(e)
      case Ok(s) =>
        match SrcConj(srcs, mods, list[|list| - 1], fuel)
        case Err(e) => Err(e)
        case Ok(t) => Ok(s + t)
  }

  /** The dict comprehension over the names in `names`, in that order: the first error raised, or one set per name. */
  function SourceConjunctions(srcs: map<string, seq<string>>, mods: map<string, Module>, names: seq<string>, fuel: nat)
    : (r: Result<map<string, set<string>>, ConfigError>)
    ensures r.Ok? ==> forall n :: n in r.value <==> n in names
  {
    if names == [] then Ok(map[])
    else
      var init, n := names[..|names| - 1], names[|names| - 1];
      match SourceConjunctions(srcs, mods, init, fuel)
      case Err(e) => Err(e)
      case Ok(m) =>
        match ConjOfAll(srcs, mods, SourcesOf(srcs, n), fuel)
        case Err(e) => Err(e)
        case Ok(s) => Ok(m[n := s])
  }

  /** Each name's entry is the union over its sources; an error is the error of some name's union. */
  lemma {:induction false} SourceConjunctionsSpec(srcs: map<string, seq<string>>, mods: map<string, Module>, names: seq<string>, fuel: nat)
    ensures var r := SourceConjunctions(srcs, mods, names, fuel);
      r.Ok? ==> forall n :: n in r.value ==> ConjOfAll(srcs, mods, SourcesOf(srcs, n), fuel) == Ok(r.value[n])
    ensures var r := SourceConjunctions(srcs, mods, names, fuel);
      r.Err? ==> exists k :: 0 <= k < |names| && ConjOfAll(srcs, mods, SourcesOf(srcs, names[k]), fuel) == Err(r.error)
  {
    if names != [] {
      var init := names[..|names| - 1];
      assert forall k :: 0 <= k < |init| ==> init[k] == names[k];
      SourceConjunctionsSpec(srcs, mods, init, fuel);
    }
  }

  /** `Store(config)`: the modules, then `name_to_src_conj`, or the first error either step raises. */
  function Init(config: seq<(string, seq<string>)>, fuel: nat): (r: Result<(map<string, Module>, map<string, set<string>>), ConfigError>)
    ensures r.Ok? ==> BuildModules(config, Sources(config)) == Ok(r.value.0)
    ensures BuildModules(config, Sources(config)).Err? ==> r.Err? && r.error == BuildModules(config, Sources(config)).error
  {
    match BuildModules(config, Sources(config))
    case Err(e) => Err(e)
    case Ok(mods) =>
      match SourceConjunctions(Sources(config), mods, Order(config), fuel)
      case Err(e) => Err(e)
      case Ok(conj) => Ok((mods, conj))
  }

  /** A prefix of the names that raises makes the whole comprehension raise the same error. */
  lemma {:induction false} SourceConjunctionsPrefix(srcs: map<string, seq<string>>, mods: map<string, Module>, names: seq<string>, n: nat, fuel: nat)
    requires n <= |names| && SourceConjunctions(srcs, mods, names[..n], fuel).Err?
    ensures SourceConjunctions(srcs, mods, names, fuel).Err?
    ensures SourceConjunctions(srcs, mods, names, fuel).error == SourceConjunctions(srcs, mods, names[..n], fuel).error
    decreases |names| - n
  {
    if n < |names| {
      var init := names[..|names| - 1];
      assert init[..n] == names[..n];
      SourceConjunctionsPrefix(srcs, mods, init, n, fuel);
    } else {
      assert names[..n] == names;
    }
  }

  /** The same for the union over one name's sources. */
  lemma {:induction false} ConjOfAllPrefix(srcs: map<string, seq<string>>, mods: map<string, Module>, list: seq<string>, n: nat, fuel: nat)
    requires n <= |list| && ConjOfAll(srcs, mods, list[..n], fuel).Err?
    ensures ConjOfAll(srcs, mods, list, fuel).Err? && ConjOfAll(srcs, mods, list, fuel).error == ConjOfAll(srcs, mods, list[..n], fuel).error
    decreases |list| - n
  {
    if n < |list| {
      var init := list[..|list| - 1];
      assert init[..n] == list[..n];
      ConjOfAllPrefix(srcs, mods, init, n, fuel);
    } else {
      assert list[..n] == list;
    }
  }

  /** `dispatch`: one pulse per destination, in output order. */
  function DispatchOf(src: string, high: bool, dests: seq<string>): (r: seq<Pulse>)
    ensures |r| == |dests| && forall k :: 0 <= k < |dests| ==> r[k] == Pulse(src, high, dests[k])
  {
    seq(|dests|, k requires 0 <= k < |dests| => Pulse(src, high, dests[k]))
  }

  /** Delivering one pulse: an unknown destination is skipped. */
  function Deliver(mods: map<string, Module>, p: Pulse): (r: (map<string, Module>, seq<Pulse>))
    ensures p.dest !in mods ==> r == (mods, [])
    ensures r.0.Keys == mods.Keys && forall n :: n in mods && n != p.dest ==> r.0[n] == mods[n]
    ensures p.dest in mods ==> r.0[p.dest] == Receive(mods[p.dest], p).0
    ensures p.dest in mods ==> r.1 == match Receive(mods[p.dest], p).1
                                     case None => []
                                     case Some(high) => DispatchOf(p.dest, high, mods[p.dest].outputs)
  {
    if p.dest !in mods then (mods, [])
    else
      var (m, out) := Receive(mods[p.dest], p);
      (mods[p.dest := m], match out case None => [] case Some(high) => DispatchOf(p.dest, high, m.outputs))
  }

  datatype WaitError = OutOfFuel  // the model's bound on deliveries was reached

  /** `wait`'s loop from `cursor` on: each queued pulse in turn, including those queued meanwhile. */
  function Settle(mods: map<string, Module>, pulses: seq<Pulse>, cursor: nat, fuel: nat): (r: Result<(map<string, Module>, seq<Pulse>), WaitError>)
    requires cursor <= |pulses|
    decreases fuel
  {
    if |pulses| <= cursor then Ok((mods, pulses))
    else if fuel == 0 then Err(OutOfFuel)
    else
      var (next, sent) := Deliver(mods, pulses[cursor]);
      Settle(next, pulses + sent, cursor + 1, fuel - 1)
  }

  lemma SettleStep(mods: map<string, Module>, pulses: seq<Pulse>, cursor: nat, fuel: nat)
    requires cursor < |pulses| && fuel > 0
    ensures Settle(mods, pulses, cursor, fuel) == Settle(Deliver(mods, pulses[cursor]).0, pulses + Deliver(mods, pulses[cursor]).1, cursor + 1, fuel - 1)
  {
  }

  /** The same modules, wired the same way; only flip-flop and conjunction state may differ. */
  predicate SameWiring(a: map<string, Module>, b: map<string, Module>)
  {
    a.Keys == b.Keys &&
    forall n :: n in a ==> && b[n].outputs == a[n].outputs
                           && (a[n].Broadcaster? <==> b[n].Broadcaster?)
                           && (a[n].FlipFlop? <==> b[n].FlipFlop?)
                           && (a[n].Conjunction? ==> b[n].Conjunction? && b[n].inputs == a[n].inputs)
  }

  /** A pulse a module could have sent: from a module, to one of its outputs. */
  predicate Wired(mods: map<string, Module>, p: Pulse)
  {
    p.src in mods && p.dest in mods[p.src].outputs
  }

  /**
   * Delivery only appends to the queue, keeps the wiring, and every appended pulse goes from a
   * module to one of its outputs.
   */
  lemma {:induction false} SettleAppends(mods: map<string, Module>, pulses: seq<Pulse>, cursor: nat, fuel: nat)
    requires cursor <= |pulses|
    ensures Settle(mods, pulses, cursor, fuel).Ok? ==>
              var (after, sent) := Settle(mods, pulses, cursor, fuel).value;
              && |pulses| <= |sent| && sent[..|pulses|] == pulses
              && SameWiring(mods, after)
              && forall k :: |pulses| <= k < |sent| ==> Wired(mods, sent[k])
    decreases fuel
  {
    if |pulses| > cursor && fuel > 0 {
      var (next, out) := Deliver(mods, pulses[cursor]);
      assert SameWiring(mods, next) && forall k :: 0 <= k < |out| ==> Wired(mods, out[k]) by {
        DeliverWired(mods, pulses[cursor]);
      }
      SettleAppends(next, pulses + out, cursor + 1, fuel - 1);
      if Settle(mods, pulses, cursor, fuel).Ok? {
        var (after, sent) := Settle(mods, pulses, cursor, fuel).value;
        AppendedWired(mods, next, after, pulses, out, sent);
      }
    }
  }

  lemma DeliverWired(mods: map<string, Module>, p: Pulse)
    ensures SameWiring(mods, Deliver(mods, p).0)
    ensures forall k :: 0 <= k < |Deliver(mods, p).1| ==> Wired(mods, Deliver(mods, p).1[k])
  {
  }

  lemma AppendedWired(mods: map<string, Module>, next: map<string, Module>, after: map<string, Module>,
                      pulses: seq<Pulse>, out: seq<Pulse>, sent: seq<Pulse>)
    requires SameWiring(mods, next) && forall k :: 0 <= k < |out| ==> Wired(mods, out[k])
    requires |pulses + out| <= |sent| && sent[..|pulses + out|] == pulses + out && SameWiring(next, after)
    requires forall k :: |pulses + out| <= k < |sent| ==> Wired(next, sent[k])
    ensures |pulses| <= |sent| && sent[..|pulses|] == pulses && SameWiring(mods, after)
    ensures forall k :: |pulses| <= k < |sent| ==> Wired(mods, sent[k])
  {
    assert sent[..|pulses|] == (pulses + out)[..|pulses|];
    forall k | |pulses| <= k < |sent| ensures Wired(mods, sent[k]) {
      if k < |pulses + out| {
        assert sent[k] == (pulses + out)[k] == out[k - |pulses|];
      }
    }
  }

  /** `sum_pulses`: the low pulses, then the high ones. */
  function SumPulses(pulses: seq<Pulse>): (r: (nat, nat))
    ensures r.0 + r.1 == |pulses|
  {
    if pulses == [] then (0, 0)
    else
      var (low, high) := SumPulses(pulses[..|pulses| - 1]);
      if pulses[|pulses| - 1].high then (low, high + 1) else (low + 1, high)
  }

  /** A low first pulse counts as low. */
  lemma {:induction false} SumPulsesFirstLow(pulses: seq<Pulse>)
    requires pulses != [] && !pulses[0].high
    ensures SumPulses(pulses).0 >= 1
  {
    if |pulses| > 1 {
      SumPulsesFirstLow(pulses[..|pulses| - 1]);
    }
  }

  /** `dotsum` of the per-press pairs: component sums, or the empty tuple when there are none. */
  function DotSum(pairs: seq<(nat, nat)>): (r: seq<nat>)
    ensures pairs == [] <==> r == []
    ensures r != [] ==> |r| == 2
  {
    if pairs == [] then []
    else if |pairs| == 1 then [pairs[0].0, pairs[0].1]
    else
      var rest := DotSum(pairs[..|pairs| - 1]);
      [rest[0] + pairs[|pairs| - 1].0, rest[1] + pairs[|pairs| - 1].1]
  }

  function TotalLength(presses: seq<seq<Pulse>>): nat
  {
    if presses == [] then 0 else TotalLength(presses[..|presses| - 1]) + |presses[|presses| - 1]|
  }

  function Pairs(presses: seq<seq<Pulse>>): (r: seq<(nat, nat)>)
    ensures |r| == |presses| && forall k :: 0 <= k < |presses| ==> r[k] == SumPulses(presses[k])
  {
    seq(|presses|, k requires 0 <= k < |presses| => SumPulses(presses[k]))
  }

  /** Every press yields a low pulse first: the low total is at least the number of presses, and the totals count every pulse. */
  lemma {:induction false} DotSumBounds(presses: seq<seq<Pulse>>)
    requires presses != []
    requires forall k :: 0 <= k < |presses| ==> presses[k] != [] && !presses[k][0].high
    ensures DotSum(Pairs(presses))[0] >= |presses|
    ensures DotSum(Pairs(presses))[0] + DotSum(Pairs(presses))[1] == TotalLength(presses)
  {
    var init := presses[..|presses| - 1];
    SumPulsesFirstLow(presses[|presses| - 1]);
    if |presses| == 1 {
      assert init == [];
    } else {
      DotSumBounds(init);
      assert Pairs(presses)[..|presses| - 1] == Pairs(init);
    }
  }

  const ButtonPulse := Pulse("button", false, "broadcaster")

  datatype Error = BadConfig(config: ConfigError) | Stalled(wait: WaitError)

  /**
   * `Store`: the pulse queue with its delivery cursor, the modules by name, the sources of each
   * name (with the order in which the names were first seen) and the conjunctions upstream of
   * each name's sources.
   */
  class Store {
    var pulses: seq<Pulse>
    var sentCount: nat
    var modules: map<string, Module>
    var sources: map<string, seq<string>>
    var sourceOrder: seq<string>
    var sourceConjunctions: map<string, set<string>>

    /** The delivery cursor never passes the end of the queue. */
    predicate Valid()
      reads this
    {
      sentCount <= |pulses|
    }

    constructor Empty()
      ensures pulses == [] && sentCount == 0 && modules == map[] && sources == map[]
      ensures sourceOrder == [] && sourceConjunctions == map[]
    {
      pulses := [];
      sentCount := 0;
      modules := map[];
      sources := map[];
      sourceOrder := [];
      sourceConjunctions := map[];
    }

    /**
     * `Store(config)`: the sources of each name first, then one module per line, then the
     * conjunctions upstream of each name; `fuel` bounds each `find_src_conj` walk.
     */
    static method Create(config: seq<(string, seq<string>)>, fuel: nat) returns (r: Result<Store, ConfigError>)
      ensures r.Err? <==> Init(config, fuel).Err?
      ensures r.Err? ==> r.error == Init(config, fuel).error
      ensures r.Ok? ==> && fresh(r.value) && r.value.Valid() && r.value.pulses == [] && r.value.sentCount == 0
                        && r.value.sources == Sources(config) && r.value.sourceOrder == Order(config)
                        && r.value.modules == Init(config, fuel).value.0
                        && r.value.sourceConjunctions == Init(config, fuel).value.1
      ensures r.Ok? ==> r.value.sourceConjunctions.Keys == r.value.sources.Keys
    {
      var store := new Store.Empty();
      store.RecordSources(config);
      var built := store.AddModules(config);
      if built.Err? {
        return Err(built.error);
      }
      var conj := store.RecordConjunctions(fuel);
      if conj.Err? {
        return Err(conj.error);
      }
      return Ok(store);
    }

    /** The first loop of `__init__`: `name_to_src`, its keys kept in insertion order. */
    method RecordSources(config: seq<(string, seq<string>)>)
      requires forall n :: n in sourceOrder <==> n in sources
      modifies this
      ensures sources == AddAll(old(sources), config) && sourceOrder == OrderAll(old(sourceOrder), config)
      ensures forall n :: n in sourceOrder <==> n in sources
      ensures pulses == old(pulses) && sentCount == old(sentCount) && modules == old(modules)
      ensures sourceConjunctions == old(sourceConjunctions)
    {
      ghost var start, startOrder := sources, sourceOrder;
      var i := 0;
      while i < |config|
        invariant 0 <= i <= |config| && sources == AddAll(start, config[..i]) && sourceOrder == OrderAll(startOrder, config[..i])
        invariant forall n :: n in sourceOrder <==> n in sources
        invariant pulses == old(pulses) && sentCount == old(sentCount) && modules == old(modules)
        invariant sourceConjunctions == old(sourceConjunctions)
      {
        AddAllSnoc(start, config, i);
        OrderAllSnoc(startOrder, config, i);
        AddLine(StripType(config[i].0), config[i].1);
        i := i + 1;
      }
      assert config[..i] == config;
    }

    method AddLine(src: string, dests: seq<string>)
      requires forall n :: n in sourceOrder <==> n in sources
      modifies this
      ensures sources == AddSources(old(sources), src, dests) && sourceOrder == AppendNew(old(sourceOrder), dests)
      ensures forall n :: n in sourceOrder <==> n in sources
      ensures pulses == old(pulses) && sentCount == old(sentCount) && modules == old(modules)
      ensures sourceConjunctions == old(sourceConjunctions)
    {
      var j := 0;
      while j < |dests|
        invariant 0 <= j <= |dests| && sources == AddSources(old(sources), src, dests[..j])
        invariant sourceOrder == AppendNew(old(sourceOrder), dests[..j])
        invariant forall n :: n in sourceOrder <==> n in sources
        invariant pulses == old(pulses) && sentCount == old(sentCount) && modules == old(modules)
        invariant sourceConjunctions == old(sourceConjunctions)
      {
        assert dests[..j + 1][..j] == dests[..j];
        if dests[j] !in sources {
          sourceOrder := sourceOrder + [dests[j]];
        }
        sources := sources[dests[j] := SourcesOf(sources, dests[j]) + [src]];
        j := j + 1;
      }
      assert dests[..j] == dests;
    }

    /** `find_src_conj`: a stack walk up the sources of `dest`; `fuel` bounds the pops. */
    method FindSrcConj(dest: string, fuel: nat) returns (r: Result<set<string>, ConfigError>)
      ensures r == SrcConj(sources, modules, dest, fuel)
    {
      var srcs := SourcesOf(sources, dest);
      var found: set<string> := {};
      var budget := fuel;
      while srcs != []
        invariant UpstreamWalk(sources, modules, srcs, found, budget) == SrcConj(sources, modules, dest, fuel)
        decreases budget
      {
        if budget == 0 {
          return Err(Unbounded);
        }
        var src := srcs[|srcs| - 1];
        srcs, budget := srcs[..|srcs| - 1], budget - 1;
        if src == "broadcaster" {
        } else if src !in modules || modules[src].Conjunction? {
          found := found + {src};
        } else if src !in sources {
          return Err(NoSources(src));
        } else {
          srcs := srcs + sources[src];
        }
      }
      return Ok(found);
    }

    /** The set comprehension of `name_to_src_conj` for one name's sources `srcs`. */
    method ConjOfSources(srcs: seq<string>, fuel: nat) returns (r: Result<set<string>, ConfigError>)
      ensures r == ConjOfAll(sources, modules, srcs, fuel)
    {
      var acc: set<string> := {};
      for j := 0 to |srcs|
        invariant ConjOfAll(sources, modules, srcs[..j], fuel) == Ok(acc)
      {
        assert srcs[..j + 1][..j] == srcs[..j];
        var c := FindSrcConj(srcs[j], fuel);
        if c.Err? {
          ConjOfAllPrefix(sources, modules, srcs, j + 1, fuel);
          return Err(c.error);
        }
        acc := acc + c.value;
      }
      assert srcs[..|srcs|] == srcs;
      return Ok(acc);
    }

    /** The last statement of `__init__`: `name_to_src_conj`, one set per key of `name_to_src`. */
    method RecordConjunctions(fuel: nat) returns (r: Result<(), ConfigError>)
      modifies this
      ensures r.Err? <==> SourceConjunctions(sources, modules, sourceOrder, fuel).Err?
      ensures r.Err? ==> r.error == SourceConjunctions(sources, modules, sourceOrder, fuel).error
      ensures r.Ok? ==> sourceConjunctions == SourceConjunctions(sources, modules, sourceOrder, fuel).value
      ensures pulses == old(pulses) && sentCount == old(sentCount) && modules == old(modules)
      ensures sources == old(sources) && sourceOrder == old(sourceOrder)
    {
      var result: map<string, set<string>> := map[];
      for i := 0 to |sourceOrder|
        invariant pulses == old(pulses) && sentCount == old(sentCount) && modules == old(modules)
        invariant sources == old(sources) && sourceOrder == old(sourceOrder)
        invariant SourceConjunctions(sources, modules, sourceOrder[..i], fuel) == Ok(result)
      {
        assert sourceOrder[..i + 1][..i] == sourceOrder[..i];
        var name := sourceOrder[i];
        var c := ConjOfSources(SourcesOf(sources, name), fuel);
        if c.Err? {
          SourceConjunctionsPrefix(sources, modules, sourceOrder, i + 1, fuel);
          return Err(c.error);
        }
        result := result[name := c.value];
      }
      assert sourceOrder[..|sourceOrder|] == sourceOrder;
      sourceConjunctions := result;
      return Ok(());
    }

    /** The second loop of `__init__`: one module per line, or the first line's error. */
    method AddModules(config: seq<(string, seq<string>)>) returns (r: Result<(), ConfigError>)
      requires modules == map[]
      modifies this
      ensures r.Err? <==> BuildModules(config, sources).Err?
      ensures r.Err? ==> r.error == BuildModules(config, sources).error
      ensures r.Ok? ==> modules == BuildModules(config, sources).value
      ensures pulses == old(pulses) && sentCount == old(sentCount) && sources == old(sources)
      ensures sourceOrder == old(sourceOrder) && sourceConjunctions == old(sourceConjunctions)
    {
      var i := 0;
      while i < |config|
        invariant 0 <= i <= |config| && BuildModules(config[..i], sources) == Ok(modules)
        invariant pulses == old(pulses) && sentCount == old(sentCount) && sources == old(sources)
        invariant sourceOrder == old(sourceOrder) && sourceConjunctions == old(sourceConjunctions)
      {
        assert config[..i + 1][..i] == config[..i];
        match MakeModule(config[i].0, config[i].1, sources)
        case Err(e) =>
          BuildModulesPrefix(config, i + 1, sources);
          return Err(e);
        case Ok(def) =>
          modules := modules[def.0 := def.1];
        i := i + 1;
      }
      assert config[..i] == config;
      return Ok(());
    }

    /** `dispatch`. */
    method Dispatch(src: string, high: bool, dests: seq<string>)
      requires Valid()
      modifies this
      ensures Valid()
      ensures pulses == old(pulses) + DispatchOf(src, high, dests)
      ensures sentCount == old(sentCount) && modules == old(modules) && sources == old(sources)
    {
      var k := 0;
      while k < |dests|
        invariant 0 <= k <= |dests| && pulses == old(pulses) + DispatchOf(src, high, dests)[..k]
        invariant sentCount == old(sentCount) && modules == old(modules) && sources == old(sources)
      {
        assert DispatchOf(src, high, dests)[..k + 1] == DispatchOf(src, high, dests)[..k] + [Pulse(src, high, dests[k])];
        pulses := pulses + [Pulse(src, high, dests[k])];
        k := k + 1;
      }
      assert DispatchOf(src, high, dests)[..k] == DispatchOf(src, high, dests);
    }

    /**
     * `send` on the module a pulse names: it takes the pulse in and queues whatever it emits,
     * one pulse per output, behind the pulses already queued.
     */
    method Send(p: Pulse)
      requires Valid() && p.dest in modules
      modifies this
      ensures Valid()
      ensures modules == Deliver(old(modules), p).0 && pulses == old(pulses) + Deliver(old(modules), p).1
      ensures sentCount == old(sentCount) && sources == old(sources)
    {
      var (m, out) := Receive(modules[p.dest], p);
      modules := modules[p.dest := m];
      if out.Some? {
        Dispatch(p.dest, out.value, m.outputs);
      } else {
        assert pulses == pulses + [];
      }
    }

    /**
     * `wait`: deliver every queued pulse, oldest first, then hand back the whole queue and the
     * module states, leaving the queue empty. `fuel` bounds the deliveries.
     */
    method Wait(fuel: nat) returns (r: Result<(seq<Pulse>, map<string, Module>), WaitError>)
      requires Valid()
      modifies this
      ensures Valid()
      ensures r.Err? <==> Settle(old(modules), old(pulses), old(sentCount), fuel).Err?
      ensures r.Ok? ==> && r.value.0 == Settle(old(modules), old(pulses), old(sentCount), fuel).value.1
                        && modules == Settle(old(modules), old(pulses), old(sentCount), fuel).value.0
                        && r.value.1 == States(modules)
                        && pulses == [] && sentCount == 0
      ensures sources == old(sources)
    {
      var budget := fuel;
      ghost var wiring := sources;
      ghost var outcome := Settle(modules, pulses, sentCount, fuel);
      while |pulses| > sentCount
        invariant sentCount <= |pulses| && sources == wiring
        invariant Settle(modules, pulses, sentCount, budget) == outcome
        decreases budget
      {
        if budget == 0 {
          return Err(OutOfFuel);
        }
        SettleStep(modules, pulses, sentCount, budget);
        var p := pulses[sentCount];
        if p.dest in modules {
          Send(p);
        } else {
          assert pulses == pulses + Deliver(modules, p).1;
        }
        sentCount := sentCount + 1;
        budget := budget - 1;
      }
      r := Ok((pulses, States(modules)));
      pulses, sentCount := [], 0;
    }
  }

  /**
   * The module states after `times` presses of the button, with the pulses of each press: every
   * press queues one low pulse to `broadcaster` and lets it settle from the states the previous
   * press left. `fuel` bounds the deliveries of each press.
   */
  function Presses(mods: map<string, Module>, times: nat, fuel: nat): (r: Result<(map<string, Module>, seq<seq<Pulse>>), WaitError>)
    ensures r.Ok? ==> |r.value.1| == times
  {
    if times == 0 then Ok((mods, []))
    else
      match Presses(mods, times - 1, fuel)
      case Err(e) => Err(e)
      case Ok(before) =>
        match Settle(before.0, [ButtonPulse], 0, fuel)
        case Err(e) => Err(e)
        case Ok(after) => Ok((after.0, before.1 + [after.1]))
  }

  /** Once a press fails to settle, so does every longer run of presses. */
  lemma {:induction false} PressesStall(mods: map<string, Module>, k: nat, times: nat, fuel: nat)
    requires k <= times && Presses(mods, k, fuel).Err?
    ensures Presses(mods, times, fuel).Err?
    decreases times
  {
    if k < times {
      PressesStall(mods, k, times - 1, fuel);
    }
  }

  /**
   * `check_config`: press the button `times` times, letting the pulses settle after each press,
   * and add up the low and high counts of every press.
   */
  method CheckConfig(config: seq<(string, seq<string>)>, times: nat, fuel: nat) returns (r: Result<seq<nat>, Error>, ghost presses: seq<seq<Pulse>>)
    ensures r.Err? && r.error.BadConfig? <==> Init(config, fuel).Err?
    ensures r.Err? && r.error.BadConfig? ==> r.error.config == Init(config, fuel).error
    ensures r.Err? && r.error.Stalled? <==> Init(config, fuel).Ok? && Presses(Init(config, fuel).value.0, times, fuel).Err?
    ensures r.Ok? ==> && Init(config, fuel).Ok? && Presses(Init(config, fuel).value.0, times, fuel).Ok?
                      && presses == Presses(Init(config, fuel).value.0, times, fuel).value.1
    ensures r.Ok? ==> |presses| == times && r.value == DotSum(Pairs(presses))
    ensures r.Ok? ==> forall k :: 0 <= k < times ==> presses[k] != [] && presses[k][0] == ButtonPulse
    ensures r.Ok? && times > 0 ==> r.value[0] >= times && r.value[0] + r.value[1] == TotalLength(presses)
  {
    var created := Store.Create(config, fuel);
    if created.Err? {
      return Err(BadConfig(created.error)), [];
    }
    var store := created.value;
    ghost var mods0 := store.modules;
    var tpulses: seq<seq<Pulse>> := [];
    var k := 0;
    while k < times
      invariant 0 <= k <= times && |tpulses| == k && store.Valid() && store.pulses == [] && store.sentCount == 0
      invariant Presses(mods0, k, fuel).Ok? && store.modules == Presses(mods0, k, fuel).value.0
      invariant tpulses == Presses(mods0, k, fuel).value.1
      invariant forall i :: 0 <= i < k ==> tpulses[i] != [] && tpulses[i][0] == ButtonPulse
      modifies store
    {
      store.Dispatch(ButtonPulse.src, false, [ButtonPulse.dest]);
      assert store.pulses == [ButtonPulse];
      ghost var mods := store.modules;
      var waited := store.Wait(fuel);
      if waited.Err? {
        PressesStall(mods0, k + 1, times, fuel);
        return Err(Stalled(waited.error)), tpulses;
      }
      SettleAppends(mods, [ButtonPulse], 0, fuel);
      tpulses := tpulses + [waited.value.0];
      k := k + 1;
    }
    presses := tpulses;
    r := Ok(DotSum(Pairs(tpulses)));
    if times > 0 {
      DotSumBounds(tpulses);
    }
  }

  lemma BuildModulesPrefix(config: seq<(string, seq<string>)>, n: nat, srcs: map<string, seq<string>>)
    requires n <= |config| && BuildModules(config[..n], srcs).Err?
    ensures BuildModules(config, srcs).Err? && BuildModules(config, srcs).error == BuildModules(config[..n], srcs).error
    decreases |config| - n
  {
    if n < |config| {
      var init := config[..|config| - 1];
      assert init[..n] == config[..n];
      BuildModulesPrefix(init, n, srcs);
    } else {
      assert config[..n] == config;
    }
  }

  /** The states `wait` reports: the flip-flops and conjunctions. */
  function States(mods: map<string, Module>): (r: map<string, Module>)
    ensures forall n :: n in r <==> n in mods && !mods[n].Broadcaster?
  {
    map n | n in mods && !mods[n].Broadcaster? :: mods[n]
  }
}
