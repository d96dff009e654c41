/**
 * Cube conundrum (day02): each game reveals sets of coloured cubes; a game is possible when
 * no count exceeds the bag's total for its colour, and its power is the product of the
 * per-colour maxima.
 */
module Cubes {
  import opened Wrappers
  import Text

  /** One revealed set: colour and count pairs, in dictionary order. */
  type Reveal = seq<(string, int)>

  /** A game: its revealed sets in order. */
  type Game = seq<Reveal>

  /** The (colour, count) pairs of a game, set by set, each set in dictionary order. */
  function Items(game: Game): (r: seq<(string, int)>)
    ensures |game| > 0 ==> r == game[0] + Items(game[1..])
  {
    if game == [] then [] else game[0] + Items(game[1..])
  }

  /** A pair occurs in the flattened game exactly when one of the sets holds it. */
  lemma {:induction false} ItemsMember(game: Game, x: (string, int))
    ensures x in Items(game) <==> exists s :: 0 <= s < |game| && x in game[s]
  {
    if game != [] {
      ItemsMember(game[1..], x);
      assert forall s :: 1 <= s < |game| ==> game[1..][s - 1] == game[s];
    }
  }

  /**
   * `all(count <= total[color] ...)`, evaluated left to right: the first count above its
   * total gives false, and a colour missing from `total` reached before that raises.
   */
  function WithinTotal(items: seq<(string, int)>, total: map<string, int>): Result<bool, string>
  {
    if items == [] then Ok(true)
    else if items[0].0 !in total then Err(items[0].0)
    else if items[0].1 > total[items[0].0] then Ok(false)
    else WithinTotal(items[1..], total)
  }

  predicate Fits(x: (string, int), total: map<string, int>)
  {
    x.0 in total && x.1 <= total[x.0]
  }

  /**
   * The check passes exactly when every pair names a known colour within its total; it fails
   * at a known colour over its total; it raises for a colour that is not in `total`, and only
   * when every pair before it fits.
   */
  lemma {:induction false} WithinTotalMeaning(items: seq<(string, int)>, total: map<string, int>)
    ensures WithinTotal(items, total) == Ok(true) <==> forall k :: 0 <= k < |items| ==> Fits(items[k], total)
    ensures WithinTotal(items, total) == Ok(false) ==>
      exists k :: 0 <= k < |items| && items[k].0 in total && items[k].1 > total[items[k].0]
    ensures WithinTotal(items, total).Err? ==> exists k :: (
      && 0 <= k < |items| && items[k].0 == WithinTotal(items, total).error && items[k].0 !in total
      && forall j :: 0 <= j < k ==> Fits(items[j], total))
  {
    if items != [] && Fits(items[0], total) {
      var rest := items[1..];
      WithinTotalMeaning(rest, total);
      assert forall k :: 1 <= k < |items| ==> items[k] == rest[k - 1];
      if WithinTotal(rest, total).Err? {
        var k :| (&& 0 <= k < |rest| && rest[k].0 == WithinTotal(rest, total).error && rest[k].0 !in total
          && forall j :: 0 <= j < k ==> Fits(rest[j], total));
        assert items[k + 1] == rest[k];
      }
    }
  }

  /** The first raise among the games from index `i` on, if any. */
  function FirstError(games: seq<Game>, total: map<string, int>, i: nat): (r: Option<string>)
    requires i <= |games|
    ensures r.None? <==> forall k :: i <= k < |games| ==> WithinTotal(Items(games[k]), total).Ok?
    ensures r.Some? ==> exists k :: i <= k < |games| && WithinTotal(Items(games[k]), total) == Err(r.value)
    decreases |games| - i
  {
    if i == |games| then None
    else match WithinTotal(Items(games[i]), total)
      case Err(c) => Some(c)
      case Ok(_) => FirstError(games, total, i + 1)
  }

  /**
   * `possible_games`: one entry per game, its number (from 1) when every count fits the
   * bag and 0 otherwise. The first colour, game by game, that is not in the bag raises.
   */
  function PossibleGames(games: seq<Game>, total: map<string, int>): (r: Result<seq<nat>, string>)
    ensures r.Err? <==> exists k :: 0 <= k < |games| && WithinTotal(Items(games[k]), total).Err?
    ensures r.Ok? ==> |r.value| == |games|
  {
    match FirstError(games, total, 0)
    case Some(c) => Err(c)
    case None =>
      Ok(seq(|games|, k requires 0 <= k < |games| =>
        if WithinTotal(Items(games[k]), total).value then k + 1 else 0))
  }

  /** Each entry is the game's number exactly when all its counts fit, and 0 otherwise. */
  lemma PossibleGamesMeaning(games: seq<Game>, total: map<string, int>, g: nat)
    requires PossibleGames(games, total).Ok? && g < |games|
    ensures var ok := forall x :: x in Items(games[g]) ==> Fits(x, total);
      PossibleGames(games, total).value[g] == if ok then g + 1 else 0
  {
    WithinTotalMeaning(Items(games[g]), total);
  }

  // ---------------------------------------------------------------------------------------
  // Powers

  /** A dictionary from colour to the largest count seen, keys in first-appearance order. */
  type Maxima = seq<(string, int)>

  function Keys(t: Maxima): (r: seq<string>)
    ensures |r| == |t| && forall k :: 0 <= k < |t| ==> r[k] == t[k].0
  {
    seq(|t|, k requires 0 <= k < |t| => t[k].0)
  }

  /** `d.get(color, 0)`. */
  function Get(t: Maxima, color: string): int
  {
    match Text.IndexOf(Keys(t), color)
    case None => 0
    case Some(k) => t[k].1
  }

  function Max(a: int, b: int): int { if a < b then b else a }

  /** `d[color] = int(max(count, d.get(color, 0)))`. */
  function Raise(t: Maxima, color: string, count: int): Maxima
  {
    match Text.IndexOf(Keys(t), color)
    case None => t + [(color, Max(count, 0))]
    case Some(k) => t[k := (color, Max(count, t[k].1))]
  }

  /** The dictionary after folding the remaining pairs into it, in order. */
  function RaiseAll(t: Maxima, items: seq<(string, int)>): Maxima
    decreases |items|
  {
    if items == [] then t else RaiseAll(Raise(t, items[0].0, items[0].1), items[1..])
  }

  /** The per-colour maxima of a game. */
  function MaximaOf(game: Game): Maxima
  {
    RaiseAll([], Items(game))
  }

  /** `math.prod` of the dictionary's values; the empty product is 1. */
  function Product(t: Maxima): int
  {
    if t == [] then 1 else Product(t[..|t| - 1]) * t[|t| - 1].1
  }

  /** The largest count of `color` among the pairs, and 0 when it is not among them. */
  function Peak(items: seq<(string, int)>, color: string): (r: int)
    ensures r >= 0
  {
    if items == [] then 0
    else Max(Peak(items[1..], color), if items[0].0 == color then items[0].1 else 0)
  }

  /** The peak bounds every count of the colour, and is one of them unless it is 0. */
  lemma {:induction false} PeakBounds(items: seq<(string, int)>, color: string)
    ensures forall k :: 0 <= k < |items| && items[k].0 == color ==> items[k].1 <= Peak(items, color)
    ensures Peak(items, color) == 0 || exists k :: 0 <= k < |items| && items[k] == (color, Peak(items, color))
  {
    if items != [] {
      var rest := items[1..];
      PeakBounds(rest, color);
      assert forall k :: 1 <= k < |items| ==> items[k] == rest[k - 1];
      if Peak(items, color) != 0 && Peak(items, color) == Peak(rest, color) {
        var k :| 0 <= k < |rest| && rest[k] == (color, Peak(rest, color));
        assert items[k + 1] == rest[k];
      }
    }
  }

  ghost predicate Tracks(t: Maxima)
  {
    (forall i, j :: 0 <= i < j < |t| ==> t[i].0 != t[j].0) && forall i :: 0 <= i < |t| ==> t[i].1 >= 0
  }

  /**
   * Folding pairs into a dictionary of non-negative maxima keeps the keys distinct, its keys
   * become the old ones and the colours of the pairs, and each colour ends at the larger of
   * its old value and its peak among the pairs.
   */
  lemma {:induction false} RaiseAllFacts(t: Maxima, items: seq<(string, int)>)
    requires Tracks(t)
    ensures Tracks(RaiseAll(t, items))
    ensures forall c :: c in Keys(RaiseAll(t, items)) <==> c in Keys(t) || c in Keys(items)
    ensures forall c :: Get(RaiseAll(t, items), c) == Max(Get(t, c), Peak(items, c))
    decreases |items|
  {
    if items != [] {
      var next := Raise(t, items[0].0, items[0].1);
      RaiseFacts(t, items[0].0, items[0].1);
      RaiseAllFacts(next, items[1..]);
      assert Keys(items) == [items[0].0] + Keys(items[1..]);
    }
  }

  lemma RaiseFacts(t: Maxima, color: string, count: int)
    requires Tracks(t)
    ensures Tracks(Raise(t, color, count))
    ensures forall c :: c in Keys(Raise(t, color, count)) <==> c in Keys(t) || c == color
    ensures forall c :: Get(Raise(t, color, count), c) == if c == color then Max(count, Get(t, c)) else Get(t, c)
  {
    var r := Raise(t, color, count);
    match Text.IndexOf(Keys(t), color)
    case None =>
      assert Keys(r) == Keys(t) + [color];
      assert forall i :: 0 <= i < |t| ==> t[i].0 != color by {
        assert forall i :: 0 <= i < |t| ==> Keys(t)[i] == t[i].0;
      }
      forall c ensures Get(r, c) == if c == color then Max(count, Get(t, c)) else Get(t, c) {
        GetAppend(t, color, Max(count, 0), c);
      }
    case Some(k) =>
      assert Keys(r) == Keys(t)[k := color];
      assert Keys(t)[k] == color;
      assert Keys(r) == Keys(t);
      forall c ensures Get(r, c) == if c == color then Max(count, Get(t, c)) else Get(t, c) {
        GetUpdate(t, k, Max(count, t[k].1), c);
      }
  }

  lemma GetAppend(t: Maxima, color: string, v: int, c: string)
    requires color !in Keys(t)
    ensures Get(t + [(color, v)], c) == if c == color then v else Get(t, c)
  {
    var r := t + [(color, v)];
    assert Keys(r) == Keys(t) + [color];
    match Text.IndexOf(Keys(r), c)
    case None =>
    case Some(k) =>
      if k < |t| {
        assert Keys(r)[..k] == Keys(t)[..k];
      } else {
        assert Keys(r)[..k] == Keys(t);
      }
  }

  lemma GetUpdate(t: Maxima, k: nat, v: int, c: string)
    requires Tracks(t) && k < |t|
    ensures Get(t[k := (t[k].0, v)], c) == if c == t[k].0 then v else Get(t, c)
  {
    var r := t[k := (t[k].0, v)];
    assert Keys(r) == Keys(t);
    match Text.IndexOf(Keys(t), c)
    case None =>
    case Some(j) =>
  }

  /**
   * The maxima of a game hold each colour it shows exactly once, first-shown first, and
   * the value of a colour bounds every count of it and is one of them (or 0).
   */
  lemma MaximaMeaning(game: Game)
    ensures forall i, j :: 0 <= i < j < |MaximaOf(game)| ==> MaximaOf(game)[i].0 != MaximaOf(game)[j].0
    ensures forall c :: c in Keys(MaximaOf(game)) <==> c in Keys(Items(game))
    ensures forall c :: Get(MaximaOf(game), c) == Peak(Items(game), c)
  {
    RaiseAllFacts([], Items(game));
  }

  /** Folding two runs of pairs is folding the first, then the second. */
  lemma {:induction false} RaiseAllConcat(t: Maxima, a: seq<(string, int)>, b: seq<(string, int)>)
    ensures RaiseAll(t, a + b) == RaiseAll(RaiseAll(t, a), b)
    decreases |a|
  {
    if a != [] {
      assert (a + b)[0] == a[0] && (a + b)[1..] == a[1..] + b;
      assert RaiseAll(t, a + b) == RaiseAll(Raise(t, a[0].0, a[0].1), a[1..] + b);
      RaiseAllConcat(Raise(t, a[0].0, a[0].1), a[1..], b);
    } else {
      assert a + b == b;
    }
  }

  /** The inner loop of `power_of`: fold one revealed set into the maxima. */
  method RaiseReveal(maxima: Maxima, shown: Reveal) returns (t: Maxima)
    ensures t == RaiseAll(maxima, shown)
  {
    t := maxima;
    for j := 0 to |shown|
      invariant RaiseAll(t, shown[j..]) == RaiseAll(maxima, shown)
    {
      assert shown[j..][0] == shown[j] && shown[j..][1..] == shown[j + 1..];
      t := Raise(t, shown[j].0, shown[j].1);
    }
    assert shown[|shown|..] == [];
  }

  /** `power_of` for one game: the nested loops fill the maxima, then take their product. */
  method PowerOfGame(game: Game) returns (power: int)
    ensures power == Product(MaximaOf(game))
  {
    var maxima: Maxima := [];
    for i := 0 to |game|
      invariant RaiseAll(maxima, Items(game[i..])) == MaximaOf(game)
    {
      assert Items(game[i..]) == game[i] + Items(game[i + 1..]) by {
        assert game[i..][0] == game[i] && game[i..][1..] == game[i + 1..];
      }
      RaiseAllConcat(maxima, game[i], Items(game[i + 1..]));
      maxima := RaiseReveal(maxima, game[i]);
    }
    assert game[|game|..] == [];
    power := Product(maxima);
  }

  /** `power_of`: one product of maxima per game. */
  method PowerOf(games: seq<Game>) returns (result: seq<int>)
    ensures |result| == |games|
    ensures forall g :: 0 <= g < |games| ==> result[g] == Product(MaximaOf(games[g]))
  {
    result := [];
    for g := 0 to |games|
      invariant |result| == g
      invariant forall k :: 0 <= k < g ==> result[k] == Product(MaximaOf(games[k]))
    {
      var p := PowerOfGame(games[g]);
      result := result + [p];
    }
  }
}
