/** Day 2: the cube game. A line is `Game <id>: <turn>; <turn>; ...`, a turn is
    `<draw>, <draw>, ...` and a draw is `<count> <colour>`. Part one keeps three
    counters per game that each draw overwrites; part two keeps the largest
    count of each colour and multiplies them. */
module Day2 {
  import opened Wrappers
  import opened Strings

  datatype Colour = Red | Green | Blue

  /** The three counters `red_cubes`, `green_cubes`, `blue_cubes`. */
  datatype Counts = Counts(red: nat, green: nat, blue: nat) {
    function Get(c: Colour): nat {
      match c
      case Red => red
      case Green => green
      case Blue => blue
    }

    /** Overwrite one counter. */
    function Set(c: Colour, n: nat): (r: Counts)
      ensures r.Get(c) == n
      ensures forall o :: o != c ==> r.Get(o) == Get(o)
    {
      match c
      case Red => this.(red := n)
      case Green => this.(green := n)
      case Blue => this.(blue := n)
    }
  }

  const MaxRed: nat := 12
  const MaxGreen: nat := 13
  const MaxBlue: nat := 14

  predicate WithinLimits(c: Counts) {
    c.red <= MaxRed && c.green <= MaxGreen && c.blue <= MaxBlue
  }

  const UnknownColour := "Unknown cube colour!"

  function ColourName(c: Colour): string {
    match c
    case Red => "red"
    case Green => "green"
    case Blue => "blue"
  }

  /** The `match cube_colour` arms; anything else panics. */
  function ParseColour(s: string): (r: Result<Colour>)
    ensures r.Ok? <==> s == "red" || s == "green" || s == "blue"
    ensures r.Ok? ==> ColourName(r.value) == s
    ensures r.Panic? ==> r.reason == UnknownColour
  {
    if s == "red" then Ok(Red)
    else if s == "green" then Ok(Green)
    else if s == "blue" then Ok(Blue)
    else Panic(UnknownColour)
  }

  datatype Draw = Draw(count: nat, colour: Colour)

  /** A draw: split on ' ', parse the first piece as the count (panicking if it
      is not a number), then match the second piece (panicking if it is
      missing or not a colour). */
  function ParseDraw(s: string): (r: Result<Draw>) {
    var parts := Split(s, " ");
    var count :- Unwrap(ParseNat(parts[0]), UnwrapErr);
    if |parts| < 2 then Panic(IndexOutOfBounds)
    else
      var colour :- ParseColour(parts[1]);
      Ok(Draw(count, colour))
  }

  function FormatDraw(d: Draw): string {
    NatToString(d.count) + " " + ColourName(d.colour)
  }

  /** Every draw written in the puzzle's format parses back to itself. */
  lemma ParseFormatDraw(d: Draw)
    ensures ParseDraw(FormatDraw(d)) == Ok(d)
  {
    var n, name := NatToString(d.count), ColourName(d.colour);
    assert ' ' !in n by {
      assert forall k :: 0 <= k < |n| ==> IsDigit(n[k]);
    }
    SplitFirstChar(n, ' ', name);
    assert ' ' !in name;
    NotContainsChar(name, ' ');
    SplitAbsent(name, " ");
    assert Split(FormatDraw(d), " ") == [n, name];
    ParseNatToString(d.count);
  }

  // ----------------------------------------------------------------- part one

  /** The draws of one turn, applied in order: each overwrites its colour's
      counter, and the first draw that fails to parse panics. */
  function ApplyDraws(draws: seq<string>, c: Counts): (r: Result<Counts>)
    decreases |draws|, 1
  {
    if draws == [] then Ok(c) else ApplyFirst(draws, c)
  }

  /** The first draw of a turn, then the rest. */
  function ApplyFirst(draws: seq<string>, c: Counts): (r: Result<Counts>)
    requires draws != []
    decreases |draws|, 0
  {
    var d :- ParseDraw(draws[0]);
    ApplyDraws(draws[1..], c.Set(d.colour, d.count))
  }

  /** A colour that a turn does not draw keeps its counter: counters persist
      across turns and a draw changes only its own colour. */
  lemma {:induction false} UndrawnColourKept(draws: seq<string>, c: Counts, col: Colour)
    requires ApplyDraws(draws, c).Ok?
    requires forall k :: 0 <= k < |draws| && ParseDraw(draws[k]).Ok? ==> ParseDraw(draws[k]).value.colour != col
    ensures ApplyDraws(draws, c).value.Get(col) == c.Get(col)
    decreases |draws|
  {
    if draws != [] {
      var d := ParseDraw(draws[0]).value;
      assert forall k :: 1 <= k < |draws| ==> draws[k] == draws[1..][k - 1];
      UndrawnColourKept(draws[1..], c.Set(d.colour, d.count), col);
    }
  }

  /** `turns.iter().map(..).all(|x| x)`: the turns are played in order and the
      first turn after which a counter exceeds its limit stops the game, so
      later turns are not even parsed. */
  function TurnsPossible(turns: seq<string>, c: Counts): (r: Result<bool>)
    decreases |turns|
  {
    if turns == [] then Ok(true)
    else
      var c' :- ApplyDraws(Split(turns[0], ", "), c);
      if WithinLimits(c') then TurnsPossible(turns[1..], c') else Ok(false)
  }

  /** A game already shown impossible stays impossible whatever follows. */
  lemma {:induction false} ImpossibleStaysImpossible(a: seq<string>, b: seq<string>, c: Counts)
    requires TurnsPossible(a, c) == Ok(false)
    ensures TurnsPossible(a + b, c) == Ok(false)
    decreases |a|
  {
    var ab := a + b;
    assert ab[0] == a[0];
    var c' := ApplyDraws(Split(a[0], ", "), c).value;
    if WithinLimits(c') {
      assert ab[1..] == a[1..] + b by {
        assert forall k :: 0 <= k < |ab| - 1 ==> ab[1..][k] == ab[k + 1];
      }
      ImpossibleStaysImpossible(a[1..], b, c');
    }
  }

  /** The part-one value of a line, as a function: the id when the game is
      possible, 0 otherwise. */
  function GameValue(line: string): (r: Result<nat>)
  {
    var segments := Split(line, ": ");
    var id :- Unwrap(ParseNat(Replace(segments[0], "Game ", "")), UnwrapErr);
    if |segments| < 2 then Panic(IndexOutOfBounds)
    else
      var possible :- TurnsPossible(Split(segments[1], "; "), Counts(0, 0, 0));
      Ok(if possible then id else 0)
  }

  /** The per-line closure of part one, with its mutable counters. */
  method PossibleGameId(line: string) returns (r: Result<nat>)
    ensures r == GameValue(line)
  {
    var segments := Split(line, ": ");
    var parsed := ParseNat(Replace(segments[0], "Game ", ""));
    if parsed.None? {
      return Panic(UnwrapErr);
    }
    var id := parsed.value;
    var counts := Counts(0, 0, 0);
    if |segments| < 2 {
      return Panic(IndexOutOfBounds);
    }
    var turns := Split(segments[1], "; ");
    var possible := true;
    var i := 0;
    while i < |turns|
      invariant 0 <= i <= |turns|
      invariant TurnsPossible(turns, Counts(0, 0, 0)) == TurnsPossible(turns[i..], counts)
    {
      var draws := Split(turns[i], ", ");
      ghost var before := counts;
      for j := 0 to |draws|
        invariant ApplyDraws(draws, before) == ApplyDraws(draws[j..], counts)
      {
        assert draws[j..][1..] == draws[j + 1..];
        var d := ParseDraw(draws[j]);
        if d.Panic? {
          return Panic(d.reason);
        }
        counts := counts.Set(d.value.colour, d.value.count);
      }
      assert draws[|draws|..] == [];
      if !WithinLimits(counts) {
        possible := false;
        break;
      }
      assert turns[i..][1..] == turns[i + 1..];
      i := i + 1;
    }
    r := Ok(if possible then id else 0);
  }

  // ----------------------------------------------------------------- part two

  /** The parsed draws of one turn, in order; the first that fails panics. */
  function ParseDraws(draws: seq<string>): Result<seq<Draw>> {
    Collect(DrawResults(draws))
  }

  function DrawResults(draws: seq<string>): (r: seq<Result<Draw>>)
    ensures |r| == |draws| && forall k :: 0 <= k < |draws| ==> r[k] == ParseDraw(draws[k])
  {
    seq(|draws|, k requires 0 <= k < |draws| => ParseDraw(draws[k]))
  }

  function TurnResults(turns: seq<string>): (r: seq<Result<seq<Draw>>>)
    ensures |r| == |turns| && forall i :: 0 <= i < |turns| ==> r[i] == ParseDraws(Split(turns[i], ", "))
  {
    seq(|turns|, i requires 0 <= i < |turns| => ParseDraws(Split(turns[i], ", ")))
  }

  function Flatten(dss: seq<seq<Draw>>): seq<Draw> {
    if dss == [] then [] else Flatten(dss[..|dss| - 1]) + dss[|dss| - 1]
  }

  /** All draws of all turns, turn by turn; the first failure panics. */
  function ParseTurns(turns: seq<string>): Result<seq<Draw>> {
    var dss :- Collect(TurnResults(turns));
    Ok(Flatten(dss))
  }

  /** The largest count drawn of a colour, 0 when it is never drawn. */
  function MaxCount(ds: seq<Draw>, col: Colour): (r: nat)
    ensures forall k :: 0 <= k < |ds| && ds[k].colour == col ==> ds[k].count <= r
    ensures r == 0 || exists k :: 0 <= k < |ds| && ds[k].colour == col && ds[k].count == r
  {
    if ds == [] then 0
    else
      var m := MaxCount(ds[..|ds| - 1], col);
      var d := ds[|ds| - 1];
      if d.colour == col && d.count > m then d.count else m
  }

  function Power(ds: seq<Draw>): int {
    MaxCount(ds, Red) * MaxCount(ds, Green) * MaxCount(ds, Blue)
  }

  /** A colour that is never drawn makes the power 0. */
  lemma UndrawnColourGivesZero(ds: seq<Draw>, col: Colour)
    requires forall k :: 0 <= k < |ds| ==> ds[k].colour != col
    ensures Power(ds) == 0
  {
    assert MaxCount(ds, col) == 0;
  }

  /** The part-two value of a line, as a function. The id is not parsed. */
  function GamePowerValue(line: string): (r: Result<int>)
  {
    var segments := Split(line, ": ");
    if |segments| < 2 then Panic(IndexOutOfBounds)
    else
      var ds :- ParseTurns(Split(segments[1], "; "));
      Ok(Power(ds))
  }

  /** One step of the running maxima: raise the drawn colour's maximum. */
  function Raise(m: Counts, d: Draw): Counts {
    if d.count > m.Get(d.colour) then m.Set(d.colour, d.count) else m
  }

  function RaiseAll(m: Counts, ds: seq<Draw>): Counts {
    if ds == [] then m else Raise(RaiseAll(m, ds[..|ds| - 1]), ds[|ds| - 1])
  }

  lemma {:induction false} RaiseAllAppend(m: Counts, a: seq<Draw>, b: seq<Draw>)
    ensures RaiseAll(m, a + b) == RaiseAll(RaiseAll(m, a), b)
    decreases |b|
  {
    if b == [] {
      assert a + b == a;
    } else {
      assert (a + b)[..|a + b| - 1] == a + b[..|b| - 1];
      RaiseAllAppend(m, a, b[..|b| - 1]);
    }
  }

  /** The running maxima started from zero are the maxima of `MaxCount`. */
  lemma {:induction false} RaiseAllMax(ds: seq<Draw>, col: Colour)
    ensures RaiseAll(Counts(0, 0, 0), ds).Get(col) == MaxCount(ds, col)
    decreases |ds|
  {
    if ds != [] {
      RaiseAllMax(ds[..|ds| - 1], col);
    }
  }

  lemma FlattenAppend(dss: seq<seq<Draw>>, ds: seq<Draw>)
    ensures Flatten(dss + [ds]) == Flatten(dss) + ds
  {
    assert (dss + [ds])[..|dss|] == dss;
  }

  /** The inner `for draws in drawn_colours` loop of part two. */
  method TurnMaxima(draws: seq<string>, m: Counts) returns (r: Result<Counts>)
    ensures ParseDraws(draws).Ok? ==> r == Ok(RaiseAll(m, ParseDraws(draws).value))
    ensures ParseDraws(draws).Panic? ==> r == Panic(ParseDraws(draws).reason)
  {
    ghost var parsed := DrawResults(draws);
    ghost var cur: seq<Draw> := [];
    var maxima := m;
    for j := 0 to |draws|
      invariant Collect(parsed[..j]) == Ok(cur)
      invariant maxima == RaiseAll(m, cur)
    {
      var d := ParseDraw(draws[j]);
      assert parsed[j] == d;
      if d.Panic? {
        CollectPanicAt(parsed, j);
        return Panic(d.reason);
      }
      CollectOkAt(parsed, j);
      cur := cur + [d.value];
      maxima := Raise(maxima, d.value);
    }
    assert parsed[..|draws|] == parsed;
    r := Ok(maxima);
  }

  /** The power is the product of the running maxima. */
  lemma PowerOfMaxima(ds: seq<Draw>)
    ensures var m := RaiseAll(Counts(0, 0, 0), ds); Power(ds) == m.red * m.green * m.blue
  {
    RaiseAllMax(ds, Red);
    RaiseAllMax(ds, Green);
    RaiseAllMax(ds, Blue);
  }

  /** The outer `for turn in turns` loop of part two: the running maxima
      over all draws of all turns, or the first panic. */
  method TurnsMaxima(turns: seq<string>) returns (r: Result<Counts>)
    ensures ParseTurns(turns).Ok? ==> r == Ok(RaiseAll(Counts(0, 0, 0), ParseTurns(turns).value))
    ensures ParseTurns(turns).Panic? ==> r == Panic(ParseTurns(turns).reason)
  {
    ghost var results := TurnResults(turns);
    var maxima := Counts(0, 0, 0);
    ghost var done: seq<seq<Draw>> := [];
    for i := 0 to |turns|
      invariant Collect(results[..i]) == Ok(done)
      invariant maxima == RaiseAll(Counts(0, 0, 0), Flatten(done))
    {
      var t := TurnMaxima(Split(turns[i], ", "), maxima);
      if t.Panic? {
        CollectPanicAt(results, i);
        return Panic(t.reason);
      }
      ghost var cur := results[i].value;
      CollectOkAt(results, i);
      RaiseAllAppend(Counts(0, 0, 0), Flatten(done), cur);
      FlattenAppend(done, cur);
      done := done + [cur];
      maxima := t.value;
    }
    assert results[..|turns|] == results;
    r := Ok(maxima);
  }

  /** The per-line closure of part two, with its running maxima. */
  method GamePower(line: string) returns (r: Result<int>)
    ensures r == GamePowerValue(line)
  {
    var segments := Split(line, ": ");
    if |segments| < 2 {
      return Panic(IndexOutOfBounds);
    }
    var turns := Split(segments[1], "; ");
    var t := TurnsMaxima(turns);
    if t.Panic? {
      return Panic(t.reason);
    }
    var maxima := t.value;
    PowerOfMaxima(ParseTurns(turns).value);
    r := Ok(maxima.red * maxima.green * maxima.blue);
  }
}
