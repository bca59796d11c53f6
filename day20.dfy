/** Day 20: a network of pulse modules. A pulse is low (`false`) or high
    (`true`). A flip-flop toggles on a low pulse and sends its new state; a
    conjunction remembers the last pulse from each of its inputs and sends
    low exactly when all of them are high; the broadcaster forwards what it
    gets; a module without a type stores the pulse and sends nothing.
    Pressing the button sends one low pulse to `broadcaster`, and pulses
    travel first in, first out. The answer is the number of low pulses sent
    times the number of high pulses. */
module Day20 {
  import opened Wrappers
  import Strings

  const UnexpectedVariant := "Unexpected variant for value. "
  const AlreadyBorrowed := "already borrowed: BorrowMutError"

  // ---------------------------------------------------------------- handlers

  datatype ModuleHandler =
    | FlipFlop(on: bool)
    | Conjunction(memory: map<string, bool>)
    | Untyped(value: Option<bool>)
    | Broadcaster

  /** `ModuleHandler::handle` on a value: the new handler and the pulse it
      sends, if any. */
  function Handled(h: ModuleHandler, pulse: bool, from: string): (ModuleHandler, Option<bool>) {
    match h
    case FlipFlop(on) => if !pulse then (FlipFlop(!on), Some(!on)) else (h, None)
    case Conjunction(memory) =>
      var memory' := memory[from := pulse];
      (Conjunction(memory'), Some(!AllHigh(memory')))
    case Untyped(_) => (Untyped(Some(pulse)), None)
    case Broadcaster => (h, Some(pulse))
  }

  /** Every remembered input was high. */
  predicate AllHigh(memory: map<string, bool>) {
    forall k :: k in memory ==> memory[k]
  }

  /** `ModuleHandler::add_src` on a value. */
  function WithSource(h: ModuleHandler, src: string): ModuleHandler {
    match h
    case Conjunction(memory) => Conjunction(memory[src := false])
    case _ => h
  }

  /** `ModuleHandler::val` on a value: the stored pulse of a module without
      a type, which is cleared; any other module panics. */
  function Valued(h: ModuleHandler): (r: Result<(ModuleHandler, Option<bool>)>)
    ensures r.Panic? <==> !h.Untyped?
    ensures r.Panic? ==> r.reason == UnexpectedVariant
  {
    match h
    case Untyped(value) => Ok((Untyped(None), value))
    case _ => Panic(UnexpectedVariant)
  }

  /** What `val` reads after `handle` on a module without a type is the
      pulse handled, and the module is left empty. */
  lemma ValAfterHandle(value: Option<bool>, pulse: bool, from: string)
    ensures Handled(Untyped(value), pulse, from).1 == None
    ensures Valued(Handled(Untyped(value), pulse, from).0) == Ok((Untyped(None), Some(pulse)))
  {
  }

  /** A high pulse is ignored by a flip-flop. */
  lemma FlipFlopIgnoresHigh(on: bool, from: string)
    ensures Handled(FlipFlop(on), true, from) == (FlipFlop(on), None)
  {
  }

  /** Two low pulses bring a flip-flop back where it was, and the two pulses
      it sends are opposite, the first being the new state. */
  lemma FlipFlopTwice(on: bool, a: string, b: string)
    ensures var (h1, o1) := Handled(FlipFlop(on), false, a);
      var (h2, o2) := Handled(h1, false, b);
      h1 == FlipFlop(!on) && o1 == Some(!on) && h2 == FlipFlop(on) && o2 == Some(on)
  {
  }

  /** A conjunction keeps the latest pulse of each input and sends low
      exactly when, after that, every remembered input is high. */
  lemma ConjunctionSends(memory: map<string, bool>, pulse: bool, from: string)
    ensures var (h, o) := Handled(Conjunction(memory), pulse, from);
      && h.Conjunction? && h.memory.Keys == memory.Keys + {from} && h.memory[from] == pulse
      && (forall k :: k in memory && k != from ==> h.memory[k] == memory[k])
      && (o == Some(false) <==> pulse && forall k :: k in memory && k != from ==> memory[k])
      && o.Some?
  {
  }

  /** A conjunction with an input that has not yet sent a high pulse sends
      high, whatever arrives from elsewhere. */
  lemma ConjunctionWaitingSendsHigh(memory: map<string, bool>, src: string, pulse: bool, from: string)
    requires from != src
    ensures Handled(WithSource(Conjunction(memory), src), pulse, from).1 == Some(true)
  {
    var m := memory[src := false][from := pulse];
    assert src in m && !m[src];
  }

  /** The broadcaster sends what it gets and does not change. */
  lemma BroadcasterForwards(pulse: bool, from: string)
    ensures Handled(Broadcaster, pulse, from) == (Broadcaster, Some(pulse))
  {
  }

  /** A module without a type sends nothing and keeps the last pulse. */
  lemma UntypedStores(value: Option<bool>, pulse: bool, from: string)
    ensures Handled(Untyped(value), pulse, from) == (Untyped(Some(pulse)), None)
  {
  }

  /** `add_src` registers the source as low, only in a conjunction, and a
      second registration changes nothing. */
  lemma WithSourceIdempotent(h: ModuleHandler, src: string)
    ensures WithSource(WithSource(h, src), src) == WithSource(h, src)
    ensures h.Conjunction? ==> WithSource(h, src).Conjunction? && WithSource(h, src).memory == h.memory[src := false]
    ensures !h.Conjunction? ==> WithSource(h, src) == h
  {
  }

  // ---------------------------------------------------------------- parsing

  /** A module: its handler and the modules it sends to. */
  datatype Node = Node(handler: ModuleHandler, destinations: seq<string>)

  type Network = map<string, Node>

  predicate IsLower(ch: char) {
    'a' <= ch <= 'z'
  }

  /** The number of leading characters in the class `[&|%]`. */
  function TypeLength(s: string): (n: nat)
    ensures n <= |s|
    ensures forall j :: 0 <= j < n ==> s[j] in "&|%"
    ensures n == |s| || s[n] !in "&|%"
  {
    if s != [] && s[0] in "&|%" then 1 + TypeLength(s[1..]) else 0
  }

  /** The number of leading characters in the class `[a-z, ]`. */
  function ListLength(s: string): (n: nat)
    ensures n <= |s|
    ensures forall j :: 0 <= j < n ==> IsLower(s[j]) || s[j] in ", "
    ensures n == |s| || !(IsLower(s[n]) || s[n] in ", ")
  {
    if s != [] && (IsLower(s[0]) || s[0] in ", ") then 1 + ListLength(s[1..]) else 0
  }

  /** The handler a line's type and name give. */
  function NewHandler(kind: string, key: string): ModuleHandler {
    if kind == "%" then FlipFlop(false)
    else if kind == "&" then Conjunction(map[])
    else if key == "broadcaster" then Broadcaster
    else Untyped(None)
  }

  /** One line `<type><name> -> <destinations>`, read as the pattern
      `([&|%]*)([a-z]+) -> ([a-z, ]+)` reads it when it matches from the
      first character: the type is the leading run of `&`, `|` and `%`, the
      name everything from there up to the first arrow (all lower-case
      letters), the destinations the longest run of lower-case letters,
      commas and spaces after the arrow, split at ", ". The source's pattern
      is not anchored, so on a line with other text before the name it
      matches further in where this model fails; on lines written as
      `LineText` writes them the two agree (`ParseLineText`). */
  function ParseLine(line: string): (r: Result<(string, Node)>)
    ensures r.Panic? ==> r.reason == UnwrapNone
    ensures r.Ok? ==> r.value.0 != [] && forall j :: 0 <= j < |r.value.0| ==> IsLower(r.value.0[j])
  {
    match Strings.SplitOnce(line, " -> ")
    case None => Panic(UnwrapNone)
    case Some((lhs, rhs)) =>
      var t := TypeLength(lhs);
      var key := lhs[t..];
      var n := ListLength(rhs);
      if key == [] || n == 0 || exists j :: 0 <= j < |key| && !IsLower(key[j]) then Panic(UnwrapNone)
      else Ok((key, Node(NewHandler(lhs[..t], key), Strings.Split(rhs[..n], ", "))))
  }

  /** The text of a module line, as the puzzle input writes it. */
  function LineText(kind: string, key: string, destinations: seq<string>): string {
    kind + key + " -> " + Strings.Join(destinations, ", ")
  }

  predicate Name(s: string) {
    s != [] && forall j :: 0 <= j < |s| ==> IsLower(s[j])
  }

  /** A line written from a type, a name and a non-empty list of names
      parses back to them. */
  lemma ParseLineText(kind: string, key: string, destinations: seq<string>)
    requires kind in {"", "%", "&"} && Name(key)
    requires |destinations| > 0 && forall i :: 0 <= i < |destinations| ==> Name(destinations[i])
    ensures ParseLine(LineText(kind, key, destinations)) == Ok((key, Node(NewHandler(kind, key), destinations)))
  {
    var lhs := kind + key;
    var list := Strings.Join(destinations, ", ");
    var line := LineText(kind, key, destinations);
    assert line == lhs + " -> " + list;
    assert ' ' !in lhs by {
      forall j | 0 <= j < |lhs| ensures lhs[j] != ' ' {
        if j >= |kind| {
          assert lhs[j] == key[j - |kind|];
        }
      }
    }
    Strings.SplitOnceBy(lhs, " -> ", list, 0);
    TypeLengthOf(kind, key);
    assert lhs[..|kind|] == kind && lhs[|kind|..] == key;
    ListOfNames(destinations);
    assert list[..|list|] == list;
  }

  /** The run of type characters in a type followed by a name is the type. */
  lemma TypeLengthOf(kind: string, key: string)
    requires kind in {"", "%", "&"} && Name(key)
    ensures TypeLength(kind + key) == |kind|
  {
    if kind == "" {
      assert kind + key == key;
      assert key[0] !in "&|%";
    } else {
      assert (kind + key)[1..] == key;
      assert key[0] !in "&|%";
    }
  }

  /** Every character of names joined by ", " is in `[a-z, ]`. */
  lemma {:induction false} JoinedNames(ds: seq<string>)
    requires forall i :: 0 <= i < |ds| ==> Name(ds[i])
    ensures forall j :: 0 <= j < |Strings.Join(ds, ", ")| ==>
      IsLower(Strings.Join(ds, ", ")[j]) || Strings.Join(ds, ", ")[j] in ", "
    decreases |ds|
  {
    if |ds| > 1 {
      JoinedNames(ds[1..]);
      var rest := Strings.Join(ds[1..], ", ");
      var s := Strings.Join(ds, ", ");
      assert s == ds[0] + ", " + rest;
      forall j | 0 <= j < |s| ensures IsLower(s[j]) || s[j] in ", " {
        if j < |ds[0]| {
          assert s[j] == ds[0][j];
        } else if j >= |ds[0]| + 2 {
          assert s[j] == rest[j - |ds[0]| - 2];
        }
      }
    }
  }

  /** Names joined by ", " are one whole run of `[a-z, ]` and split back
      into the names. */
  lemma ListOfNames(ds: seq<string>)
    requires |ds| > 0 && forall i :: 0 <= i < |ds| ==> Name(ds[i])
    ensures ListLength(Strings.Join(ds, ", ")) == |Strings.Join(ds, ", ")|
    ensures Strings.Split(Strings.Join(ds, ", "), ", ") == ds
  {
    var s := Strings.Join(ds, ", ");
    JoinedNames(ds);
    assert forall k :: 0 <= k < |ds| ==> ',' !in ds[k];
    Strings.SplitJoinBy(ds, ", ", 0);
  }

  // ---------------------------------------------------------------- networks

  /** A module without a type and without destinations for every name in
      `ds` the network does not have yet. */
  function AddMissing(net: Network, ds: seq<string>): (r: Network)
    ensures r.Keys == net.Keys + set d | d in ds
    ensures forall k :: k in r ==> r[k] == if k in net then net[k] else Node(Untyped(None), [])
  {
    if ds == [] then net
    else
      var r := AddMissing(net, ds[..|ds| - 1]);
      var d := ds[|ds| - 1];
      assert ds == ds[..|ds| - 1] + [d];
      if d in r then r else r[d := Node(Untyped(None), [])]
  }

  /** The first loop of `parse_modules` over `lines`: the destinations a
      line names are added when missing, then the line's module replaces
      any module of that name. */
  function Collected(lines: seq<string>): (r: Result<Network>)
    ensures r.Panic? ==> r.reason == UnwrapNone
  {
    if lines == [] then Ok(map[])
    else
      var net :- Collected(lines[..|lines| - 1]);
      var entry :- ParseLine(lines[|lines| - 1]);
      Ok(AddMissing(net, entry.1.destinations)[entry.0 := entry.1])
  }

  /** Every destination of every module is a module. */
  predicate Closed(net: Network) {
    forall k, d :: k in net && d in net[k].destinations ==> d in net
  }

  /** The modules that list `c` as a destination. */
  function Sources(net: Network, c: string): set<string> {
    set k | k in net && c in net[k].destinations
  }

  /** Conjunctions start with nothing remembered. */
  predicate Fresh(net: Network) {
    forall k :: k in net && net[k].handler.Conjunction? ==> net[k].handler.memory == map[]
  }

  lemma {:induction false} CollectedClosed(lines: seq<string>)
    requires Collected(lines).Ok?
    ensures Closed(Collected(lines).value) && Fresh(Collected(lines).value)
    decreases |lines|
  {
    if lines != [] {
      CollectedClosed(lines[..|lines| - 1]);
    }
  }

  /** A module that lists itself: the second borrow of its cell panics
      during the linking sweep. */
  predicate SelfLoop(net: Network) {
    exists k :: k in net && k in net[k].destinations
  }

  /** A handler once each of `srcs` has been added as a source. */
  function Registered(h: ModuleHandler, srcs: set<string>): ModuleHandler {
    match h
    case Conjunction(memory) => Conjunction(memory + map k | k in srcs :: false)
    case _ => h
  }

  /** Adding one more source registers it. */
  lemma RegisteredAdd(h: ModuleHandler, srcs: set<string>, src: string)
    ensures WithSource(Registered(h, srcs), src) == Registered(h, srcs + {src})
  {
    if h.Conjunction? {
      assert h.memory + (map k | k in srcs :: false)[src := false] == h.memory + map k | k in srcs + {src} :: false;
    }
  }

  /** The module at `c` once every module listing it has been added as a
      source. */
  function Link(net: Network, c: string): Node
    requires c in net
  {
    Node(Registered(net[c].handler, Sources(net, c)), net[c].destinations)
  }

  /** The linking sweep of `parse_modules`. */
  function Linked(net: Network): (r: Result<Network>)
    ensures r.Panic? <==> SelfLoop(net)
    ensures r.Panic? ==> r.reason == AlreadyBorrowed
    ensures r.Ok? ==> r.value.Keys == net.Keys
  {
    if SelfLoop(net) then Panic(AlreadyBorrowed)
    else Ok(map c | c in net :: Link(net, c))
  }

  /** `parse_modules`. */
  function Modules(lines: seq<string>): Result<Network> {
    var net :- Collected(lines);
    Linked(net)
  }

  /** After `parse_modules` every destination is a module, and every
      conjunction remembers, as low, exactly the modules that send to it. */
  lemma ModulesLinked(lines: seq<string>)
    requires Modules(lines).Ok?
    ensures var net := Modules(lines).value;
      && Closed(net)
      && forall c :: c in net && net[c].handler.Conjunction? ==>
           net[c].handler.memory.Keys == Sources(net, c)
           && forall k :: k in net[c].handler.memory ==> !net[c].handler.memory[k]
  {
    var before := Collected(lines).value;
    CollectedClosed(lines);
    var net := Modules(lines).value;
    forall c | c in net
      ensures net[c].destinations == before[c].destinations
      ensures net[c].handler.Conjunction? <==> before[c].handler.Conjunction?
    {
    }
    forall c | c in net && net[c].handler.Conjunction?
      ensures net[c].handler.memory.Keys == Sources(net, c)
    {
      assert Sources(net, c) == Sources(before, c);
    }
  }

  // ---------------------------------------------------------------- machine

  /** The modules by name; handling a pulse changes a module's handler in
      place. */
  class Machine {
    var modules: Network

    constructor (modules: Network)
      ensures this.modules == modules
    {
      this.modules := modules;
    }

    /** `handle` on the module `name`. */
    method Handle(name: string, pulse: bool, from: string) returns (out: Option<bool>)
      requires name in modules
      modifies this
      ensures var (h, o) := Handled(old(modules)[name].handler, pulse, from);
        modules == old(modules)[name := Node(h, old(modules)[name].destinations)] && out == o
    {
      var node := modules[name];
      var handler := node.handler;
      match handler {
        case FlipFlop(on) =>
          if !pulse {
            handler := FlipFlop(!on);
            out := Some(!on);
          } else {
            out := None;
          }
        case Conjunction(memory) =>
          var memory' := memory[from := pulse];
          handler := Conjunction(memory');
          out := Some(!AllHigh(memory'));
        case Untyped(_) =>
          handler := Untyped(Some(pulse));
          out := None;
        case Broadcaster =>
          out := Some(pulse);
      }
      modules := modules[name := Node(handler, node.destinations)];
    }

    /** `val` on the module `name`. */
    method Val(name: string) returns (r: Result<Option<bool>>)
      requires name in modules
      modifies this
      ensures var v := Valued(old(modules)[name].handler);
        && (v.Panic? ==> r == Panic(v.reason))
        && (v.Ok? ==> r == Ok(v.value.1) && modules == old(modules)[name := Node(v.value.0, old(modules)[name].destinations)])
    {
      var node := modules[name];
      match node.handler
      case Untyped(value) =>
        modules := modules[name := Node(Untyped(None), node.destinations)];
        r := Ok(value);
      case _ =>
        r := Panic(UnexpectedVariant);
    }

    /** `add_src` on the module `name`. */
    method AddSrc(name: string, src: string)
      requires name in modules
      modifies this
      ensures modules == old(modules)[name := Node(WithSource(old(modules)[name].handler, src), old(modules)[name].destinations)]
    {
      var node := modules[name];
      match node.handler
      case Conjunction(memory) =>
        modules := modules[name := Node(Conjunction(memory[src := false]), node.destinations)];
      case _ =>
    }
  }

  /** A line that fails to parse decides the result. */
  lemma {:induction false} CollectedPanics(lines: seq<string>, k: nat)
    requires k <= |lines| && Collected(lines[..k]).Panic?
    ensures Collected(lines) == Collected(lines[..k])
    decreases |lines| - k
  {
    if k < |lines| {
      assert lines[..|lines| - 1][..k] == lines[..k];
      CollectedPanics(lines[..|lines| - 1], k);
    } else {
      assert lines[..k] == lines;
    }
  }

  /** The modules among `keys` that list `c`. */
  function Heard(net: Network, c: string, keys: set<string>): set<string> {
    set k | k in keys && k in net && c in net[k].destinations
  }

  /** `parse_modules`: the modules of the lines, then the sweep that adds
      every module as a source to each of its destinations. */
  method ParseModules(lines: seq<string>) returns (r: Result<Machine>)
    ensures r.Panic? <==> Modules(lines).Panic?
    ensures r.Panic? ==> r.reason == Modules(lines).reason
    ensures r.Ok? ==> fresh(r.value) && r.value.modules == Modules(lines).value
  {
    var modules := CollectModules(lines);
    if modules.Panic? {
      return Panic(modules.reason);
    }
    CollectedClosed(lines);
    var machine := new Machine(modules.value);
    var linked := LinkModules(machine);
    if linked.Panic? {
      return Panic(linked.reason);
    }
    r := Ok(machine);
  }

  /** The first loop of `parse_modules`. */
  method CollectModules(lines: seq<string>) returns (r: Result<Network>)
    ensures r == Collected(lines)
  {
    var modules: Network := map[];
    for i := 0 to |lines|
      invariant Collected(lines[..i]).Ok? && Collected(lines[..i]).value == modules
    {
      assert lines[..i + 1][..i] == lines[..i];
      var entry := ParseLine(lines[i]);
      if entry.Panic? {
        CollectedPanics(lines, i + 1);
        return Panic(entry.reason);
      }
      var (key, node) := entry.value;
      modules := AddMissingModules(modules, node.destinations);
      modules := modules[key := node];
    }
    assert lines[..|lines|] == lines;
    r := Ok(modules);
  }

  /** One more destination for `AddMissing`. */
  lemma AddMissingNext(net: Network, ds: seq<string>, j: nat)
    requires j < |ds|
    ensures var r := AddMissing(net, ds[..j]);
      AddMissing(net, ds[..j + 1]) == if ds[j] in r then r else r[ds[j] := Node(Untyped(None), [])]
  {
    assert ds[..j + 1][..j] == ds[..j];
  }

  /** The loop that adds a module without a type for each destination that
      is missing. */
  method AddMissingModules(net: Network, ds: seq<string>) returns (r: Network)
    ensures r == AddMissing(net, ds)
  {
    r := net;
    for j := 0 to |ds|
      invariant r == AddMissing(net, ds[..j])
    {
      AddMissingNext(net, ds, j);
      if ds[j] !in r {
        r := r[ds[j] := Node(Untyped(None), [])];
      }
    }
    assert ds[..|ds|] == ds;
  }

  /** The sweep of `parse_modules`, over the names in no particular order. */
  method LinkModules(machine: Machine) returns (r: Result<()>)
    requires Closed(machine.modules)
    modifies machine
    ensures r.Panic? <==> SelfLoop(old(machine.modules))
    ensures r.Panic? ==> r.reason == AlreadyBorrowed
    ensures r.Ok? ==> machine.modules == Linked(old(machine.modules)).value
  {
    ghost var net := machine.modules;
    var keys := machine.modules.Keys;
    ghost var done: set<string> := {};
    RegisteringNone(net);
    while keys != {}
      invariant keys + done == net.Keys && keys !! done
      invariant forall k :: k in done ==> k !in net[k].destinations
      invariant Registering(machine.modules, net, done, "", {})
      decreases keys
    {
      var ok;
      ok, keys, done := SweepOne(machine, net, keys, done);
      if !ok {
        return Panic(AlreadyBorrowed);
      }
    }
    assert done == net.Keys;
    RegisteringAll(machine.modules, net);
    r := Ok(());
  }

  /** One turn of the sweep: some module not yet visited adds itself as a
      source to each of its destinations, or it lists itself. */
  method SweepOne(machine: Machine, ghost net: Network, keys: set<string>, ghost done: set<string>)
    returns (ok: bool, keys': set<string>, ghost done': set<string>)
    requires Closed(net) && keys != {}
    requires keys + done == net.Keys && keys !! done
    requires forall k :: k in done ==> k !in net[k].destinations
    requires Registering(machine.modules, net, done, "", {})
    modifies machine
    ensures !ok ==> SelfLoop(net)
    ensures ok ==> keys' + done' == net.Keys && keys' !! done' && keys' < keys
    ensures ok ==> forall k :: k in done' ==> k !in net[k].destinations
    ensures ok ==> Registering(machine.modules, net, done', "", {})
  {
    var key :| key in keys;
    keys', done' := keys - {key}, done + {key};
    ok := RegisterWith(machine, net, key, done);
    if !ok {
      assert key in net && key in net[key].destinations;
    } else {
      SweepSets(net, keys, done, key);
    }
  }

  /** Moving a module that does not list itself from `keys` to `done`. */
  lemma SweepSets(net: Network, keys: set<string>, done: set<string>, key: string)
    requires key in keys && keys + done == net.Keys && keys !! done
    requires forall k :: k in done ==> k !in net[k].destinations
    requires key !in net[key].destinations
    ensures (keys - {key}) + (done + {key}) == net.Keys && (keys - {key}) !! (done + {key})
    ensures keys - {key} < keys
    ensures forall k :: k in done + {key} ==> k !in net[k].destinations
  {
  }

  /** The sweep so far: every module in `done` has been added as a source to
      each of its destinations, and `key` to those in `seen`. */
  predicate Registering(modules: Network, net: Network, done: set<string>, key: string, seen: set<string>) {
    && modules.Keys == net.Keys
    && forall c {:trigger modules[c]} :: c in net ==> modules[c] == Expected(net, done, key, seen, c)
  }

  function Expected(net: Network, done: set<string>, key: string, seen: set<string>, c: string): Node
    requires c in net
  {
    Node(Registered(net[c].handler, Heard(net, c, done) + if c in seen then {key} else {}), net[c].destinations)
  }

  lemma RegisteringNone(net: Network)
    ensures Registering(net, net, {}, "", {})
  {
    forall c | c in net
      ensures net[c] == Expected(net, {}, "", {}, c)
    {
      var h := net[c].handler;
      var none: set<string> := {};
      assert Heard(net, c, {}) + {} == none;
      if h.Conjunction? {
        assert h.memory + (map k | k in none :: false) == h.memory;
      }
    }
  }

  lemma RegisteringAll(modules: Network, net: Network)
    requires Registering(modules, net, net.Keys, "", {}) && !SelfLoop(net)
    ensures modules == Linked(net).value
  {
    forall c | c in net
      ensures modules[c] == Link(net, c)
    {
      assert Heard(net, c, net.Keys) + {} == Sources(net, c);
    }
  }

  lemma RegisteringBegin(modules: Network, net: Network, done: set<string>, key: string)
    requires Registering(modules, net, done, "", {})
    ensures Registering(modules, net, done, key, {})
  {
    forall c | c in net
      ensures modules[c] == Expected(net, done, key, {}, c)
    {
      assert Expected(net, done, key, {}, c) == Expected(net, done, "", {}, c);
    }
  }

  /** One `add_src` of the sweep. */
  lemma RegisteringStep(modules: Network, net: Network, done: set<string>, key: string, seen: set<string>, dest: string)
    requires Registering(modules, net, done, key, seen) && dest in net
    ensures Registering(modules[dest := Node(WithSource(modules[dest].handler, key), modules[dest].destinations)],
                        net, done, key, seen + {dest})
  {
    var m := modules[dest := Node(WithSource(modules[dest].handler, key), modules[dest].destinations)];
    forall c | c in net
      ensures m[c] == Expected(net, done, key, seen + {dest}, c)
    {
      if c == dest {
        var srcs := Heard(net, dest, done) + if dest in seen then {key} else {};
        RegisteredAdd(net[dest].handler, srcs, key);
        assert srcs + {key} == Heard(net, dest, done) + {key};
      } else {
        assert m[c] == modules[c];
      }
    }
  }

  /** The end of the inner loop for `key`. */
  lemma RegisteringNext(modules: Network, net: Network, done: set<string>, key: string, seen: set<string>)
    requires key in net && forall d :: d in seen <==> d in net[key].destinations
    requires Registering(modules, net, done, key, seen)
    ensures Registering(modules, net, done + {key}, "", {})
  {
    forall c | c in net
      ensures modules[c] == Expected(net, done + {key}, "", {}, c)
    {
      var none: set<string> := {};
      var before := Heard(net, c, done) + if c in seen then {key} else none;
      var after := Heard(net, c, done + {key}) + none;
      HeardAdd(net, c, done, key);
      assert c in seen <==> c in net[key].destinations;
      assert before == after;
      assert Expected(net, done, key, seen, c) == Node(Registered(net[c].handler, before), net[c].destinations);
    }
  }

  lemma HeardAdd(net: Network, c: string, done: set<string>, key: string)
    requires key in net
    ensures Heard(net, c, done + {key}) == Heard(net, c, done) + if c in net[key].destinations then {key} else {}
  {
  }

  /** The inner loop of the sweep for the module `key`; false when the
      module lists itself. */
  method RegisterWith(machine: Machine, ghost net: Network, key: string, ghost done: set<string>) returns (ok: bool)
    requires Closed(net) && key in net
    requires Registering(machine.modules, net, done, "", {})
    modifies machine
    ensures ok <==> key !in net[key].destinations
    ensures ok ==> Registering(machine.modules, net, done + {key}, "", {})
  {
    var ds := machine.modules[key].destinations;
    RegisteringBegin(machine.modules, net, done, key);
    ghost var seen: set<string> := {};
    for j := 0 to |ds|
      invariant ds == net[key].destinations
      invariant key !in ds[..j]
      invariant forall d :: d in seen <==> d in ds[..j]
      invariant Registering(machine.modules, net, done, key, seen)
    {
      var dest := ds[j];
      assert ds[..j + 1] == ds[..j] + [dest];
      if dest == key {
        return false;
      }
      RegisteringStep(machine.modules, net, done, key, seen, dest);
      machine.AddSrc(dest, key);
      seen := seen + {dest};
    }
    assert ds[..|ds|] == ds;
    RegisteringNext(machine.modules, net, done, key, seen);
    ok := true;
  }

  // ---------------------------------------------------------------- pulses

  /** A pulse in flight: sender, receiver and level. */
  datatype Pulse = Pulse(from: string, to: string, high: bool)

  /** The pulse a button press puts on the queue. */
  const Button := Pulse("", "broadcaster", false)

  /** What a module sends: one pulse of the same level to each destination,
      in the order they are listed. */
  function Emit(from: string, ds: seq<string>, high: bool): (r: seq<Pulse>)
    ensures |r| == |ds|
    ensures forall i :: 0 <= i < |ds| ==> r[i] == Pulse(from, ds[i], high)
    decreases |ds|
  {
    if ds == [] then [] else Emit(from, ds[..|ds| - 1], high) + [Pulse(from, ds[|ds| - 1], high)]
  }

  /** One pulse taken off the queue: the receiver handles it and the
      network has the new handler; the second part is what is sent on. */
  function Delivered(net: Network, p: Pulse): (Network, seq<Pulse>)
    requires p.to in net
  {
    var node := net[p.to];
    var (h, out) := Handled(node.handler, p.high, p.from);
    (net[p.to := Node(h, node.destinations)], if out.Some? then Emit(p.to, node.destinations, out.value) else [])
  }

  /** The pulses of one press, first in first out: `done` are the pulses
      already handled, `queue` those waiting. Gives the final network and
      every pulse handled, in order; `None` once `fuel` pulses have been
      handled and the queue is still not empty. A pulse to a module that
      is not in the network panics, as `unwrap` on the map lookup does. */
  function Drain(net: Network, queue: seq<Pulse>, done: seq<Pulse>, fuel: nat): Result<Option<(Network, seq<Pulse>)>>
    decreases fuel, 2
  {
    if queue == [] then Ok(Some((net, done)))
    else if fuel == 0 then Ok(None)
    else if queue[0].to !in net then Panic(UnwrapNone)
    else DrainOn(net, queue, done, fuel)
  }

  /** A press that goes on: the pulse at the head of the queue is handled
      next. (A separate layer, so that unfolding `Drain` once does not yet
      handle the pulse.) */
  function DrainOn(net: Network, queue: seq<Pulse>, done: seq<Pulse>, fuel: nat): Result<Option<(Network, seq<Pulse>)>>
    requires queue != [] && fuel > 0 && queue[0].to in net
    decreases fuel, 1
  {
    DrainHead(net, queue, done, fuel)
  }

  /** The first pulse of the queue handled, then the rest of the press. */
  function DrainHead(net: Network, queue: seq<Pulse>, done: seq<Pulse>, fuel: nat): Result<Option<(Network, seq<Pulse>)>>
    requires queue != [] && fuel > 0 && queue[0].to in net
    decreases fuel, 0
  {
    var (net', out) := Delivered(net, queue[0]);
    Drain(net', queue[1..] + out, done + [queue[0]], fuel - 1)
  }

  /** Moving the head of the queue to `done` keeps the pulses in order. */
  lemma QueueShift(done: seq<Pulse>, queue: seq<Pulse>, out: seq<Pulse>)
    requires queue != []
    ensures (done + [queue[0]]) + (queue[1..] + out) == (done + queue) + out
  {
    assert queue == [queue[0]] + queue[1..];
  }

  /** One step of `Drain`, for the loop that takes it. */
  lemma DrainStep(net: Network, queue: seq<Pulse>, done: seq<Pulse>, fuel: nat)
    requires queue != [] && fuel > 0 && queue[0].to in net
    ensures var d := Delivered(net, queue[0]);
      Drain(net, queue, done, fuel) == Drain(d.0, queue[1..] + d.1, done + [queue[0]], fuel - 1)
  {
    assert Drain(net, queue, done, fuel) == DrainOn(net, queue, done, fuel) == DrainHead(net, queue, done, fuel);
  }

  /** Pulses leave the queue in the order they joined it: the trace starts
      with what was handled and then what was waiting. */
  lemma {:induction false} DrainFifo(net: Network, queue: seq<Pulse>, done: seq<Pulse>, fuel: nat)
    ensures var r := Drain(net, queue, done, fuel);
      r.Ok? && r.value.Some? ==> done + queue <= r.value.value.1
    decreases fuel
  {
    if queue != [] && fuel > 0 && queue[0].to in net {
      var (net', out) := Delivered(net, queue[0]);
      DrainStep(net, queue, done, fuel);
      DrainFifo(net', queue[1..] + out, done + [queue[0]], fuel - 1);
      assert done + queue <= (done + [queue[0]]) + (queue[1..] + out);
    }
  }

  /** Handling pulses changes handlers only: the names and the lists of
      destinations stay as they are. */
  lemma {:induction false} DrainKeepsWiring(net: Network, queue: seq<Pulse>, done: seq<Pulse>, fuel: nat)
    ensures var r := Drain(net, queue, done, fuel);
      r.Ok? && r.value.Some? ==>
        && r.value.value.0.Keys == net.Keys
        && forall k :: k in net ==> r.value.value.0[k].destinations == net[k].destinations
    decreases fuel
  {
    if queue != [] && fuel > 0 && queue[0].to in net {
      var (net', out) := Delivered(net, queue[0]);
      DrainStep(net, queue, done, fuel);
      DrainKeepsWiring(net', queue[1..] + out, done + [queue[0]], fuel - 1);
    }
  }

  /** In a network where every destination is a module, as after
      `parse_modules`, a queue of pulses to modules never panics. */
  lemma {:induction false} DrainNoPanic(net: Network, queue: seq<Pulse>, done: seq<Pulse>, fuel: nat)
    requires Closed(net)
    requires forall i :: 0 <= i < |queue| ==> queue[i].to in net
    ensures !Drain(net, queue, done, fuel).Panic?
    decreases fuel
  {
    if queue != [] && fuel > 0 {
      var (net', out) := Delivered(net, queue[0]);
      assert Closed(net') by {
        forall k | k in net'
          ensures net'[k].destinations == net[k].destinations
        {
        }
      }
      var rest := queue[1..] + out;
      forall i | 0 <= i < |rest|
        ensures rest[i].to in net'
      {
        if i >= |queue| - 1 {
          assert rest[i].to in net[queue[0].to].destinations;
        }
      }
      DrainStep(net, queue, done, fuel);
      DrainNoPanic(net', rest, done + [queue[0]], fuel - 1);
    }
  }

  /** Pulses of one level in a list. */
  function Count(ps: seq<Pulse>, high: bool): (n: nat)
    ensures n <= |ps|
    decreases |ps|
  {
    if ps == [] then 0 else Count(ps[..|ps| - 1], high) + if ps[|ps| - 1].high == high then 1 else 0
  }

  lemma {:induction false} CountConcat(a: seq<Pulse>, b: seq<Pulse>, high: bool)
    ensures Count(a + b, high) == Count(a, high) + Count(b, high)
    decreases |b|
  {
    if b == [] {
      assert a + b == a;
    } else {
      assert (a + b)[..|a + b| - 1] == a + b[..|b| - 1];
      CountConcat(a, b[..|b| - 1], high);
    }
  }

  /** `n` presses of the button, one after another on the same network:
      the final network and the numbers of low and high pulses sent. */
  function Presses(net: Network, n: nat, fuel: nat): Result<Option<(Network, nat, nat)>>
    decreases n
  {
    if n == 0 then Ok(Some((net, 0, 0)))
    else
      var before :- Presses(net, n - 1, fuel);
      if before.None? then Ok(None)
      else
        var (net', lows, highs) := before.value;
        var press :- Drain(net', [Button], [], fuel);
        if press.None? then Ok(None)
        else Ok(Some((press.value.0, lows + Count(press.value.1, false), highs + Count(press.value.1, true))))
  }

  /** Every press sends at least its own low pulse to the broadcaster. */
  lemma {:induction false} PressesLows(net: Network, n: nat, fuel: nat)
    ensures var s := Presses(net, n, fuel);
      s.Ok? && s.value.Some? ==> s.value.value.1 >= n
    decreases n
  {
    if n > 0 {
      PressesLows(net, n - 1, fuel);
      var before := Presses(net, n - 1, fuel);
      if before.Ok? && before.value.Some? {
        var press := Drain(before.value.value.0, [Button], [], fuel);
        DrainFifo(before.value.value.0, [Button], [], fuel);
        if press.Ok? && press.value.Some? {
          var trace := press.value.value.1;
          assert trace == [Button] + trace[1..];
          CountConcat([Button], trace[1..], false);
          assert [Button][..0] == [];
        }
      }
    }
  }

  /** After a network from `parse_modules` the presses never panic; they can
      only panic when there is no `broadcaster`. */
  lemma {:induction false} PressesNoPanic(net: Network, n: nat, fuel: nat)
    requires Closed(net) && "broadcaster" in net
    ensures !Presses(net, n, fuel).Panic?
    ensures var s := Presses(net, n, fuel);
      s.Ok? && s.value.Some? ==> Closed(s.value.value.0) && "broadcaster" in s.value.value.0
    decreases n
  {
    if n > 0 {
      PressesNoPanic(net, n - 1, fuel);
      var before := Presses(net, n - 1, fuel);
      if before.value.Some? {
        var net' := before.value.value.0;
        DrainNoPanic(net', [Button], [], fuel);
        DrainKeepsWiring(net', [Button], [], fuel);
      }
    }
  }

  // ---------------------------------------------------------------- the button

  /** One pulse off the queue in `day20_part1`: the receiver handles it and,
      if it sends, one pulse per destination joins the queue and is
      counted by its level. */
  method Pass(machine: Machine, p: Pulse, lows: nat, highs: nat) returns (out: seq<Pulse>, lows': nat, highs': nat)
    requires p.to in machine.modules
    modifies machine
    ensures (machine.modules, out) == Delivered(old(machine.modules), p)
    ensures lows' == lows + Count(out, false) && highs' == highs + Count(out, true)
  {
    var output := machine.Handle(p.to, p.high, p.from);
    out, lows', highs' := [], lows, highs;
    if output.Some? {
      var ds := machine.modules[p.to].destinations;
      for i := 0 to |ds|
        invariant out == Emit(p.to, ds[..i], output.value)
        invariant lows' == lows + Count(out, false) && highs' == highs + Count(out, true)
      {
        if output.value {
          highs' := highs' + 1;
        } else {
          lows' := lows' + 1;
        }
        assert ds[..i + 1][..i] == ds[..i];
        out := out + [Pulse(p.to, ds[i], output.value)];
      }
      assert ds[..|ds|] == ds;
    }
  }

  /** One press of the button: a low pulse to `broadcaster`, counted, and the
      queue run until it is empty. `ended` is `Ok(false)` when `fuel`
      pulses were handled and the queue is still not empty. */
  method PressOnce(machine: Machine, fuel: nat, lows: nat, highs: nat) returns (ended: Result<bool>, lows': nat, highs': nat)
    modifies machine
    ensures var d := Drain(old(machine.modules), [Button], [], fuel);
      && (ended.Panic? <==> d.Panic?)
      && (ended.Panic? ==> ended.reason == d.reason)
      && (ended == Ok(false) <==> d == Ok(None))
      && (ended == Ok(true) ==>
            && d.Ok? && d.value.Some?
            && machine.modules == d.value.value.0
            && lows' == lows + Count(d.value.value.1, false)
            && highs' == highs + Count(d.value.value.1, true))
  {
    var queue := [Button];
    ghost var done: seq<Pulse> := [];
    var left := fuel;
    ghost var goal := Drain(machine.modules, queue, done, left);
    lows', highs' := lows + 1, highs;
    assert queue[..0] == [];
    while queue != [] && left > 0 && queue[0].to in machine.modules
      invariant Drain(machine.modules, queue, done, left) == goal
      invariant lows' == lows + Count(done + queue, false) && highs' == highs + Count(done + queue, true)
      decreases left
    {
      queue, done, lows', highs' := Forward(machine, queue, done, left, lows', highs');
      left := left - 1;
    }
    DrainEnds(machine.modules, queue, done, left);
    if queue != [] {
      ended := if left == 0 then Ok(false) else Panic(UnwrapNone);
    } else {
      assert done + queue == done;
      ended := Ok(true);
    }
  }

  /** One turn of the loop of a press: the head of the queue is handled and
      what it sends joins the queue and the counts. */
  method Forward(machine: Machine, queue: seq<Pulse>, ghost done: seq<Pulse>, left: nat, lows: nat, highs: nat)
    returns (queue': seq<Pulse>, ghost done': seq<Pulse>, lows': nat, highs': nat)
    requires queue != [] && left > 0 && queue[0].to in machine.modules
    modifies machine
    ensures Drain(machine.modules, queue', done', left - 1) == Drain(old(machine.modules), queue, done, left)
    ensures lows' + Count(done + queue, false) == lows + Count(done' + queue', false)
    ensures highs' + Count(done + queue, true) == highs + Count(done' + queue', true)
  {
    var p := queue[0];
    var out;
    ghost var net := machine.modules;
    out, lows', highs' := Pass(machine, p, lows, highs);
    PassKeeps(net, queue, done, left, machine.modules, out);
    queue' := queue[1..] + out;
    done' := done + [p];
  }

  /** Handling the head of the queue keeps the rest of the press and the
      pulses counted so far. */
  lemma PassKeeps(net: Network, queue: seq<Pulse>, done: seq<Pulse>, fuel: nat, net': Network, out: seq<Pulse>)
    requires queue != [] && fuel > 0 && queue[0].to in net
    requires (net', out) == Delivered(net, queue[0])
    ensures Drain(net', queue[1..] + out, done + [queue[0]], fuel - 1) == Drain(net, queue, done, fuel)
    ensures forall high :: Count((done + [queue[0]]) + (queue[1..] + out), high) == Count(done + queue, high) + Count(out, high)
  {
    DrainStep(net, queue, done, fuel);
    QueueShift(done, queue, out);
    forall high
      ensures Count((done + [queue[0]]) + (queue[1..] + out), high) == Count(done + queue, high) + Count(out, high)
    {
      CountConcat(done + queue, out, high);
    }
  }

  /** Where the loop of a press stops, `Drain` has its answer at once. */
  lemma DrainEnds(net: Network, queue: seq<Pulse>, done: seq<Pulse>, fuel: nat)
    requires queue == [] || fuel == 0 || queue[0].to !in net
    ensures Drain(net, queue, done, fuel)
      == if queue == [] then Ok(Some((net, done))) else if fuel == 0 then Ok(None) else Panic(UnwrapNone)
  {
  }

  /** The answer to part one for `presses` presses: lows times highs, as in
      `s`; `None` when a press needs more than `fuel` pulses. */
  predicate Answers(r: Result<Option<int>>, s: Result<Option<(Network, nat, nat)>>) {
    && (r.Panic? <==> s.Panic?)
    && (r.Panic? ==> r.reason == s.reason)
    && (r.Ok? ==> (r.value.Some? <==> s.value.Some?))
    && (r.Ok? && r.value.Some? ==> r.value.value == s.value.value.1 * s.value.value.2)
  }

  /** The press loop of `day20_part1` on a parsed network. */
  method PushButton(machine: Machine, presses: nat, fuel: nat) returns (r: Result<Option<int>>)
    modifies machine
    ensures Answers(r, Presses(old(machine.modules), presses, fuel))
    ensures var s := Presses(old(machine.modules), presses, fuel);
      s.Ok? && s.value.Some? ==> machine.modules == s.value.value.0
  {
    ghost var net := machine.modules;
    var lows, highs := 0, 0;
    for k := 0 to presses
      invariant Pressed(net, k, fuel, machine.modules, lows, highs)
    {
      PressesNext(net, k, fuel, machine.modules, lows, highs);
      var ended;
      ended, lows, highs := PressOnce(machine, fuel, lows, highs);
      if ended.Panic? {
        PressesStays(net, k + 1, presses, fuel);
        return Panic(ended.reason);
      }
      if !ended.value {
        PressesStays(net, k + 1, presses, fuel);
        return Ok(None);
      }
    }
    r := Ok(Some(lows * highs));
  }

  /** After `k` presses the network is `net'` and the counts are `lows`
      and `highs`. */
  predicate Pressed(net: Network, k: nat, fuel: nat, net': Network, lows: nat, highs: nat) {
    var s := Presses(net, k, fuel);
    s.Ok? && s.value.Some? && s.value.value.0 == net' && s.value.value.1 == lows && s.value.value.2 == highs
  }

  /** Press `k + 1` is one `Drain` from the network after `k` presses. */
  lemma PressesNext(net: Network, k: nat, fuel: nat, net': Network, lows: nat, highs: nat)
    requires Pressed(net, k, fuel, net', lows, highs)
    ensures var d := Drain(net', [Button], [], fuel);
      var t := Presses(net, k + 1, fuel);
      && (d.Panic? ==> t.Panic? && t.reason == d.reason)
      && (d.Ok? && d.value.None? ==> t == Ok(None))
      && (d.Ok? && d.value.Some? ==>
            && t.Ok? && t.value.Some? && t.value.value.0 == d.value.value.0
            && t.value.value.1 == lows + Count(d.value.value.1, false)
            && t.value.value.2 == highs + Count(d.value.value.1, true))
  {
  }

  /** Once a press panics or runs out of fuel, so do all later counts. */
  lemma {:induction false} PressesStays(net: Network, k: nat, n: nat, fuel: nat)
    requires k <= n
    ensures var s := Presses(net, k, fuel);
      s.Panic? || s.value.None? ==> Presses(net, n, fuel) == s
    decreases n
  {
    if k < n {
      PressesStays(net, k, n - 1, fuel);
    }
  }

  /** `day20_part1`: parse the network, then press the button. */
  method Part1(lines: seq<string>, presses: nat, fuel: nat) returns (r: Result<Option<int>>)
    ensures var m := Modules(lines);
      && (m.Panic? ==> r == Panic(m.reason))
      && (m.Ok? ==> Answers(r, Presses(m.value, presses, fuel)))
  {
    var machine :- ParseModules(lines);
    r := PushButton(machine, presses, fuel);
  }
}
