/** Day 19: machine parts rated x, m, a and s are sent through named
    workflows. A workflow is a chain of conditions such as `a<2006:qkq,m>2090:A,rfg`:
    the first condition that holds picks its target, otherwise evaluation
    goes on with the rest of the chain. Targets are `A` (accept), `R`
    (reject) or another workflow. Every part starts at `in`; the answer is
    the sum of the ratings of the accepted parts. */
module Day19 {
  import opened Wrappers
  import Strings

  const InvalidParameter := "Invalid part parameter. "
  const UnexpectedOperator := "Unexpected operator. "
  const ShouldNotReach := "Should not make it to here. "

  datatype Part = Part(x: nat, m: nat, a: nat, s: nat)

  // ------------------------------------------------------------------ digits

  /** The length of the run of digits starting at `k`. */
  function DigitRun(text: string, k: nat): (n: nat)
    requires k <= |text|
    ensures k + n <= |text|
    decreases |text| - k
  {
    if k < |text| && Strings.IsDigit(text[k]) then 1 + DigitRun(text, k + 1) else 0
  }

  /** The run holds only digits and stops at a non-digit or the end. */
  lemma {:induction false} DigitRunMaximal(text: string, k: nat)
    requires k <= |text|
    ensures forall j :: k <= j < k + DigitRun(text, k) ==> Strings.IsDigit(text[j])
    ensures k + DigitRun(text, k) == |text| || !Strings.IsDigit(text[k + DigitRun(text, k)])
    decreases |text| - k
  {
    if k < |text| && Strings.IsDigit(text[k]) {
      DigitRunMaximal(text, k + 1);
    }
  }

  /** The value of the digit run starting at `k`. */
  function Number(text: string, k: nat): nat
    requires k <= |text|
  {
    var n := DigitRun(text, k);
    var w := text[k..k + n];
    assert Strings.AllDigits(w) by {
      DigitRunMaximal(text, k);
      forall j | 0 <= j < |w|
        ensures Strings.IsDigit(w[j])
      {
        assert w[j] == text[k + j];
      }
    }
    Strings.DecimalValue(w)
  }

  /** A run of the digits `d` followed by a non-digit (or the end) is the
      whole run at that point. */
  lemma {:induction false} DigitRunOf(text: string, k: nat, d: string)
    requires Strings.AllDigits(d) && k + |d| <= |text| && text[k..k + |d|] == d
    requires k + |d| == |text| || !Strings.IsDigit(text[k + |d|])
    ensures DigitRun(text, k) == |d|
    decreases |d|
  {
    if d != [] {
      assert text[k] == d[0];
      assert text[k + 1..k + 1 + |d[1..]|] == d[1..];
      DigitRunOf(text, k + 1, d[1..]);
    }
  }

  lemma NumberOf(text: string, k: nat, n: nat)
    requires k + |Strings.NatToString(n)| <= |text|
    requires text[k..k + |Strings.NatToString(n)|] == Strings.NatToString(n)
    requires k + |Strings.NatToString(n)| == |text| || !Strings.IsDigit(text[k + |Strings.NatToString(n)|])
    ensures DigitRun(text, k) == |Strings.NatToString(n)| && Number(text, k) == n
  {
    DigitRunOf(text, k, Strings.NatToString(n));
    Strings.DecimalValueOfNatToString(n);
  }

  // ------------------------------------------------------------------ parts

  /** `tag`, then at least one digit, at the start of `text`: the value and
      the text after the digits. */
  function Field(text: string, tag: string): (r: Option<(nat, string)>)
    ensures r.Some? ==> |r.value.1| < |text|
  {
    if |tag| <= |text| && text[..|tag|] == tag && DigitRun(text, |tag|) > 0 then
      Some((Number(text, |tag|), text[|tag| + DigitRun(text, |tag|)..]))
    else None
  }

  /** The regular expression `\{x=([0-9]+),m=([0-9]+),a=([0-9]+),s=([0-9]+)\}`
      matching at the start of `text`. A digit group is followed by a
      non-digit, so it is the whole run of digits. */
  function PartAt(text: string): Option<Part> {
    match Field(text, "{x=")
    case None => None
    case Some((x, rest)) =>
      match Field(rest, ",m=")
      case None => None
      case Some((m, rest)) =>
        match Field(rest, ",a=")
        case None => None
        case Some((a, rest)) =>
          match Field(rest, ",s=")
          case None => None
          case Some((s, rest)) =>
            if rest != [] && rest[0] == '}' then Some(Part(x, m, a, s)) else None
  }

  predicate PartMatch(text: string, k: nat) {
    k <= |text| && PartAt(text[k..]).Some?
  }

  /** Where the leftmost match of the part pattern starts. */
  function FirstPart(text: string, from: nat): (r: Option<nat>)
    requires from <= |text|
    ensures r.Some? ==> from <= r.value < |text| && PartMatch(text, r.value)
    ensures r.Some? ==> forall j :: from <= j < r.value ==> !PartMatch(text, j)
    ensures r.None? ==> forall j :: from <= j < |text| ==> !PartMatch(text, j)
    decreases |text| - from, 1
  {
    if from == |text| then None else FirstPartFrom(text, from, PartMatch(text, from))
  }

  /** `FirstPart` at `from`, given whether the pattern matches there. */
  function FirstPartFrom(text: string, from: nat, here: bool): (r: Option<nat>)
    requires from < |text| && here == PartMatch(text, from)
    ensures r.Some? ==> from <= r.value < |text| && PartMatch(text, r.value)
    ensures r.Some? ==> forall j :: from <= j < r.value ==> !PartMatch(text, j)
    ensures r.None? ==> forall j :: from <= j < |text| ==> !PartMatch(text, j)
    decreases |text| - from, 0
  {
    if here then Some(from) else FirstPart(text, from + 1)
  }

  /** `Part::from_str`: the leftmost match, or the panic of `unwrap`. */
  function PartFromStr(text: string): (r: Result<Part>)
    ensures r.Panic? <==> forall k :: 0 <= k < |text| ==> !PartMatch(text, k)
    ensures r.Panic? ==> r.reason == UnwrapNone
    ensures r.Ok? ==> exists k :: (0 <= k < |text| && PartAt(text[k..]) == Some(r.value)
                                   && forall j :: 0 <= j < k ==> !PartMatch(text, j))
  {
    match FirstPart(text, 0)
    case None => Panic(UnwrapNone)
    case Some(k) => Ok(PartAt(text[k..]).value)
  }

  function Format(p: Part): string {
    "{x=" + Strings.NatToString(p.x) + (",m=" + Strings.NatToString(p.m)
      + (",a=" + Strings.NatToString(p.a) + (",s=" + Strings.NatToString(p.s) + "}")))
  }

  lemma FieldOf(tag: string, n: nat, rest: string)
    requires rest == [] || !Strings.IsDigit(rest[0])
    ensures Field(tag + Strings.NatToString(n) + rest, tag) == Some((n, rest))
  {
    var d := Strings.NatToString(n);
    var text := tag + d + rest;
    var k := |tag|;
    assert text[..k] == tag;
    assert text[k..k + |d|] == d;
    if rest != [] {
      assert text[k + |d|] == rest[0];
    }
    NumberOf(text, k, n);
    assert text[k + |d|..] == rest;
  }

  /** Parsing a printed part gives it back. */
  lemma PartRoundTrip(p: Part)
    ensures PartFromStr(Format(p)) == Ok(p)
  {
    var dx, dm := Strings.NatToString(p.x), Strings.NatToString(p.m);
    var da, ds := Strings.NatToString(p.a), Strings.NatToString(p.s);
    var r3 := ",s=" + ds + "}";
    var r2 := ",a=" + da + r3;
    var r1 := ",m=" + dm + r2;
    FieldOf("{x=", p.x, r1);
    FieldOf(",m=", p.m, r2);
    FieldOf(",a=", p.a, r3);
    FieldOf(",s=", p.s, "}");
    assert PartAt(Format(p)) == Some(p);
    assert Format(p)[0..] == Format(p);
    assert PartMatch(Format(p), 0);
  }

  function Rating(p: Part): nat {
    p.x + p.m + p.a + p.s
  }

  // ------------------------------------------------------------------ outcomes

  datatype Outcome = Accept | Reject | Workflow(name: string) | Rule(text: string)

  /** The text an outcome was read from. */
  function Text(o: Outcome): string {
    match o
    case Accept => "A"
    case Reject => "R"
    case Workflow(name) => name
    case Rule(text) => text
  }

  /** An outcome as `WorkflowOutcome::from_str` produces it: a rule's text
      has a ':', a workflow's name has none and is neither "A" nor "R". */
  predicate WellFormed(o: Outcome) {
    match o
    case Accept => true
    case Reject => true
    case Workflow(name) => name != "A" && name != "R" && ':' !in name
    case Rule(text) => ':' in text
  }

  /** `WorkflowOutcome::from_str`. It loses nothing: the text is kept. */
  function OutcomeFromStr(input: string): (r: Outcome)
    ensures Text(r) == input && WellFormed(r)
  {
    if input == "A" then Accept
    else if input == "R" then Reject
    else if ':' in input then Rule(input)
    else Workflow(input)
  }

  /** Reading back the text of a well-formed outcome gives the outcome. */
  lemma OutcomeRoundTrip(o: Outcome)
    requires WellFormed(o)
    ensures OutcomeFromStr(Text(o)) == o
  {
  }

  // ------------------------------------------------------------------ rules

  /** The rating a category letter selects. The regular expression's class
      `[x|m|a|s]` also admits '|', which panics. */
  function Category(p: Part, c: char): (r: Result<nat>)
    ensures r.Panic? <==> c !in "xmas"
    ensures r.Panic? ==> r.reason == InvalidParameter
  {
    match c
    case 'x' => Ok(p.x)
    case 'm' => Ok(p.m)
    case 'a' => Ok(p.a)
    case 's' => Ok(p.s)
    case _ => Panic(InvalidParameter)
  }

  /** The comparison, strict either way; the class `[<|>]` also admits '|'. */
  function Compare(val: nat, op: char, limit: nat): (r: Result<bool>)
    ensures r.Panic? <==> op !in "<>"
    ensures r.Panic? ==> r.reason == UnexpectedOperator
    ensures op == '<' ==> r == Ok(val < limit)
    ensures op == '>' ==> r == Ok(val > limit)
  {
    match op
    case '<' => Ok(val < limit)
    case '>' => Ok(val > limit)
    case _ => Panic(UnexpectedOperator)
  }

  /** The regular expression `([x|m|a|s])([<|>])([0-9]+)` matching at `k`. */
  predicate ConditionAt(text: string, k: nat) {
    k + 2 < |text| && text[k] in "x|mas" && text[k + 1] in "<|>" && Strings.IsDigit(text[k + 2])
  }

  predicate EvalReason(reason: string) {
    reason == UnwrapNone || reason == InvalidParameter || reason == UnexpectedOperator
  }

  /** Where the leftmost match of the condition pattern starts. */
  function FirstCondition(rule: string, from: nat): (r: Option<nat>)
    requires from <= |rule|
    ensures r.Some? ==> from <= r.value && ConditionAt(rule, r.value)
    ensures r.Some? ==> forall j :: from <= j < r.value ==> !ConditionAt(rule, j)
    ensures r.None? ==> forall j :: from <= j < |rule| ==> !ConditionAt(rule, j)
    decreases |rule| - from
  {
    if from == |rule| then None
    else if ConditionAt(rule, from) then Some(from)
    else FirstCondition(rule, from + 1)
  }

  /** `eval_rule`: split at the first ':' and go on with `Branch`. */
  function EvalRule(part: Part, rule: string): (r: Result<Outcome>)
    ensures r.Ok? ==> !r.value.Rule? && WellFormed(r.value)
    ensures r.Panic? ==> EvalReason(r.reason)
    decreases |rule|, 2
  {
    match Strings.SplitOnce(rule, ":")
    case None => Panic(UnwrapNone)
    case Some((_, options)) => Branch(part, rule, options)
  }

  /** The rest of `eval_rule`, with `options` the text after the first ':':
      take the leftmost condition in the whole rule, and go to the text
      before the first ',' of `options` when it holds, to all the rest
      otherwise; a target that is itself a rule is evaluated in turn. */
  function Branch(part: Part, rule: string, options: string): (r: Result<Outcome>)
    requires |options| < |rule|
    ensures r.Ok? ==> !r.value.Rule? && WellFormed(r.value)
    ensures r.Panic? ==> EvalReason(r.reason)
    decreases |rule|, 1
  {
    match FirstCondition(rule, 0)
    case None => Panic(UnwrapNone)
    case Some(k) =>
      var val :- Category(part, rule[k]);
      var result :- Compare(val, rule[k + 1], Number(rule, k + 2));
      match Strings.SplitOnce(options, ",")
      case None => Panic(UnwrapNone)
      case Some((acc, rej)) => Follow(part, OutcomeFromStr(if result then acc else rej))
  }

  /** Where evaluation goes from a target: a rule is evaluated, anything
      else is the outcome. */
  function Follow(part: Part, o: Outcome): (r: Result<Outcome>)
    ensures r.Ok? ==> !r.value.Rule? && (o.Rule? || r.value == o)
    ensures r.Ok? && WellFormed(o) ==> WellFormed(r.value)
    ensures r.Panic? ==> EvalReason(r.reason)
    decreases |Text(o)|, 3
  {
    if o.Rule? then EvalRule(part, o.text) else Ok(o)
  }

  datatype Condition = Condition(category: char, op: char, limit: nat)

  function Holds(p: Part, c: Condition): bool
    requires c.category in "xmas" && c.op in "<>"
  {
    Compare(Category(p, c.category).value, c.op, c.limit).value
  }

  /** The text `c:acc,rej` of one condition with its two targets. */
  function RuleText(c: Condition, acc: Outcome, rej: Outcome): string {
    [c.category, c.op] + Strings.NatToString(c.limit) + ":" + Text(acc) + "," + Text(rej)
  }

  /** Where `eval_rule` cuts the text of one condition: the text after the
      ':' and the two targets around the ','. */
  lemma RuleTextSplits(c: Condition, acc: Outcome, rej: Outcome)
    requires c.category in "xmas" && c.op in "<>" && ',' !in Text(acc)
    ensures var rule := RuleText(c, acc, rej);
      var options := Text(acc) + "," + Text(rej);
      && Strings.SplitOnce(rule, ":") == Some(([c.category, c.op] + Strings.NatToString(c.limit), options))
      && Strings.SplitOnce(options, ",") == Some((Text(acc), Text(rej)))
  {
    var digits := Strings.NatToString(c.limit);
    var head := [c.category, c.op] + digits;
    var options := Text(acc) + "," + Text(rej);
    assert RuleText(c, acc, rej) == head + [':'] + options;
    assert ':' !in head by {
      assert forall j :: 2 <= j < |head| ==> head[j] == digits[j - 2];
    }
    Strings.SplitOnceChar(head, ':', options);
    assert options == Text(acc) + [','] + Text(rej);
    Strings.SplitOnceChar(Text(acc), ',', Text(rej));
  }

  /** The condition the pattern finds in the text of one condition is that
      condition, at the start. */
  lemma RuleTextCondition(c: Condition, acc: Outcome, rej: Outcome)
    requires c.category in "xmas" && c.op in "<>"
    ensures var rule := RuleText(c, acc, rej);
      && FirstCondition(rule, 0) == Some(0)
      && rule[0] == c.category && rule[1] == c.op && Number(rule, 2) == c.limit
  {
    var digits := Strings.NatToString(c.limit);
    var rule := RuleText(c, acc, rej);
    assert rule == [c.category, c.op] + digits + ([':'] + Text(acc) + "," + Text(rej));
    assert ConditionAt(rule, 0) by {
      assert rule[2] == digits[0];
    }
    assert rule[2..2 + |digits|] == digits;
    assert rule[2 + |digits|] == ':';
    NumberOf(rule, 2, c.limit);
  }

  /** A rule evaluates to its first target when the condition holds and to
      the rest of the chain otherwise. */
  lemma EvalRuleText(part: Part, c: Condition, acc: Outcome, rej: Outcome)
    requires c.category in "xmas" && c.op in "<>"
    requires WellFormed(acc) && WellFormed(rej) && ',' !in Text(acc)
    ensures EvalRule(part, RuleText(c, acc, rej)) == Follow(part, if Holds(part, c) then acc else rej)
  {
    var rule := RuleText(c, acc, rej);
    var options := Text(acc) + "," + Text(rej);
    RuleTextSplits(c, acc, rej);
    RuleTextCondition(c, acc, rej);
    assert EvalRule(part, rule) == Branch(part, rule, options);
    var target := if Holds(part, c) then Text(acc) else Text(rej);
    assert Branch(part, rule, options) == Follow(part, OutcomeFromStr(target));
    OutcomeRoundTrip(acc);
    OutcomeRoundTrip(rej);
  }

  /** The comparison is strict: a rating equal to the limit fails it. */
  lemma EqualFails(part: Part, c: Condition, acc: Outcome, rej: Outcome)
    requires c.category in "xmas" && c.op in "<>"
    requires WellFormed(acc) && WellFormed(rej) && ',' !in Text(acc)
    requires Category(part, c.category) == Ok(c.limit)
    ensures EvalRule(part, RuleText(c, acc, rej)) == Follow(part, rej)
  {
    EvalRuleText(part, c, acc, rej);
  }

  // ------------------------------------------------------------------ driver

  /** Following a part from `res` through the workflows, one workflow per
      unit of `fuel`, until it is accepted or rejected; `Ok(None)` when the
      fuel runs out. */
  function Run(workflows: map<string, string>, part: Part, res: Outcome, fuel: nat): (r: Result<Option<Outcome>>)
    ensures r.Ok? && r.value.Some? ==> r.value.value.Accept? || r.value.value.Reject?
    ensures !res.Rule? && r.Panic? ==> r.reason != ShouldNotReach
    decreases fuel, 1
  {
    match res
    case Accept => Ok(Some(res))
    case Reject => Ok(Some(res))
    case Rule(_) => Panic(ShouldNotReach)
    case Workflow(wf) => Visit(workflows, part, wf, fuel)
  }

  /** One step of `Run` at the workflow `wf`: its rule is evaluated and the
      part goes on from the result. A missing workflow panics as a map
      index does. */
  function Visit(workflows: map<string, string>, part: Part, wf: string, fuel: nat): (r: Result<Option<Outcome>>)
    ensures r.Ok? && r.value.Some? ==> r.value.value.Accept? || r.value.value.Reject?
    ensures r.Panic? ==> r.reason != ShouldNotReach
    decreases fuel, 0
  {
    if fuel == 0 then Ok(None)
    else if wf !in workflows then Panic(NoEntry)
    else
      var next :- EvalRule(part, workflows[wf]);
      Run(workflows, part, next, fuel - 1)
  }

  /** The total over `parts`, each followed from `in` with `fuel` workflow
      steps: the first panic, or `Ok(None)` as soon as one part runs out. */
  function Total(workflows: map<string, string>, parts: seq<Part>, fuel: nat): Result<Option<int>> {
    if parts == [] then Ok(Some(0))
    else
      var init :- Total(workflows, parts[..|parts| - 1], fuel);
      if init.None? then Ok(None)
      else
        var last := parts[|parts| - 1];
        var outcome :- Run(workflows, last, Workflow("in"), fuel);
        if outcome.None? then Ok(None)
        else Ok(Some(init.value + if outcome.value.Accept? then Rating(last) else 0))
  }

  /** A prefix that panics or runs out decides the total. */
  lemma {:induction false} TotalPrefix(workflows: map<string, string>, parts: seq<Part>, fuel: nat, k: nat)
    requires k <= |parts| && !Total(workflows, parts[..k], fuel).Ok?
    ensures Total(workflows, parts, fuel) == Total(workflows, parts[..k], fuel)
    decreases |parts| - k
  {
    if k < |parts| {
      assert parts[..|parts| - 1][..k] == parts[..k];
      TotalPrefix(workflows, parts[..|parts| - 1], fuel, k);
    } else {
      assert parts[..k] == parts;
    }
  }

  lemma TotalPrefixNone(workflows: map<string, string>, parts: seq<Part>, fuel: nat, k: nat)
    requires k <= |parts| && Total(workflows, parts[..k], fuel) == Ok(None)
    ensures Total(workflows, parts, fuel) == Ok(None)
    decreases |parts| - k
  {
    if k < |parts| {
      assert parts[..|parts| - 1][..k] == parts[..k];
      TotalPrefixNone(workflows, parts[..|parts| - 1], fuel, k);
    } else {
      assert parts[..k] == parts;
    }
  }

  /** The sum of every part's ratings. */
  function AllRatings(parts: seq<Part>): nat {
    if parts == [] then 0 else AllRatings(parts[..|parts| - 1]) + Rating(parts[|parts| - 1])
  }

  /** The total is at most the sum of all ratings: nothing is counted twice. */
  lemma {:induction false} TotalBounds(workflows: map<string, string>, parts: seq<Part>, fuel: nat)
    requires Total(workflows, parts, fuel).Ok? && Total(workflows, parts, fuel).value.Some?
    ensures 0 <= Total(workflows, parts, fuel).value.value <= AllRatings(parts)
    decreases |parts|
  {
    if parts != [] {
      TotalBounds(workflows, parts[..|parts| - 1], fuel);
    }
  }

  /** Totals add up over consecutive batches of parts. */
  lemma {:induction false} TotalAdditive(workflows: map<string, string>, ps: seq<Part>, qs: seq<Part>, fuel: nat, t: int, u: int)
    requires Total(workflows, ps, fuel) == Ok(Some(t)) && Total(workflows, qs, fuel) == Ok(Some(u))
    ensures Total(workflows, ps + qs, fuel) == Ok(Some(t + u))
    decreases |qs|
  {
    if qs == [] {
      assert ps + qs == ps;
    } else {
      var init := qs[..|qs| - 1];
      var last := qs[|qs| - 1];
      var v := Total(workflows, init, fuel).value.value;
      TotalAdditive(workflows, ps, init, fuel, t, v);
      var all := ps + qs;
      assert all[..|all| - 1] == ps + init && all[|all| - 1] == last;
      var o := Run(workflows, last, Workflow("in"), fuel);
      assert o.Ok? && o.value.Some?;
      assert u == v + if o.value.value.Accept? then Rating(last) else 0;
    }
  }

  /** The inner loop: one part from `in` until accepted or rejected. */
  method Route(workflows: map<string, string>, part: Part, fuel: nat) returns (r: Result<Option<Outcome>>)
    ensures r == Run(workflows, part, Workflow("in"), fuel)
  {
    var res := Workflow("in");
    var left: nat := fuel;
    while res.Workflow? && left > 0
      invariant Run(workflows, part, res, left) == Run(workflows, part, Workflow("in"), fuel)
      decreases left
    {
      var stop, out, next := Advance(workflows, part, res, left);
      if stop {
        return out;
      }
      res := next;
      left := left - 1;
    }
    if res.Workflow? {
      return Ok(None);
    } else if res.Rule? {
      return Panic(ShouldNotReach);
    }
    r := Ok(Some(res));
  }

  /** One turn of the inner loop at the workflow `name`: either the run
      stops there with `r`, or it goes on from `next`. */
  method Advance(workflows: map<string, string>, part: Part, res: Outcome, left: nat)
    returns (stop: bool, r: Result<Option<Outcome>>, next: Outcome)
    requires res.Workflow? && left > 0
    ensures stop ==> r.Panic? && r == Run(workflows, part, res, left)
    ensures !stop ==> Run(workflows, part, res, left) == Run(workflows, part, next, left - 1)
  {
    var name := res.name;
    if name !in workflows {
      return true, Panic(NoEntry), Accept;
    }
    var e := EvalRule(part, workflows[name]);
    if e.Panic? {
      return true, Panic(e.reason), Accept;
    }
    return false, Ok(None), e.value;
  }

  /** `Total` over one more part, in terms of that part's run. The total
      is stated field by field. */
  lemma TotalNext(workflows: map<string, string>, init: seq<Part>, p: Part, fuel: nat, tot: int)
    requires var t := Total(workflows, init, fuel); t.Ok? && t.value.Some? && t.value.value == tot
    ensures var o := Run(workflows, p, Workflow("in"), fuel);
      var t := Total(workflows, init + [p], fuel);
      && (o.Panic? ==> t.Panic? && t.reason == o.reason)
      && (o.Ok? && o.value.None? ==> t == Ok(None))
      && (o.Ok? && o.value.Some? ==>
            t.Ok? && t.value.Some? && t.value.value == tot + if o.value.value.Accept? then Rating(p) else 0)
  {
    var ps := init + [p];
    assert ps[..|ps| - 1] == init;
  }

  /** The part-1 loop over the parts, adding up the accepted ones. */
  method Sort(workflows: map<string, string>, parts: seq<Part>, fuel: nat) returns (r: Result<Option<int>>)
    ensures r == Total(workflows, parts, fuel)
  {
    var tot := 0;
    for i := 0 to |parts|
      invariant var t := Total(workflows, parts[..i], fuel); t.Ok? && t.value.Some? && t.value.value == tot
    {
      var outcome := Route(workflows, parts[i], fuel);
      assert parts[..i + 1] == parts[..i] + [parts[i]];
      TotalNext(workflows, parts[..i], parts[i], fuel, tot);
      if outcome.Panic? {
        TotalPrefix(workflows, parts, fuel, i + 1);
        return Panic(outcome.reason);
      }
      if outcome.value.None? {
        TotalPrefixNone(workflows, parts, fuel, i + 1);
        return Ok(None);
      }
      if outcome.value.value.Accept? {
        tot := tot + Rating(parts[i]);
      }
    }
    assert parts[..|parts|] == parts;
    r := Ok(Some(tot));
  }

  // ------------------------------------------------------------------ input

  /** A workflow line `name{rules}`: the name before the first '{', the
      rules with every '}' removed. */
  function ParseWorkflow(line: string): Result<(string, string)> {
    match Strings.SplitOnce(line, "{")
    case None => Panic(UnwrapNone)
    case Some((name, rules)) => Ok((name, Strings.Replace(rules, "}", "")))
  }

  /** Parsing a printed workflow line gives the name and the rules back. */
  lemma WorkflowRoundTrip(name: string, rules: string)
    requires '{' !in name && '}' !in rules
    ensures ParseWorkflow(name + "{" + rules + "}") == Ok((name, rules))
  {
    var closed := rules + "}";
    assert name + "{" + rules + "}" == name + ['{'] + closed;
    Strings.SplitOnceChar(name, '{', closed);
    assert closed == rules + ['}'] + [];
    Strings.SplitFirstChar(rules, '}', []);
    Strings.SplitAbsent([], "}");
    var pieces := Strings.Split(closed, "}");
    assert pieces == [rules, []];
    assert pieces[1..] == [[]];
    assert Strings.Join(pieces, "") == rules + "" + [];
    assert Strings.Replace(closed, "}", "") == rules;
  }

  /** The map the workflow lines collect into; a later line with the same
      name replaces an earlier one. */
  function Workflows(lines: seq<string>): (r: Result<map<string, string>>)
    ensures r.Ok? ==> forall j :: 0 <= j < |lines| ==> ParseWorkflow(lines[j]).Ok?
  {
    if lines == [] then Ok(map[])
    else
      var firsts := lines[..|lines| - 1];
      var init :- Workflows(firsts);
      var entry :- ParseWorkflow(lines[|lines| - 1]);
      assert forall j :: 0 <= j < |firsts| ==> firsts[j] == lines[j];
      Ok(init[entry.0 := entry.1])
  }

  /** A workflow's rules are those of the last line with its name. */
  lemma {:induction false} WorkflowsLastWins(lines: seq<string>, i: nat)
    requires i < |lines| && Workflows(lines).Ok?
    requires forall j :: i < j < |lines| ==> ParseWorkflow(lines[j]).value.0 != ParseWorkflow(lines[i]).value.0
    ensures var (name, rules) := ParseWorkflow(lines[i]).value;
            name in Workflows(lines).value && Workflows(lines).value[name] == rules
    decreases |lines|
  {
    if i < |lines| - 1 {
      var init := lines[..|lines| - 1];
      assert forall j :: i < j < |init| ==> init[j] == lines[j];
      WorkflowsLastWins(init, i);
      assert init[i] == lines[i];
    }
  }

  /** The index of the first empty line, or the number of lines. */
  function FirstBlank(lines: seq<string>): (k: nat)
    ensures k <= |lines|
    ensures forall j :: 0 <= j < k ==> lines[j] != ""
    ensures k < |lines| ==> lines[k] == ""
  {
    if lines == [] || lines[0] == "" then 0 else 1 + FirstBlank(lines[1..])
  }

  /** The lines after the first empty line. */
  function PartLines(lines: seq<string>): (r: seq<string>)
    ensures FirstBlank(lines) < |lines| ==> lines == lines[..FirstBlank(lines)] + [""] + r
  {
    var k := FirstBlank(lines);
    if k < |lines| then lines[k + 1..] else []
  }

  function Parts(lines: seq<string>): Result<seq<Part>> {
    Collect(seq(|lines|, i requires 0 <= i < |lines| => PartFromStr(lines[i])))
  }

  /** Part 1: workflows from the lines before the first empty line, parts
      from the lines after it, then the sort. */
  method Part1(lines: seq<string>, fuel: nat) returns (r: Result<Option<int>>)
    ensures Workflows(lines[..FirstBlank(lines)]).Panic? ==> r == Panic(Workflows(lines[..FirstBlank(lines)]).reason)
    ensures Workflows(lines[..FirstBlank(lines)]).Ok? && Parts(PartLines(lines)).Panic? ==> r == Panic(Parts(PartLines(lines)).reason)
    ensures Workflows(lines[..FirstBlank(lines)]).Ok? && Parts(PartLines(lines)).Ok? ==>
      r == Total(Workflows(lines[..FirstBlank(lines)]).value, Parts(PartLines(lines)).value, fuel)
  {
    var workflows := Workflows(lines[..FirstBlank(lines)]);
    if workflows.Panic? {
      return Panic(workflows.reason);
    }
    var parts := Parts(PartLines(lines));
    if parts.Panic? {
      return Panic(parts.reason);
    }
    r := Sort(workflows.value, parts.value, fuel);
  }
}
