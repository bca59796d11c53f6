/** Day 8 (Haunted Wasteland): the node network, the left/right walk driven
    by the repeating instruction string, and the part-2 combination of the
    walks' lengths by least common multiple. */
module Day8 {
  import opened Wrappers
  import opened Strings
  import Numbers

  const UnknownDirection := "Unknown direction"
  const RemainderByZero := "attempt to calculate the remainder with a divisor of zero"

  /** The instructions, the node names in file order, and each node's
      (left, right) neighbour names. */
  datatype Network = Network(instructions: string, nodes: seq<string>, edges: seq<(string, string)>)

  // ---------------------------------------------------------------------
  // Parsing
  // ---------------------------------------------------------------------

  predicate IsNameChar(c: char) {
    '0' <= c <= '9' || 'A' <= c <= 'Z'
  }

  predicate IsName(s: string) {
    |s| > 0 && forall k :: 0 <= k < |s| ==> IsNameChar(s[k])
  }

  /** The end of the longest run of `c` characters starting at `k`. */
  function SpaceEnd(s: string, k: nat): (e: nat)
    requires k <= |s|
    ensures k <= e <= |s|
    ensures forall j :: k <= j < e ==> s[j] == ' '
    ensures e < |s| ==> s[e] != ' '
    decreases |s| - k
  {
    if k < |s| && s[k] == ' ' then SpaceEnd(s, k + 1) else k
  }

  /** The end of the longest run of name characters starting at `k`. */
  function NameEnd(s: string, k: nat): (e: nat)
    requires k <= |s|
    ensures k <= e <= |s|
    ensures forall j :: k <= j < e ==> IsNameChar(s[j])
    ensures e < |s| ==> !IsNameChar(s[e])
    decreases |s| - k
  {
    if k < |s| && IsNameChar(s[k]) then NameEnd(s, k + 1) else k
  }

  /** The pattern `[ ]*([0-9A-Z]+), ([0-9A-Z]+)\)[ ]*` matched from
      position `k`. Spaces, commas and parentheses are not name characters,
      so each repetition must take its whole run and no backtracking is
      possible: the match, when there is one, is this one. */
  function MatchAt(s: string, k: nat): (r: Option<(string, string)>)
    requires k <= |s|
    ensures r.Some? ==> IsName(r.value.0) && IsName(r.value.1)
  {
    var a := SpaceEnd(s, k);
    var b := NameEnd(s, a);
    if b == a || b + 2 > |s| || s[b..b + 2] != ", " then None
    else
      var c := NameEnd(s, b + 2);
      if c == b + 2 || c >= |s| || s[c] != ')' then None
      else Some((s[a..b], s[b + 2..c]))
  }

  /** `captures(line)`: the leftmost position from which the pattern matches. */
  function Captures(s: string, k: nat): (r: Option<(string, string)>)
    requires k <= |s|
    ensures r.Some? ==> IsName(r.value.0) && IsName(r.value.1)
    decreases |s| - k
  {
    if MatchAt(s, k).Some? then MatchAt(s, k)
    else if k == |s| then None
    else Captures(s, k + 1)
  }

  /** The edge pair of a node line; a line the pattern misses panics. */
  function ParseEdge(line: string): (r: Result<(string, string)>)
    ensures r.Panic? ==> r.reason == UnwrapNone
  {
    Unwrap(Captures(line, 0), UnwrapNone)
  }

  /** The node name: the text before the first `" = "`. */
  function NodeName(line: string): string {
    Split(line, " = ")[0]
  }

  /** `parse_input` on the lines of the input: the instructions are line 1,
      the nodes and edges come from line 3 onward. */
  function ParseLines(lines: seq<string>): (r: Result<Network>)
    ensures lines == [] ==> r == Panic(UnwrapNone)
    ensures r.Ok? ==> r.value.instructions == lines[0]
    ensures r.Ok? ==> |r.value.nodes| == |r.value.edges| == (if |lines| >= 2 then |lines| - 2 else 0)
  {
    var instructions :- Unwrap(if lines == [] then None else Some(lines[0]), UnwrapNone);
    var rest := if |lines| >= 2 then lines[2..] else [];
    var nodes := seq(|rest|, k requires 0 <= k < |rest| => NodeName(rest[k]));
    var edgeResults := seq(|rest|, k requires 0 <= k < |rest| => ParseEdge(rest[k]));
    if Collect(edgeResults).Panic? then
      CollectPanicReason(edgeResults);
      Panic(Collect(edgeResults).reason)
    else
      Ok(Network(instructions, nodes, Collect(edgeResults).value))
  }

  function ParseInput(input: string): (r: Result<Network>)
    ensures input == [] ==> r == Panic(UnwrapNone)
    ensures r.Ok? ==> '\n' !in r.value.instructions
  {
    ParseLines(Lines(input))
  }

  /** A node line as the puzzle writes it. */
  function FormatNode(name: string, left: string, right: string): string {
    name + " = (" + left + ", " + right + ")"
  }

  lemma NoMatchBefore(s: string, name: string, k: nat)
    requires IsName(name) && |name| + 4 <= |s| && s[..|name| + 4] == name + " = ("
    requires k < |name| + 4
    ensures MatchAt(s, k).None?
  {
    var a := SpaceEnd(s, k);
    var b := NameEnd(s, a);
    assert s[|name|] == ' ' && s[|name| + 1] == '=' && s[|name| + 2] == ' ' && s[|name| + 3] == '(' by {
      assert s[..|name| + 4][|name|] == ' ';
      assert s[..|name| + 4][|name| + 1] == '=';
      assert s[..|name| + 4][|name| + 2] == ' ';
      assert s[..|name| + 4][|name| + 3] == '(';
    }
    if k < |name| {
      assert a == k by {
        assert s[k] == s[..|name| + 4][k] == name[k];
      }
      assert b == |name| by {
        forall j | k <= j < |name| ensures IsNameChar(s[j]) {
          assert s[j] == s[..|name| + 4][j] == name[j];
        }
      }
      assert s[b..b + 2][0] == ' ';
    } else if k == |name| {
      assert a == |name| + 1;
    } else if k == |name| + 2 {
      assert a == |name| + 3;
    }
  }

  lemma {:induction false} CapturesSkip(s: string, name: string, k: nat)
    requires IsName(name) && |name| + 4 <= |s| && s[..|name| + 4] == name + " = ("
    requires k <= |name| + 4
    ensures Captures(s, k) == Captures(s, |name| + 4)
    decreases |name| + 4 - k
  {
    if k < |name| + 4 {
      NoMatchBefore(s, name, k);
      CapturesSkip(s, name, k + 1);
    }
  }

  /** A well-formed node line parses back to its name and its two edges. */
  lemma ParseNodeLine(name: string, left: string, right: string)
    requires IsName(name) && IsName(left) && IsName(right)
    ensures NodeName(FormatNode(name, left, right)) == name
    ensures ParseEdge(FormatNode(name, left, right)) == Ok((left, right))
  {
    NodeNameOf(name, left, right);
    EdgeOf(name, left, right);
  }

  lemma NodeNameOf(name: string, left: string, right: string)
    requires IsName(name)
    ensures NodeName(FormatNode(name, left, right)) == name
  {
    assert FormatNode(name, left, right) == name + " = " + ("(" + left + ", " + right + ")");
    assert ' ' !in name by {
      forall k | 0 <= k < |name| ensures name[k] != ' ' {
        assert IsNameChar(name[k]);
      }
    }
    SplitFirstBy(name, " = ", "(" + left + ", " + right + ")", 0);
  }

  lemma EdgeOf(name: string, left: string, right: string)
    requires IsName(name) && IsName(left) && IsName(right)
    ensures ParseEdge(FormatNode(name, left, right)) == Ok((left, right))
  {
    var s := FormatNode(name, left, right);
    var k := |name| + 4;
    NodeLineLayout(name, left, right);
    CapturesSkip(s, name, 0);
    MatchAtOf(s, k, left, right);
    assert Captures(s, k) == Some((left, right));
    assert Captures(s, 0) == Some((left, right));
  }

  /** Where the pieces of a node line sit. */
  lemma NodeLineLayout(name: string, left: string, right: string)
    ensures var s := FormatNode(name, left, right);
      var k := |name| + 4;
      && s[..k] == name + " = ("
      && k + |left| + 2 + |right| < |s|
      && s[k..k + |left|] == left && s[k + |left|..k + |left| + 2] == ", "
      && s[k + |left| + 2..k + |left| + 2 + |right|] == right && s[k + |left| + 2 + |right|] == ')'
  {
    var s := FormatNode(name, left, right);
    assert s[..|name| + 4] == name + " = (";
    var k := |name| + 4;
    var t := left + ", " + right + ")";
    assert s[k..] == t;
    SliceOf(s, k, t, 0, |left|);
    SliceOf(s, k, t, |left|, |left| + 2);
    SliceOf(s, k, t, |left| + 2, |left| + 2 + |right|);
    SliceOf(s, k, t, |left| + 2 + |right|, |t|);
    assert t[..|left|] == left && t[|left|..|left| + 2] == ", ";
    assert t[|left| + 2..|left| + 2 + |right|] == right;
    assert t[|left| + 2 + |right|] == ')';
  }

  /** A name of length `|w|` at `k` followed by a non-name character. */
  lemma NameRun(s: string, k: nat, w: string)
    requires IsName(w) && k + |w| < |s| && s[k..k + |w|] == w && !IsNameChar(s[k + |w|])
    ensures NameEnd(s, k) == k + |w|
  {
    forall j | k <= j < k + |w| ensures IsNameChar(s[j]) {
      assert s[j] == s[k..k + |w|][j - k];
    }
  }

  lemma SliceOf(s: string, k: nat, t: string, i: nat, j: nat)
    requires k <= |s| && s[k..] == t && i <= j <= |t|
    ensures s[k + i..k + j] == t[i..j]
    ensures i < |t| ==> s[k + i] == t[i]
  {
    assert |s[k + i..k + j]| == |t[i..j]| == j - i;
    forall m | 0 <= m < j - i ensures s[k + i..k + j][m] == t[i..j][m] {
      assert s[k + i..k + j][m] == s[k + i + m] == s[k..][i + m];
    }
    if i < |t| {
      assert s[k + i] == s[k..][i];
    }
  }

  lemma MatchAtParts(s: string, k: nat, b: nat, c: nat)
    requires k < b && b + 2 < c < |s|
    requires SpaceEnd(s, k) == k && NameEnd(s, k) == b && s[b..b + 2] == ", "
    requires NameEnd(s, b + 2) == c && s[c] == ')'
    ensures MatchAt(s, k) == Some((s[k..b], s[b + 2..c]))
  {
  }

  lemma MatchAtOf(s: string, k: nat, left: string, right: string)
    requires IsName(left) && IsName(right)
    requires k + |left| + 2 + |right| < |s|
    requires s[k..k + |left|] == left && s[k + |left|..k + |left| + 2] == ", "
    requires s[k + |left| + 2..k + |left| + 2 + |right|] == right && s[k + |left| + 2 + |right|] == ')'
    ensures MatchAt(s, k) == Some((left, right))
  {
    var b := k + |left|;
    var c := b + 2 + |right|;
    assert s[k] != ' ' by {
      assert s[k] == s[k..b][0] == left[0];
    }
    assert SpaceEnd(s, k) == k;
    assert s[b] == ',' by {
      assert s[b..b + 2][0] == s[b];
    }
    NameRun(s, k, left);
    NameRun(s, b + 2, right);
    MatchAtParts(s, k, b, c);
  }

  /** Lines of a well-formed puzzle parse back to the network they show. */
  lemma ParseFormatLines(instructions: string, nodes: seq<string>, edges: seq<(string, string)>)
    requires |nodes| == |edges|
    requires forall k :: 0 <= k < |nodes| ==> IsName(nodes[k]) && IsName(edges[k].0) && IsName(edges[k].1)
    ensures ParseLines([instructions, ""] + seq(|nodes|, k requires 0 <= k < |nodes| => FormatNode(nodes[k], edges[k].0, edges[k].1)))
      == Ok(Network(instructions, nodes, edges))
  {
    var body := seq(|nodes|, k requires 0 <= k < |nodes| => FormatNode(nodes[k], edges[k].0, edges[k].1));
    var lines := [instructions, ""] + body;
    assert lines[2..] == body;
    forall k | 0 <= k < |nodes|
      ensures NodeName(body[k]) == nodes[k] && ParseEdge(body[k]) == Ok(edges[k])
    {
      ParseNodeLine(nodes[k], edges[k].0, edges[k].1);
    }
    var edgeResults := seq(|body|, k requires 0 <= k < |body| => ParseEdge(body[k]));
    CollectAllOk(edgeResults, edges);
    assert seq(|body|, k requires 0 <= k < |body| => NodeName(body[k])) == nodes;
  }

  // ---------------------------------------------------------------------
  // Matching names to indices
  // ---------------------------------------------------------------------

  /** `nodes.iter().position(|node| node == name)`. */
  function IndexIn(nodes: seq<string>, name: string): (r: Option<nat>)
    ensures r.Some? <==> name in nodes
    ensures r.Some? ==> r.value < |nodes| && nodes[r.value] == name
    ensures r.Some? ==> forall k :: 0 <= k < r.value ==> nodes[k] != name
  {
    if nodes == [] then None
    else if nodes[0] == name then Some(0)
    else
      match IndexIn(nodes[1..], name)
      case None => None
      case Some(i) => Some(i + 1)
  }

  function EdgeIndices(nodes: seq<string>, edge: (string, string)): (r: Result<(nat, nat)>)
    ensures r.Ok? <==> edge.0 in nodes && edge.1 in nodes
    ensures r.Panic? ==> r.reason == UnwrapNone
  {
    var left :- Unwrap(IndexIn(nodes, edge.0), UnwrapNone);
    var right :- Unwrap(IndexIn(nodes, edge.1), UnwrapNone);
    Ok((left, right))
  }

  /** The index of `name`'s first occurrence. */
  predicate FirstIndex(nodes: seq<string>, name: string, i: nat) {
    i < |nodes| && nodes[i] == name && forall k :: 0 <= k < i ==> nodes[k] != name
  }

  /** `match_edges_to_nodes`: one index pair per edge, each the first
      position of that name among the nodes; an unknown name panics. */
  function MatchEdges(nodes: seq<string>, edges: seq<(string, string)>): (r: Result<seq<(nat, nat)>>)
    ensures r.Ok? <==> forall k :: 0 <= k < |edges| ==> edges[k].0 in nodes && edges[k].1 in nodes
    ensures r.Panic? ==> r.reason == UnwrapNone
    ensures r.Ok? ==> |r.value| == |edges|
    ensures r.Ok? ==> forall k :: 0 <= k < |edges| ==>
      FirstIndex(nodes, edges[k].0, r.value[k].0) && FirstIndex(nodes, edges[k].1, r.value[k].1)
  {
    var rs := seq(|edges|, k requires 0 <= k < |edges| => EdgeIndices(nodes, edges[k]));
    assert forall k :: 0 <= k < |edges| ==> rs[k] == EdgeIndices(nodes, edges[k]);
    if Collect(rs).Panic? then
      CollectPanicReason(rs);
      Panic(Collect(rs).reason)
    else
      var pairs := Collect(rs).value;
      assert forall k :: 0 <= k < |edges| ==> rs[k] == Ok(pairs[k]);
      Ok(pairs)
  }

  // ---------------------------------------------------------------------
  // Walking
  // ---------------------------------------------------------------------

  /** Step `i` from node `pos`: instruction `i mod len` picks the left or
      the right neighbour. */
  function Step(instructions: string, m: seq<(nat, nat)>, pos: nat, i: nat): (r: Result<nat>)
    ensures r.Ok? <==> |instructions| > 0 && pos < |m| && instructions[i % |instructions|] in "LR"
    ensures r.Ok? && instructions[i % |instructions|] == 'L' ==> r.value == m[pos].0
    ensures r.Ok? && instructions[i % |instructions|] == 'R' ==> r.value == m[pos].1
  {
    if |instructions| == 0 then Panic(RemainderByZero)
    else
      var c := instructions[i % |instructions|];
      if c == 'L' then (if pos < |m| then Ok(m[pos].0) else Panic(IndexOutOfBounds))
      else if c == 'R' then (if pos < |m| then Ok(m[pos].1) else Panic(IndexOutOfBounds))
      else Panic(UnknownDirection)
  }

  /** The node reached after `n` steps from `start`. */
  function PosAfter(instructions: string, m: seq<(nat, nat)>, start: nat, n: nat): Result<nat> {
    if n == 0 then Ok(start)
    else
      var pos :- PosAfter(instructions, m, start, n - 1);
      Step(instructions, m, pos, n - 1)
  }

  /** The walk from `start` reaches one of `targets` first after `n` steps. */
  predicate FirstArrival(instructions: string, m: seq<(nat, nat)>, start: nat, targets: seq<nat>, n: nat) {
    PosAfter(instructions, m, start, n).Ok?
    && PosAfter(instructions, m, start, n).value in targets
    && NotArrivedBefore(instructions, m, start, targets, n)
  }

  predicate NotArrivedBefore(instructions: string, m: seq<(nat, nat)>, start: nat, targets: seq<nat>, n: nat) {
    forall i :: 0 <= i < n ==>
      PosAfter(instructions, m, start, i).Ok? && PosAfter(instructions, m, start, i).value !in targets
  }

  /** The first arrival is unique. */
  lemma FirstArrivalUnique(instructions: string, m: seq<(nat, nat)>, start: nat, targets: seq<nat>, n1: nat, n2: nat)
    requires FirstArrival(instructions, m, start, targets, n1)
    requires FirstArrival(instructions, m, start, targets, n2)
    ensures n1 == n2
  {
    assert !(n1 < n2);
    assert !(n2 < n1);
  }

  lemma ExtendNotArrived(instructions: string, m: seq<(nat, nat)>, start: nat, targets: seq<nat>, n: nat)
    requires NotArrivedBefore(instructions, m, start, targets, n)
    requires PosAfter(instructions, m, start, n).Ok? && PosAfter(instructions, m, start, n).value !in targets
    ensures NotArrivedBefore(instructions, m, start, targets, n + 1)
  {
  }

  /** The walk loop shared by both parts: step while the current node is
      not a target. The puzzle loop has no bound; `fuel` caps the number
      of steps, and running out is reported as `None`. */
  method StepsUntil(instructions: string, m: seq<(nat, nat)>, start: nat, targets: seq<nat>, fuel: nat)
    returns (r: Result<Option<nat>>)
    ensures r.Ok? && r.value.Some? ==> FirstArrival(instructions, m, start, targets, r.value.value)
    ensures r == Ok(None) ==> NotArrivedBefore(instructions, m, start, targets, fuel + 1)
    ensures r.Panic? ==> exists n :: 0 < n <= fuel && PosAfter(instructions, m, start, n) == Panic(r.reason)
  {
    var pos := start;
    var i := 0;
    while pos !in targets
      invariant i <= fuel
      invariant PosAfter(instructions, m, start, i) == Ok(pos)
      invariant NotArrivedBefore(instructions, m, start, targets, i)
      decreases fuel - i
    {
      ExtendNotArrived(instructions, m, start, targets, i);
      if i == fuel {
        return Ok(None);
      }
      var next := Step(instructions, m, pos, i);
      assert PosAfter(instructions, m, start, i + 1) == next;
      if next.Panic? {
        assert PosAfter(instructions, m, start, i + 1) == Panic(next.reason);
        return Panic(next.reason);
      }
      pos := next.value;
      i := i + 1;
    }
    return Ok(Some(i));
  }

  /** The part-1 driver: from "AAA" until "ZZZ". */
  method Part1(nodes: seq<string>, instructions: string, m: seq<(nat, nat)>, fuel: nat)
    returns (r: Result<Option<nat>>)
    ensures ("AAA" !in nodes || "ZZZ" !in nodes) ==> r == Panic(UnwrapNone)
    ensures r.Ok? && r.value.Some? ==>
      FirstArrival(instructions, m, IndexIn(nodes, "AAA").value, [IndexIn(nodes, "ZZZ").value], r.value.value)
    ensures r == Ok(None) ==> ("AAA" in nodes && "ZZZ" in nodes &&
      NotArrivedBefore(instructions, m, IndexIn(nodes, "AAA").value, [IndexIn(nodes, "ZZZ").value], fuel + 1))
    ensures r.Panic? && "AAA" in nodes && "ZZZ" in nodes ==>
      exists n :: 0 < n <= fuel && PosAfter(instructions, m, IndexIn(nodes, "AAA").value, n) == Panic(r.reason)
  {
    var start := IndexIn(nodes, "AAA");
    if start.None? {
      return Panic(UnwrapNone);
    }
    var dest := IndexIn(nodes, "ZZZ");
    if dest.None? {
      return Panic(UnwrapNone);
    }
    r := StepsUntil(instructions, m, start.value, [dest.value], fuel);
  }

  predicate EndsWith(name: string, c: char) {
    name != [] && name[|name| - 1] == c
  }

  /** The indices of the names ending in `c`, in order; an empty name
      panics (`chars().last().unwrap()`). */
  function EndingIn(nodes: seq<string>, c: char): (r: Result<seq<nat>>)
    ensures r.Ok? <==> forall k :: 0 <= k < |nodes| ==> nodes[k] != []
    ensures r.Panic? ==> r.reason == UnwrapNone
    ensures r.Ok? ==> forall k: nat :: k in r.value <==> k < |nodes| && EndsWith(nodes[k], c)
    ensures r.Ok? ==> forall a, b :: 0 <= a < b < |r.value| ==> r.value[a] < r.value[b]
    decreases |nodes|
  {
    if nodes == [] then Ok([])
    else
      var init :- EndingIn(nodes[..|nodes| - 1], c);
      var name := nodes[|nodes| - 1];
      assert forall k :: 0 <= k < |nodes| - 1 ==> nodes[..|nodes| - 1][k] == nodes[k];
      assert forall a :: 0 <= a < |init| ==> init[a] < |nodes| - 1 by {
        forall a | 0 <= a < |init| ensures init[a] < |nodes| - 1 {
          assert init[a] in init;
        }
      }
      if name == [] then Panic(UnwrapNone)
      else if name[|name| - 1] == c then Ok(init + [|nodes| - 1])
      else Ok(init)
  }

  /** `fold(1, lcm)` over the distances. */
  function LcmAll(ds: seq<nat>): nat {
    if ds == [] then 1 else Numbers.Lcm(LcmAll(ds[..|ds| - 1]), ds[|ds| - 1])
  }

  lemma DividesTransitive(x: nat, a: nat, d: nat)
    requires a > 0 && d > 0 && x % a == 0 && a % d == 0
    ensures x % d == 0
  {
    var p, q := x / a, a / d;
    assert x == a * p && a == d * q;
    assert x == d * (q * p);
    Numbers.MulMod(d, q * p);
  }

  /** With every distance positive, the combined answer is a positive
      common multiple of all of them. */
  lemma {:induction false} LcmAllCommonMultiple(ds: seq<nat>)
    requires forall k :: 0 <= k < |ds| ==> ds[k] > 0
    ensures LcmAll(ds) > 0
    ensures forall k :: 0 <= k < |ds| ==> LcmAll(ds) % ds[k] == 0
    decreases |ds|
  {
    if ds != [] {
      var init := ds[..|ds| - 1];
      LcmAllCommonMultiple(init);
      var l := LcmAll(ds);
      forall k | 0 <= k < |ds| ensures l % ds[k] == 0 {
        if k < |ds| - 1 {
          assert ds[k] == init[k];
          DividesTransitive(l, LcmAll(init), ds[k]);
        }
      }
    }
  }

  /** The part-2 driver: one walk per name ending in 'A', each until a name
      ending in 'Z', combined by least common multiple. */
  method Part2(nodes: seq<string>, instructions: string, m: seq<(nat, nat)>, fuel: nat)
    returns (r: Result<Option<nat>>, distances: seq<nat>)
    ensures (exists k :: 0 <= k < |nodes| && nodes[k] == []) ==> r == Panic(UnwrapNone)
    ensures r.Ok? && r.value.Some? ==> EndingIn(nodes, 'A').Ok? && EndingIn(nodes, 'Z').Ok?
    ensures r.Ok? && r.value.Some? ==> |distances| == |EndingIn(nodes, 'A').value|
    ensures r.Ok? && r.value.Some? ==> forall k :: 0 <= k < |distances| ==>
      FirstArrival(instructions, m, EndingIn(nodes, 'A').value[k], EndingIn(nodes, 'Z').value, distances[k])
    ensures r.Ok? && r.value.Some? ==> r.value.value == LcmAll(distances)
    ensures r.Ok? && r.value.Some? ==> r.value.value > 0
    ensures r.Ok? && r.value.Some? ==> forall k :: 0 <= k < |distances| ==> distances[k] > 0 && r.value.value % distances[k] == 0
    ensures r == Ok(None) ==> (EndingIn(nodes, 'A').Ok? && EndingIn(nodes, 'Z').Ok? &&
      |distances| < |EndingIn(nodes, 'A').value| &&
      (forall k :: 0 <= k < |distances| ==>
        FirstArrival(instructions, m, EndingIn(nodes, 'A').value[k], EndingIn(nodes, 'Z').value, distances[k])) &&
      NotArrivedBefore(instructions, m, EndingIn(nodes, 'A').value[|distances|], EndingIn(nodes, 'Z').value, fuel + 1))
    ensures r.Panic? && (forall k :: 0 <= k < |nodes| ==> nodes[k] != []) ==> (
      |distances| < |EndingIn(nodes, 'A').value| &&
      (forall k :: 0 <= k < |distances| ==>
        FirstArrival(instructions, m, EndingIn(nodes, 'A').value[k], EndingIn(nodes, 'Z').value, distances[k])) &&
      exists n :: 0 < n <= fuel && PosAfter(instructions, m, EndingIn(nodes, 'A').value[|distances|], n) == Panic(r.reason))
  {
    distances := [];
    var starts := EndingIn(nodes, 'A');
    if starts.Panic? {
      return Panic(starts.reason), [];
    }
    var ends := EndingIn(nodes, 'Z');
    assert ends.Ok?;
    for k := 0 to |starts.value|
      invariant |distances| == k
      invariant forall j :: 0 <= j < k ==>
        FirstArrival(instructions, m, starts.value[j], ends.value, distances[j]) && distances[j] > 0
    {
      var start := starts.value[k];
      assert start !in ends.value by {
        assert start in starts.value;
      }
      var d := StepsUntil(instructions, m, start, ends.value, fuel);
      if d.Panic? {
        return Panic(d.reason), distances;
      }
      if d.value.None? {
        return Ok(None), distances;
      }
      assert d.value.value > 0 by {
        assert PosAfter(instructions, m, start, 0) == Ok(start);
      }
      distances := distances + [d.value.value];
    }
    LcmAllCommonMultiple(distances);
    r := Ok(Some(LcmAll(distances)));
  }
}
