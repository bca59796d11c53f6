/** Day 18: a dig plan of lines `D n ...` traces the boundary of a lagoon.
    The vertices are the running sums of the decoded offsets, starting from
    (0, 0); the shoelace formula gives the enclosed area and Pick's theorem
    the interior point count, so the lagoon holds boundary + interior cubes.
    Coordinates are (row, column). */
module Day18 {
  import opened Wrappers
  import Strings

  type Pos = (int, int)

  const UnexpectedDirection := "Unexpected direction. "

  /** One decoded line: the offset to the next vertex and the step length. */
  datatype Step = Step(offset: Pos, length: int)

  /** The offset of a move of `n` in direction `dir`: up decreases the row,
      right increases the column. */
  function Decode(dir: string, n: int): (r: Result<Pos>)
    ensures r.Ok? <==> dir in {"U", "R", "D", "L"}
    ensures r.Panic? ==> r.reason == UnexpectedDirection
    ensures r.Ok? ==> Abs(r.value.0) + Abs(r.value.1) == Abs(n)
    ensures r.Ok? ==> r.value.0 == 0 || r.value.1 == 0
  {
    match dir
    case "U" => Ok((-n, 0))
    case "R" => Ok((0, n))
    case "D" => Ok((n, 0))
    case "L" => Ok((0, -n))
    case _ => Panic(UnexpectedDirection)
  }

  function Abs(x: int): nat {
    if x < 0 then -x else x
  }

  /** Up and down, left and right cancel out. */
  lemma DecodeOpposite(n: int)
    ensures Add(Decode("U", n).value, Decode("D", n).value) == (0, 0)
    ensures Add(Decode("L", n).value, Decode("R", n).value) == (0, 0)
  {
  }

  /** One line of the plan: the second word is the length (a panic when it
      is missing or not an integer), the first the direction. */
  function ParseLine(line: string): (r: Result<Step>)
    ensures r.Ok? ==> (|Strings.Words(line)| >= 2
                       && Strings.ParseInt(Strings.Words(line)[1]) == Some(r.value.length)
                       && Decode(Strings.Words(line)[0], r.value.length) == Ok(r.value.offset))
    ensures |Strings.Words(line)| < 2 ==> r == Panic(IndexOutOfBounds)
  {
    var segs := Strings.Words(line);
    if |segs| < 2 then Panic(IndexOutOfBounds)
    else
      var length :- Unwrap(Strings.ParseInt(segs[1]), UnwrapErr);
      var offset :- Decode(segs[0], length);
      Ok(Step(offset, length))
  }

  function Add(p: Pos, d: Pos): Pos {
    (p.0 + d.0, p.1 + d.1)
  }

  /** (0, 0) followed by the running sums of the offsets. */
  function Vertices(plan: seq<Step>): (r: seq<Pos>)
    ensures |r| == |plan| + 1
  {
    if plan == [] then [(0, 0)]
    else
      var init := Vertices(plan[..|plan| - 1]);
      init + [Add(init[|init| - 1], plan[|plan| - 1].offset)]
  }

  /** Each vertex is the one before it moved by that step's offset. */
  lemma {:induction false} VerticesFollowPlan(plan: seq<Step>)
    ensures Vertices(plan)[0] == (0, 0)
    ensures forall i :: 0 <= i < |plan| ==> Vertices(plan)[i + 1] == Add(Vertices(plan)[i], plan[i].offset)
    decreases |plan|
  {
    if plan != [] {
      var init := plan[..|plan| - 1];
      VerticesFollowPlan(init);
      assert forall i :: 0 <= i < |init| ==> init[i] == plan[i];
      assert forall i :: 0 <= i <= |init| ==> Vertices(plan)[i] == Vertices(init)[i];
    }
  }

  /** The sum of the step lengths. */
  function Boundary(plan: seq<Step>): int {
    if plan == [] then 0 else Boundary(plan[..|plan| - 1]) + plan[|plan| - 1].length
  }

  /** The boundary of a plan is its Manhattan length when no step is
      negative. */
  lemma {:induction false} BoundaryIsPathLength(plan: seq<Step>)
    requires forall i :: 0 <= i < |plan| ==>
               plan[i].length >= 0 && Abs(plan[i].offset.0) + Abs(plan[i].offset.1) == plan[i].length
    ensures Boundary(plan) == PathLength(Vertices(plan))
    decreases |plan|
  {
    if plan != [] {
      var init := plan[..|plan| - 1];
      BoundaryIsPathLength(init);
      var v := Vertices(plan);
      assert v[..|v| - 1] == Vertices(init);
      PathLengthSnoc(v);
    }
  }

  /** The Manhattan length of the polyline through `v`. */
  function PathLength(v: seq<Pos>): nat {
    if |v| < 2 then 0 else Abs(v[1].0 - v[0].0) + Abs(v[1].1 - v[0].1) + PathLength(v[1..])
  }

  lemma {:induction false} PathLengthSnoc(v: seq<Pos>)
    requires |v| >= 2
    ensures PathLength(v) == PathLength(v[..|v| - 1])
      + Abs(v[|v| - 1].0 - v[|v| - 2].0) + Abs(v[|v| - 1].1 - v[|v| - 2].1)
    decreases |v|
  {
    if |v| > 2 {
      PathLengthSnoc(v[1..]);
      assert v[1..][..|v| - 2] == v[..|v| - 1][1..];
    }
  }

  /** The plan of the input: its lines parsed in order, the first failing
      line's panic otherwise. */
  function Plan(lines: seq<string>): Result<seq<Step>> {
    Collect(seq(|lines|, i requires 0 <= i < |lines| => ParseLine(lines[i])))
  }

  /** The `map` closure of the source: walks the lines, updating the current
      vertex and the boundary length, and collects the vertices. */
  method Dig(lines: seq<string>) returns (r: Result<(seq<Pos>, int)>)
    ensures Plan(lines).Panic? ==> r == Panic(Plan(lines).reason)
    ensures Plan(lines).Ok? ==> r == Ok((Vertices(Plan(lines).value), Boundary(Plan(lines).value)))
  {
    ghost var parsed := seq(|lines|, i requires 0 <= i < |lines| => ParseLine(lines[i]));
    var curr := (0, 0);
    var verts := [(0, 0)];
    var boundary := 0;
    ghost var plan: seq<Step> := [];
    for i := 0 to |lines|
      invariant Collect(parsed[..i]) == Ok(plan)
      invariant verts == Vertices(plan) && curr == verts[|verts| - 1]
      invariant boundary == Boundary(plan)
    {
      var step := ParseLine(lines[i]);
      if step.Panic? {
        CollectPanicAt(parsed, i);
        return Panic(step.reason);
      }
      CollectOkAt(parsed, i);
      assert (plan + [step.value])[..|plan|] == plan;
      plan := plan + [step.value];
      boundary := boundary + step.value.length;
      curr := Add(curr, step.value.offset);
      verts := verts + [curr];
    }
    assert parsed[..|lines|] == parsed;
    r := Ok((verts, boundary));
  }

  // ------------------------------------------------------------------ area

  /** The shoelace cross term of two consecutive vertices. */
  function Cross(p: Pos, q: Pos): int {
    p.0 * q.1 - q.0 * p.1
  }

  /** The sum of the cross terms over the windows of two vertices. */
  function CrossSum(v: seq<Pos>): int {
    if |v| < 2 then 0 else Cross(v[0], v[1]) + CrossSum(v[1..])
  }

  /** Rust's `/` on integers: truncates toward zero. */
  function TruncDiv(x: int, d: int): (r: int)
    requires d > 0
    ensures Abs(r) == Abs(x) / d
    ensures x >= 0 ==> r >= 0
    ensures x < 0 ==> r <= 0
  {
    if x >= 0 then x / d else -((-x) / d)
  }

  lemma HalveEven(x: int)
    ensures TruncDiv(2 * x, 2) == x
  {
  }

  /** The (signed) area the shoelace formula gives. */
  function Area(v: seq<Pos>): (r: int)
    ensures CrossSum(v) % 2 == 0 ==> 2 * r == CrossSum(v)
    ensures CrossSum(v) % 2 != 0 ==> Abs(2 * r) == Abs(CrossSum(v)) - 1
  {
    TruncDiv(CrossSum(v), 2)
  }

  /** Pick's theorem: interior points from the area and the boundary. */
  function Interior(v: seq<Pos>, boundary: int): int {
    Abs(Area(v)) - TruncDiv(boundary, 2) + 1
  }

  /** The number of cubes dug: the boundary plus the interior. */
  function Lagoon(v: seq<Pos>, boundary: int): int {
    boundary + Interior(v, boundary)
  }

  /** The whole part-1 computation on the lines of the input. */
  method Part1(lines: seq<string>) returns (r: Result<int>)
    ensures Plan(lines).Panic? ==> r == Panic(Plan(lines).reason)
    ensures Plan(lines).Ok? ==> r == Ok(Lagoon(Vertices(Plan(lines).value), Boundary(Plan(lines).value)))
  {
    var dug := Dig(lines);
    if dug.Panic? {
      return Panic(dug.reason);
    }
    var (verts, boundary) := dug.value;
    r := Ok(Lagoon(verts, boundary));
  }

  // ------------------------------------------------------------------ properties

  function Reversed(v: seq<Pos>): (r: seq<Pos>)
    ensures |r| == |v|
    ensures forall i :: 0 <= i < |v| ==> r[i] == v[|v| - 1 - i]
  {
    if v == [] then [] else Reversed(v[1..]) + [v[0]]
  }

  lemma {:induction false} CrossSumSnoc(v: seq<Pos>, p: Pos)
    requires v != []
    ensures CrossSum(v + [p]) == CrossSum(v) + Cross(v[|v| - 1], p)
    decreases |v|
  {
    if |v| >= 2 {
      CrossSumSnoc(v[1..], p);
      assert (v + [p])[1..] == v[1..] + [p];
    }
  }

  /** Walking the vertices the other way round negates the cross sum. */
  lemma {:induction false} CrossSumReversed(v: seq<Pos>)
    ensures CrossSum(Reversed(v)) == -CrossSum(v)
    decreases |v|
  {
    if |v| >= 2 {
      CrossSumReversed(v[1..]);
      var rest := Reversed(v[1..]);
      CrossSumSnoc(rest, v[0]);
      assert rest[|rest| - 1] == v[1];
    }
  }

  /** So the lagoon size does not depend on whether the plan runs clockwise. */
  lemma LagoonOrientation(v: seq<Pos>, boundary: int)
    ensures Lagoon(Reversed(v), boundary) == Lagoon(v, boundary)
  {
    CrossSumReversed(v);
  }

  function Shift(v: seq<Pos>, d: Pos): (r: seq<Pos>)
    ensures |r| == |v|
    ensures forall i :: 0 <= i < |v| ==> r[i] == Add(v[i], d)
  {
    seq(|v|, i requires 0 <= i < |v| => Add(v[i], d))
  }

  lemma CrossShift(a: Pos, b: Pos, d: Pos)
    ensures Cross(Add(a, d), Add(b, d)) == Cross(a, b) + d.0 * (b.1 - a.1) - d.1 * (b.0 - a.0)
  {
    assert (a.0 + d.0) * (b.1 + d.1) == a.0 * b.1 + a.0 * d.1 + d.0 * b.1 + d.0 * d.1;
    assert (b.0 + d.0) * (a.1 + d.1) == b.0 * a.1 + b.0 * d.1 + d.0 * a.1 + d.0 * d.1;
    assert d.0 * (b.1 - a.1) == d.0 * b.1 - d.0 * a.1;
    assert d.1 * (b.0 - a.0) == d.1 * b.0 - d.1 * a.0;
  }

  /** `d` crossed with the displacement from `p` to `q`. */
  function Sweep(d: Pos, p: Pos, q: Pos): int {
    d.0 * (q.1 - p.1) - d.1 * (q.0 - p.0)
  }

  lemma SweepAdds(d: Pos, p: Pos, q: Pos, s: Pos)
    ensures Sweep(d, p, q) + Sweep(d, q, s) == Sweep(d, p, s)
  {
    assert d.0 * (q.1 - p.1) + d.0 * (s.1 - q.1) == d.0 * (s.1 - p.1);
    assert d.1 * (q.0 - p.0) + d.1 * (s.0 - q.0) == d.1 * (s.0 - p.0);
  }

  /** Moving every vertex by `d` changes the cross sum by `d` crossed with
      the displacement from the first vertex to the last. */
  lemma {:induction false} CrossSumShift(v: seq<Pos>, d: Pos)
    requires v != []
    ensures CrossSum(Shift(v, d)) == CrossSum(v) + Sweep(d, v[0], v[|v| - 1])
    decreases |v|
  {
    if |v| >= 2 {
      CrossSumShift(v[1..], d);
      assert Shift(v, d)[1..] == Shift(v[1..], d);
      CrossShift(v[0], v[1], d);
      SweepAdds(d, v[0], v[1], v[|v| - 1]);
    }
  }

  /** On a closed plan, where the digging starts does not matter. */
  lemma LagoonTranslation(v: seq<Pos>, boundary: int, d: Pos)
    requires v != [] && v[|v| - 1] == v[0]
    ensures Lagoon(Shift(v, d), boundary) == Lagoon(v, boundary)
  {
    CrossSumShift(v, d);
    assert Sweep(d, v[0], v[|v| - 1]) == 0 by {
      assert v[|v| - 1].1 - v[0].1 == 0 && v[|v| - 1].0 - v[0].0 == 0;
    }
    assert Area(Shift(v, d)) == Area(v);
  }

  /** The plan `R a, D b, L a, U b`. */
  function RectanglePlan(a: nat, b: nat): seq<Step> {
    [Step(Decode("R", a).value, a), Step(Decode("D", b).value, b),
     Step(Decode("L", a).value, a), Step(Decode("U", b).value, b)]
  }

  /** The corners of the rectangle, clockwise from the origin. */
  function Corners(x: int, y: int): seq<Pos> {
    [(0, 0), (0, x), (y, x), (y, 0), (0, 0)]
  }

  lemma RectangleShape(a: nat, b: nat)
    ensures Vertices(RectanglePlan(a, b)) == Corners(a, b)
    ensures Boundary(RectanglePlan(a, b)) == 2 * a + 2 * b
  {
    var plan := RectanglePlan(a, b);
    VerticesFollowPlan(plan);
    assert plan[..3][..2][..1] == plan[..1] && plan[..3][..2] == plan[..2] && plan[..4][..3] == plan[..3];
    assert Boundary(plan[..1]) == a;
    assert Boundary(plan[..2]) == a + b;
    assert Boundary(plan[..3]) == 2 * a + b;
    assert plan[..4] == plan;
  }

  lemma RectangleCrossSum(x: int, y: int, xy: int)
    requires xy == x * y
    ensures CrossSum(Corners(x, y)) == -2 * xy
  {
    var v := Corners(x, y);
    assert v[3..][1..] == v[4..];
    assert v[2..][1..] == v[3..];
    assert v[1..][1..] == v[2..];
    assert CrossSum(v[3..]) == 0;
    assert Cross(v[2], v[3]) == -xy;
    assert CrossSum(v[2..]) == -xy;
    assert Cross(v[1], v[2]) == -xy;
    assert CrossSum(v[1..]) == -2 * xy;
  }

  lemma RectangleLagoonSum(a: nat, b: nat, ab: nat)
    requires ab == a * b
    ensures Lagoon(Vertices(RectanglePlan(a, b)), Boundary(RectanglePlan(a, b))) == ab + a + b + 1
  {
    RectangleShape(a, b);
    RectangleCrossSum(a, b, ab);
    var v := Vertices(RectanglePlan(a, b));
    HalveEven(-(ab as int));
    assert Area(v) == -(ab as int);
    HalveEven(a + b);
    assert TruncDiv(2 * a + 2 * b, 2) == a + b;
    assert Interior(v, 2 * a + 2 * b) == ab - (a + b) + 1;
  }

  /** A rectangular plan `R a, D b, L a, U b` digs out the full
      (a + 1) x (b + 1) block of cubes. */
  lemma RectangleLagoon(a: nat, b: nat)
    ensures Lagoon(Vertices(RectanglePlan(a, b)), Boundary(RectanglePlan(a, b))) == (a + 1) * (b + 1)
  {
    RectangleLagoonSum(a, b, a * b);
    assert (a + 1) * (b + 1) == a * b + a + b + 1;
  }
}
