/** Day 10 (Pipe Maze): the start search, the pipe-following step, the walk
    around the loop, and the ray-crossing count of enclosed cells. */
module Day10 {
  import opened Wrappers
  import opened Grids

  const NoStart := "No start found!"
  const NoNeighbours := "No neighbours!"
  const InGround := "Ended in the ground!"
  const InvalidCharacter := "Invalid character!"

  /** A (row, column) position; both are `usize` in the puzzle. */
  type Pos = (nat, nat)

  datatype Dir = North | East | South | West

  function Opposite(d: Dir): Dir {
    match d
    case North => South
    case East => West
    case South => North
    case West => East
  }

  /** The coordinates one step from `p` towards `d`, possibly negative. */
  function Towards(p: Pos, d: Dir): (int, int) {
    match d
    case North => (p.0 - 1, p.1)
    case East => (p.0, p.1 + 1)
    case South => (p.0 + 1, p.1)
    case West => (p.0, p.1 - 1)
  }

  predicate At(q: Pos, t: (int, int)) {
    q.0 == t.0 && q.1 == t.1
  }

  /** Two positions one orthogonal step apart. */
  predicate Adjacent(p: Pos, q: Pos) {
    (p.0 == q.0 && (p.1 == q.1 + 1 || q.1 == p.1 + 1))
    || (p.1 == q.1 && (p.0 == q.0 + 1 || q.0 == p.0 + 1))
  }

  /** A step in `usize` arithmetic: stepping below row or column 0 panics. */
  function Move(p: Pos, d: Dir): (r: Result<Pos>)
    ensures r.Ok? <==> Towards(p, d).0 >= 0 && Towards(p, d).1 >= 0
    ensures r.Ok? ==> At(r.value, Towards(p, d)) && Adjacent(p, r.value)
    ensures r.Panic? ==> r.reason == SubtractOverflow
  {
    match d
    case North => if p.0 == 0 then Panic(SubtractOverflow) else Ok((p.0 - 1, p.1))
    case East => Ok((p.0, p.1 + 1))
    case South => Ok((p.0 + 1, p.1))
    case West => if p.1 == 0 then Panic(SubtractOverflow) else Ok((p.0, p.1 - 1))
  }

  // ---------------------------------------------------------------------
  // The start
  // ---------------------------------------------------------------------

  predicate HasStart(grid: Grid) {
    exists a, b :: 0 <= a < |grid| && 0 <= b < |grid[a]| && grid[a][b] == 'S'
  }

  /** `p` is the first 'S' in row-major order. */
  predicate IsFirstStart(grid: Grid, p: Pos) {
    InGrid(grid, p.0, p.1) && grid[p.0][p.1] == 'S'
    && forall a, b :: 0 <= a < |grid| && 0 <= b < |grid[a]| && (a < p.0 || (a == p.0 && b < p.1)) ==> grid[a][b] != 'S'
  }

  /** `find_start`: a row-major scan that returns at the first 'S'. */
  method FindStart(grid: Grid) returns (r: Result<Pos>)
    ensures r.Ok? <==> HasStart(grid)
    ensures r.Ok? ==> IsFirstStart(grid, r.value)
    ensures r.Panic? ==> r.reason == NoStart
  {
    for i := 0 to |grid|
      invariant forall a, b :: 0 <= a < i && 0 <= b < |grid[a]| ==> grid[a][b] != 'S'
    {
      for j := 0 to |grid[i]|
        invariant forall b :: 0 <= b < j ==> grid[i][b] != 'S'
      {
        if grid[i][j] == 'S' {
          return Ok((i, j));
        }
      }
    }
    return Panic(NoStart);
  }

  lemma FirstStartUnique(grid: Grid, p: Pos, q: Pos)
    requires IsFirstStart(grid, p) && IsFirstStart(grid, q)
    ensures p == q
  {
    assert !(p.0 < q.0 || (p.0 == q.0 && p.1 < q.1));
    assert !(q.0 < p.0 || (q.0 == p.0 && q.1 < p.1));
  }

  // ---------------------------------------------------------------------
  // Following the pipes
  // ---------------------------------------------------------------------

  predicate IsPipe(c: char) {
    c in "|-LJ7F"
  }

  /** The two directions each pipe joins. */
  function PipeEnds(c: char): (Dir, Dir)
    requires IsPipe(c)
  {
    match c
    case '|' => (North, South)
    case '-' => (West, East)
    case 'L' => (North, East)
    case 'J' => (North, West)
    case '7' => (South, West)
    case 'F' => (South, East)
  }

  /** The neighbour of `p` towards `d` is a pipe with an end pointing back. */
  predicate ConnectsBack(grid: Grid, p: Pos, d: Dir) {
    var t := Towards(p, d);
    InGrid(grid, t.0, t.1) && IsPipe(grid[t.0][t.1])
    && (PipeEnds(grid[t.0][t.1]).0 == Opposite(d) || PipeEnds(grid[t.0][t.1]).1 == Opposite(d))
  }

  /** The exit from 'S': the first of west, south, east and north whose tile
      accepts a connection. */
  function StartExit(grid: Grid, pos: Pos): (r: Result<Pos>)
  {
    var nb := NeighboursOf(grid, pos.0, pos.1);
    if nb.w.Some? && nb.w.value in "-LF" then Move(pos, West)
    else if nb.s.Some? && nb.s.value in "|JL" then Move(pos, South)
    else if nb.e.Some? && nb.e.value in "-J7" then Move(pos, East)
    else if nb.n.Some? && nb.n.value in "|F7" then Move(pos, North)
    else Panic(NoNeighbours)
  }

  /** `next_pos`: the cell after `pos` when arriving from `prev`. */
  function NextPos(grid: Grid, pos: Pos, prev: Pos): (r: Result<Pos>)
    ensures r.Ok? ==> InGrid(grid, pos.0, pos.1) && Adjacent(pos, r.value)
    ensures !InGrid(grid, pos.0, pos.1) ==> r == Panic(IndexOutOfBounds)
    ensures InGrid(grid, pos.0, pos.1) && grid[pos.0][pos.1] == '.' ==> r == Panic(InGround)
    ensures InGrid(grid, pos.0, pos.1) && !IsPipe(grid[pos.0][pos.1]) && grid[pos.0][pos.1] !in ".S" ==>
      r == Panic(InvalidCharacter)
  {
    if !InGrid(grid, pos.0, pos.1) then Panic(IndexOutOfBounds)
    else
      match grid[pos.0][pos.1]
      case '|' => if prev.0 < pos.0 then Move(pos, South) else Move(pos, North)
      case '-' => if prev.1 < pos.1 then Move(pos, East) else Move(pos, West)
      case 'L' => if prev.0 < pos.0 then Move(pos, East) else Move(pos, North)
      case 'J' => if prev.1 < pos.1 then Move(pos, North) else Move(pos, West)
      case '7' => if prev.1 < pos.1 then Move(pos, South) else Move(pos, West)
      case 'F' => if prev.1 > pos.1 then Move(pos, South) else Move(pos, East)
      case 'S' => StartExit(grid, pos)
      case '.' => Panic(InGround)
      case _ => Panic(InvalidCharacter)
  }

  /** Entering a pipe through one end leaves through the other. */
  lemma PipeOtherEnd(grid: Grid, pos: Pos, prev: Pos)
    requires InGrid(grid, pos.0, pos.1) && IsPipe(grid[pos.0][pos.1])
    ensures At(prev, Towards(pos, PipeEnds(grid[pos.0][pos.1]).0)) ==>
      NextPos(grid, pos, prev) == Move(pos, PipeEnds(grid[pos.0][pos.1]).1)
    ensures At(prev, Towards(pos, PipeEnds(grid[pos.0][pos.1]).1)) ==>
      NextPos(grid, pos, prev) == Move(pos, PipeEnds(grid[pos.0][pos.1]).0)
  {
  }

  /** The first direction, in the order west, south, east, north, whose
      neighbour connects back. */
  function FirstConnecting(grid: Grid, pos: Pos): (r: Option<Dir>)
    ensures r.Some? ==> ConnectsBack(grid, pos, r.value)
    ensures r.None? <==> forall d :: !ConnectsBack(grid, pos, d)
  {
    if ConnectsBack(grid, pos, West) then Some(West)
    else if ConnectsBack(grid, pos, South) then Some(South)
    else if ConnectsBack(grid, pos, East) then Some(East)
    else if ConnectsBack(grid, pos, North) then Some(North)
    else None
  }

  /** At 'S' the walk leaves towards the first connecting direction; with
      none it panics. */
  lemma StartExitConnects(grid: Grid, pos: Pos)
    ensures FirstConnecting(grid, pos).Some? ==> StartExit(grid, pos) == Move(pos, FirstConnecting(grid, pos).value)
    ensures FirstConnecting(grid, pos).None? ==> StartExit(grid, pos) == Panic(NoNeighbours)
  {
    var nb := NeighboursOf(grid, pos.0, pos.1);
    assert nb.w.Some? && nb.w.value in "-LF" <==> ConnectsBack(grid, pos, West);
    assert nb.s.Some? && nb.s.value in "|JL" <==> ConnectsBack(grid, pos, South);
    assert nb.e.Some? && nb.e.value in "-J7" <==> ConnectsBack(grid, pos, East);
    assert nb.n.Some? && nb.n.value in "|F7" <==> ConnectsBack(grid, pos, North);
  }

  // ---------------------------------------------------------------------
  // The walk
  // ---------------------------------------------------------------------

  /** The (current, previous) positions after `n` steps from `start`. */
  function Walk(grid: Grid, start: Pos, n: nat): Result<(Pos, Pos)>
    decreases n, 1
  {
    if n == 0 then Ok((start, start)) else WalkOn(grid, start, n)
  }

  /** Step `n >= 1` of the walk: one `next_pos` after the first `n - 1`. */
  function WalkOn(grid: Grid, start: Pos, n: nat): Result<(Pos, Pos)>
    requires n >= 1
    decreases n, 0
  {
    var st :- Walk(grid, start, n - 1);
    var next :- NextPos(grid, st.0, st.1);
    Ok((next, st.0))
  }

  predicate NoEarlyReturn(grid: Grid, start: Pos, n: nat) {
    forall k :: 1 <= k < n ==> Walk(grid, start, k).Ok? && Walk(grid, start, k).value.0 != start
  }

  /** After `n >= 1` steps the walk is back at the start for the first time. */
  predicate LoopLength(grid: Grid, start: Pos, n: nat) {
    n >= 1 && Walk(grid, start, n).Ok? && Walk(grid, start, n).value.0 == start && NoEarlyReturn(grid, start, n)
  }

  lemma LoopLengthUnique(grid: Grid, start: Pos, n1: nat, n2: nat)
    requires LoopLength(grid, start, n1) && LoopLength(grid, start, n2)
    ensures n1 == n2
  {
    assert !(n1 < n2);
    assert !(n2 < n1);
  }

  /** Step `n >= 1` is the first step of the walk that panics, with `reason`. */
  predicate FailsAt(grid: Grid, start: Pos, n: nat, reason: string) {
    n >= 1 && NoEarlyReturn(grid, start, n) && Walk(grid, start, n) == Panic(reason)
  }

  /** The position lies off a `rows` by `cols` map. */
  predicate OffMap(p: Pos, rows: nat, cols: nat) {
    p.0 >= rows || p.1 >= cols
  }

  /** The marking walk stops with `reason` within `fuel` steps: a step
      panics, or the walk reaches a position off the boundary map before it
      is back at the start. */
  predicate WalkStops(grid: Grid, start: Pos, fuel: nat, rows: nat, cols: nat, reason: string) {
    (exists n: nat :: n <= fuel && FailsAt(grid, start, n, reason))
    || (exists n: nat :: n < fuel && NoEarlyReturn(grid, start, n) && Walk(grid, start, n).Ok?
          && (n == 0 || Walk(grid, start, n).value.0 != start)
          && OffMap(Walk(grid, start, n).value.0, rows, cols) && reason == IndexOutOfBounds)
  }

  /** The part-1 loop: step until back at 'S' after at least one step; the
      farthest point is half the loop. The puzzle loop has no bound; `fuel`
      caps the steps, and running out is reported as `None`. */
  method Part1(grid: Grid, fuel: nat) returns (r: Result<Option<nat>>, start: Pos, dist: nat)
    ensures r.Ok? ==> IsFirstStart(grid, start)
    ensures r.Ok? && r.value.Some? ==> LoopLength(grid, start, dist) && r.value.value == dist / 2
    ensures r == Ok(None) ==> NoEarlyReturn(grid, start, fuel + 1)
    ensures !HasStart(grid) ==> r == Panic(NoStart)
    ensures r.Panic? && HasStart(grid) ==> IsFirstStart(grid, start) && exists n: nat :: n <= fuel && FailsAt(grid, start, n, r.reason)
  {
    var found := FindStart(grid);
    if found.Panic? {
      return Panic(found.reason), (0, 0), 0;
    }
    start := found.value;
    var pos, prev := start, start;
    dist := 0;
    while pos != start || dist == 0
      invariant dist <= fuel
      invariant Walk(grid, start, dist) == Ok((pos, prev))
      invariant NoEarlyReturn(grid, start, dist)
      decreases fuel - dist
    {
      if dist == fuel {
        return Ok(None), start, dist;
      }
      var next := NextPos(grid, pos, prev);
      if next.Panic? {
        assert FailsAt(grid, start, dist + 1, next.reason);
        return Panic(next.reason), start, dist;
      }
      dist := dist + 1;
      prev := pos;
      pos := next.value;
    }
    r := Ok(Some(dist / 2));
  }

  // ---------------------------------------------------------------------
  // Crossings and enclosed cells
  // ---------------------------------------------------------------------

  /** A boundary cell whose pipe crosses a leftward ray. */
  predicate IsCrossing(grid: Grid, boundary: seq<seq<bool>>, i: nat, c: nat)
    requires i < |boundary| && c < |boundary[i]|
  {
    boundary[i][c] && InGrid(grid, i, c) && grid[i][c] in "|JLS"
  }

  /** What `trace_boundary_ray` computes: the crossings in row `i` from
      column `j` down to 0. The scan does not start when `(i, j)` lies
      outside the boundary map, whose width is that of its first row. */
  function RayCrossings(grid: Grid, boundary: seq<seq<bool>>, i: nat, j: int): (r: Result<nat>)
    ensures r.Panic? ==> r.reason == IndexOutOfBounds
    decreases j + 1
  {
    if j < 0 || i >= |boundary| || j >= |boundary[0]| then Ok(0)
    else if j >= |boundary[i]| then Panic(IndexOutOfBounds)
    else if boundary[i][j] && !InGrid(grid, i, j) then Panic(IndexOutOfBounds)
    else
      var rest :- RayCrossings(grid, boundary, i, j - 1);
      Ok((if IsCrossing(grid, boundary, i, j) then 1 else 0) + rest)
  }

  function Shift(r: Result<nat>, c: nat): Result<nat> {
    if r.Ok? then Ok(r.value + c) else r
  }

  /** `trace_boundary_ray`: walks left along the row with a counter. */
  method TraceBoundaryRay(grid: Grid, boundary: seq<seq<bool>>, pos: Pos) returns (r: Result<nat>)
    ensures r == RayCrossings(grid, boundary, pos.0, pos.1)
  {
    var i := pos.0;
    var j: int := pos.1;
    var crossings := 0;
    while j >= 0 && i < |boundary| && j < |boundary[0]|
      invariant j <= pos.1
      invariant RayCrossings(grid, boundary, i, pos.1) == Shift(RayCrossings(grid, boundary, i, j), crossings)
      decreases j + 1
    {
      if j >= |boundary[i]| {
        return Panic(IndexOutOfBounds);
      }
      if boundary[i][j] {
        if !InGrid(grid, i, j) {
          return Panic(IndexOutOfBounds);
        }
        if grid[i][j] in "|JLS" {
          crossings := crossings + 1;
        }
      }
      j := j - 1;
    }
    return Ok(crossings);
  }

  /** The boundary map is rectangular and marks only cells of the grid, as
      the walk that builds it guarantees. */
  predicate WellFormed(grid: Grid, boundary: seq<seq<bool>>) {
    Rectangular(boundary)
    && forall a, b :: 0 <= a < |boundary| && 0 <= b < |boundary[a]| && boundary[a][b] ==> InGrid(grid, a, b)
  }

  function CrossingSet(grid: Grid, boundary: seq<seq<bool>>, i: nat, j: int): set<nat>
    requires i < |boundary| && Rectangular(boundary) && j < |boundary[0]|
  {
    set c: nat | c <= j && IsCrossing(grid, boundary, i, c)
  }

  /** On a well-formed map the ray count is the number of crossing cells
      at or left of column `j`. */
  lemma {:induction false} RayCountsCrossings(grid: Grid, boundary: seq<seq<bool>>, i: nat, j: int)
    requires WellFormed(grid, boundary) && i < |boundary| && j < |boundary[0]|
    ensures RayCrossings(grid, boundary, i, j) == Ok(|CrossingSet(grid, boundary, i, j)|)
    decreases j + 1
  {
    if j < 0 {
      assert CrossingSet(grid, boundary, i, j) == {};
    } else {
      RayCountsCrossings(grid, boundary, i, j - 1);
      var before := CrossingSet(grid, boundary, i, j - 1);
      if IsCrossing(grid, boundary, i, j) {
        assert CrossingSet(grid, boundary, i, j) == before + {j};
      } else {
        assert CrossingSet(grid, boundary, i, j) == before;
      }
    }
  }

  /** One cell of `count_inside`: its ray is traced, then it counts when it
      is off the boundary with an odd number of crossings. */
  function CellInside(grid: Grid, boundary: seq<seq<bool>>, i: nat, j: nat): (r: Result<bool>)
    ensures r.Panic? ==> r.reason == IndexOutOfBounds
  {
    var crossings :- RayCrossings(grid, boundary, i, j);
    if i >= |boundary| || j >= |boundary[i]| then Panic(IndexOutOfBounds)
    else Ok(!boundary[i][j] && crossings % 2 == 1)
  }

  /** The cells of row `i` in columns below `n`, counted in order. */
  function RowInside(grid: Grid, boundary: seq<seq<bool>>, i: nat, n: nat): (r: Result<nat>)
    ensures r.Ok? ==> r.value <= n
  {
    if n == 0 then Ok(0)
    else
      var init :- RowInside(grid, boundary, i, n - 1);
      var last :- CellInside(grid, boundary, i, n - 1);
      Ok(init + (if last then 1 else 0))
  }

  /** Rows below `m`, each over `width` columns. */
  function RowsInside(grid: Grid, boundary: seq<seq<bool>>, m: nat, width: nat): (r: Result<nat>)
    ensures r.Ok? ==> r.value <= m * width
  {
    if m == 0 then Ok(0)
    else
      var init :- RowsInside(grid, boundary, m - 1, width);
      var row :- RowInside(grid, boundary, m - 1, width);
      Ok(init + row)
  }

  /** `count_inside`: every cell of the grid (the width is the first row's;
      an empty grid panics). */
  function CountInside(grid: Grid, boundary: seq<seq<bool>>): (r: Result<nat>)
    ensures r.Ok? ==> grid != [] && r.value <= |grid| * |grid[0]|
  {
    if grid == [] then Panic(IndexOutOfBounds)
    else RowsInside(grid, boundary, |grid|, |grid[0]|)
  }

  function InsideSet(grid: Grid, boundary: seq<seq<bool>>, i: nat, n: nat): set<nat> {
    set j: nat | j < n && CellInside(grid, boundary, i, j) == Ok(true)
  }

  /** A row's count is the number of its cells judged inside. */
  lemma {:induction false} RowCountsInside(grid: Grid, boundary: seq<seq<bool>>, i: nat, n: nat)
    requires RowInside(grid, boundary, i, n).Ok?
    ensures RowInside(grid, boundary, i, n) == Ok(|InsideSet(grid, boundary, i, n)|)
  {
    if n == 0 {
      assert InsideSet(grid, boundary, i, n) == {};
    } else {
      RowCountsInside(grid, boundary, i, n - 1);
      InsideSetNext(grid, boundary, i, n);
    }
  }

  /** The cells judged inside grow by the last cell exactly when it is. */
  lemma InsideSetNext(grid: Grid, boundary: seq<seq<bool>>, i: nat, n: nat)
    requires n > 0
    ensures |InsideSet(grid, boundary, i, n)|
      == |InsideSet(grid, boundary, i, n - 1)| + (if CellInside(grid, boundary, i, n - 1) == Ok(true) then 1 else 0)
  {
    var before := InsideSet(grid, boundary, i, n - 1);
    if CellInside(grid, boundary, i, n - 1) == Ok(true) {
      assert InsideSet(grid, boundary, i, n) == before + {n - 1};
      assert n - 1 !in before;
    } else {
      assert InsideSet(grid, boundary, i, n) == before;
    }
  }

  /** The positions the walk occupies before step `n`. */
  function Visited(grid: Grid, start: Pos, n: nat): set<Pos> {
    if n == 0 then {}
    else Visited(grid, start, n - 1) + (if Walk(grid, start, n - 1).Ok? then {Walk(grid, start, n - 1).value.0} else {})
  }

  /** Every position in `Visited` is one the walk occupied at some step. */
  lemma {:induction false} VisitedSound(grid: Grid, start: Pos, n: nat, p: Pos)
    requires p in Visited(grid, start, n)
    ensures exists k :: 0 <= k < n && Walk(grid, start, k).Ok? && Walk(grid, start, k).value.0 == p
  {
    var last := Walk(grid, start, n - 1);
    if last.Ok? && last.value.0 == p {
      assert Walk(grid, start, n - 1).Ok? && Walk(grid, start, n - 1).value.0 == p;
    } else {
      VisitedSound(grid, start, n - 1, p);
    }
  }

  /** Every position the walk occupies before step `n` is in `Visited`. */
  lemma {:induction false} VisitedComplete(grid: Grid, start: Pos, n: nat, k: nat)
    requires k < n && Walk(grid, start, k).Ok?
    ensures Walk(grid, start, k).value.0 in Visited(grid, start, n)
  {
    if k < n - 1 {
      VisitedComplete(grid, start, n - 1, k);
    }
  }

  /** The map marks exactly the positions in `cells`. */
  predicate Marks(boundary: seq<seq<bool>>, cells: set<Pos>) {
    forall a: nat, b: nat :: a < |boundary| && b < |boundary[a]| ==> (boundary[a][b] <==> (a, b) in cells)
  }

  /** `new_grid(rows, cols)`: all false. */
  function NewGrid(rows: nat, cols: nat): (g: seq<seq<bool>>)
    ensures |g| == rows && forall a :: 0 <= a < rows ==> |g[a]| == cols && forall b :: 0 <= b < cols ==> !g[a][b]
  {
    seq(rows, _ => seq(cols, _ => false))
  }

  /** The part-2 driver: the walk marks each position of the loop on a
      fresh boundary map, then the enclosed cells are counted. */
  method Part2(grid: Grid, fuel: nat) returns (r: Result<Option<nat>>, start: Pos, dist: nat, boundary: seq<seq<bool>>)
    ensures grid == [] ==> r == Panic(IndexOutOfBounds)
    ensures r.Ok? ==> IsFirstStart(grid, start)
    ensures r.Ok? && r.value.Some? ==> LoopLength(grid, start, dist)
    ensures r.Ok? && r.value.Some? ==> grid != [] && Shaped(boundary, |grid|, |grid[0]|)
    ensures r.Ok? && r.value.Some? ==> Marks(boundary, Visited(grid, start, dist))
    ensures r.Ok? && r.value.Some? ==> CountInside(grid, boundary) == Ok(r.value.value)
    ensures r == Ok(None) ==> NoEarlyReturn(grid, start, fuel + 1)
    ensures grid != [] && !HasStart(grid) ==> r == Panic(NoStart)
    ensures r.Panic? && grid != [] && HasStart(grid) ==> (IsFirstStart(grid, start) &&
      (WalkStops(grid, start, fuel, |grid|, |grid[0]|, r.reason) ||
       (LoopLength(grid, start, dist) && Marks(boundary, Visited(grid, start, dist)) && CountInside(grid, boundary) == Panic(r.reason))))
  {
    if grid == [] {
      return Panic(IndexOutOfBounds), (0, 0), 0, [];
    }
    boundary := NewGrid(|grid|, |grid[0]|);
    var found := FindStart(grid);
    if found.Panic? {
      return Panic(found.reason), (0, 0), 0, boundary;
    }
    start := found.value;
    var walked;
    walked, dist, boundary := MarkLoop(grid, start, boundary, |grid|, |grid[0]|, fuel);
    if walked.Panic? {
      return Panic(walked.reason), start, dist, boundary;
    }
    if walked.value.None? {
      return Ok(None), start, dist, boundary;
    }
    var area := CountInside(grid, boundary);
    if area.Panic? {
      return Panic(area.reason), start, dist, boundary;
    }
    r := Ok(Some(area.value));
  }

  predicate Shaped(boundary: seq<seq<bool>>, rows: nat, cols: nat) {
    |boundary| == rows && forall a :: 0 <= a < rows ==> |boundary[a]| == cols
  }

  /** The walk of part 2: each position is marked before stepping on. */
  method MarkLoop(grid: Grid, start: Pos, boundary0: seq<seq<bool>>, rows: nat, cols: nat, fuel: nat)
    returns (r: Result<Option<()>>, dist: nat, boundary: seq<seq<bool>>)
    requires Marks(boundary0, {}) && Shaped(boundary0, rows, cols)
    ensures Shaped(boundary, rows, cols)
    ensures r.Ok? && r.value.Some? ==> LoopLength(grid, start, dist)
    ensures r.Ok? && r.value.Some? ==> Marks(boundary, Visited(grid, start, dist))
    ensures r == Ok(None) ==> NoEarlyReturn(grid, start, fuel + 1)
    ensures r.Panic? ==> WalkStops(grid, start, fuel, rows, cols, r.reason)
  {
    boundary := boundary0;
    var pos, prev := start, start;
    dist := 0;
    while pos != start || dist == 0
      invariant dist <= fuel
      invariant Walk(grid, start, dist) == Ok((pos, prev))
      invariant NoEarlyReturn(grid, start, dist)
      invariant MarkedUpTo(grid, start, dist, boundary, rows, cols)
      decreases fuel - dist
    {
      if dist == fuel {
        return Ok(None), dist, boundary;
      }
      if pos.0 >= |boundary| || pos.1 >= |boundary[pos.0]| {
        assert OffMap(pos, rows, cols);
        return Panic(IndexOutOfBounds), dist, boundary;
      }
      var next := NextPos(grid, pos, prev);
      MarkStep(grid, start, dist, pos, prev, boundary, rows, cols);
      boundary := boundary[pos.0 := boundary[pos.0][pos.1 := true]];
      if next.Panic? {
        assert FailsAt(grid, start, dist + 1, next.reason);
        return Panic(next.reason), dist, boundary;
      }
      WalkStep(grid, start, dist, pos, prev);
      prev := pos;
      pos := next.value;
      dist := dist + 1;
    }
    r := Ok(Some(()));
  }

  /** The boundary map has the grid's shape and marks exactly the
      positions of the first `n` steps of the walk. */
  ghost predicate MarkedUpTo(grid: Grid, start: Pos, n: nat, boundary: seq<seq<bool>>, rows: nat, cols: nat) {
    Shaped(boundary, rows, cols) && Marks(boundary, Visited(grid, start, n))
  }

  /** One step of the walk extends it and keeps the start unvisited in
      between. */
  lemma WalkStep(grid: Grid, start: Pos, n: nat, pos: Pos, prev: Pos)
    requires Walk(grid, start, n) == Ok((pos, prev)) && NoEarlyReturn(grid, start, n)
    requires pos != start || n == 0
    requires NextPos(grid, pos, prev).Ok?
    ensures Walk(grid, start, n + 1) == Ok((NextPos(grid, pos, prev).value, pos))
    ensures NoEarlyReturn(grid, start, n + 1)
  {
  }

  /** Marking the current position extends the marked walk by one step
      (and keeps it marked even when the next step fails). */
  lemma MarkStep(grid: Grid, start: Pos, n: nat, pos: Pos, prev: Pos, boundary: seq<seq<bool>>, rows: nat, cols: nat)
    requires Walk(grid, start, n) == Ok((pos, prev))
    requires MarkedUpTo(grid, start, n, boundary, rows, cols)
    requires pos.0 < |boundary| && pos.1 < |boundary[pos.0]|
    ensures MarkedUpTo(grid, start, n + 1, boundary[pos.0 := boundary[pos.0][pos.1 := true]], rows, cols)
  {
    assert Visited(grid, start, n + 1) == Visited(grid, start, n) + {pos};
  }
}
