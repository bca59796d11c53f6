/** Day 23: the longest hike through the forest. Junctions (open tiles with
    more than two open neighbours) become the nodes of a graph, together with
    the start (the first `.` of the top row) and the end (the first `.` of the
    bottom row). From every node a stack-based search follows the trails,
    obeying the slopes, and records an edge to every other node it reaches
    without passing through one, weighted by the number of steps taken. A
    depth-first search over that graph then finds the heaviest route that
    visits no node twice. */
module Day23 {
  import opened Wrappers
  import opened Grids

  /** A position (row, column). */
  type Pos = (int, int)

  /** The graph: for each node, the nodes it leads to and the steps each takes. */
  type Graph = map<Pos, map<Pos, nat>>

  const UnexpectedChar := "Unexpected char. "

  /** `a` comes before `b` in a row-major scan. */
  predicate Before(a: Pos, b: Pos) {
    a.0 < b.0 || (a.0 == b.0 && a.1 < b.1)
  }

  lemma BeforeNext(p: Pos, i: int, j: int)
    ensures Before(p, (i, j + 1)) <==> Before(p, (i, j)) || p == (i, j)
  {
  }

  /** Inside the bounds the source tests: the number of rows and the length
      of the first row. */
  predicate InBounds(grid: Grid, p: Pos) {
    0 <= p.0 < |grid| && 0 <= p.1 < |grid[0]|
  }

  // ---------------------------------------------------------------- junctions

  /** The four neighbours of `p`, in the order `find_nodes` visits them:
      up, right, down, left. */
  function Around(p: Pos): seq<Pos> {
    [(p.0 - 1, p.1), (p.0, p.1 + 1), (p.0 + 1, p.1), (p.0, p.1 - 1)]
  }

  /** The neighbour test of `find_nodes`: row and column both strictly
      positive, inside the bounds, and not forest. Reading a row shorter than
      the first panics. */
  function Counts(grid: Grid, q: Pos): Result<bool> {
    if q.0 > 0 && q.1 > 0 && InBounds(grid, q) then
      if q.1 < |grid[q.0]| then Ok(grid[q.0][q.1] != '#') else Panic(IndexOutOfBounds)
    else Ok(false)
  }

  /** The count of the first `k` neighbours that pass the test. */
  function CountAround(grid: Grid, p: Pos, k: nat): Result<nat>
    requires k <= 4
  {
    if k == 0 then Ok(0)
    else
      var n :- CountAround(grid, p, k - 1);
      var b :- Counts(grid, Around(p)[k - 1]);
      Ok(if b then n + 1 else n)
  }

  /** Whether the tile at `p` is a junction, as `find_nodes` decides it. */
  function NodeAt(grid: Grid, p: Pos): Result<bool>
    requires InBounds(grid, p)
  {
    if p.1 >= |grid[p.0]| then Panic(IndexOutOfBounds)
    else if grid[p.0][p.1] == '#' then Ok(false)
    else
      var n :- CountAround(grid, p, 4);
      Ok(n > 2)
  }

  ghost predicate IsNode(grid: Grid, p: Pos) {
    InBounds(grid, p) && NodeAt(grid, p) == Ok(true)
  }

  /** A neighbour that passes the test of `find_nodes`. */
  ghost predicate Counted(grid: Grid, q: Pos) {
    q.0 > 0 && q.1 > 0 && InBounds(grid, q) && InGrid(grid, q.0, q.1) && grid[q.0][q.1] != '#'
  }

  /** The neighbours among the first `k` that pass the test. */
  ghost function CountedAround(grid: Grid, p: Pos, k: nat): set<Pos>
    requires k <= 4
  {
    set q | q in Around(p)[..k] && Counted(grid, q)
  }

  lemma {:induction false} CountAroundSet(grid: Grid, p: Pos, k: nat)
    requires k <= 4 && CountAround(grid, p, k).Ok?
    ensures CountAround(grid, p, k).value == |CountedAround(grid, p, k)|
  {
    if k > 0 {
      CountAroundSet(grid, p, k - 1);
      var q := Around(p)[k - 1];
      assert q !in Around(p)[..k - 1];
      var before := CountedAround(grid, p, k - 1);
      if Counted(grid, q) {
        assert CountedAround(grid, p, k) == before + {q};
      } else {
        assert CountedAround(grid, p, k) == before;
      }
    }
  }

  lemma {:induction false} CountAroundPanic(grid: Grid, p: Pos, k: nat)
    requires k <= 4 && CountAround(grid, p, k).Panic?
    ensures CountAround(grid, p, 4) == Panic(IndexOutOfBounds)
    ensures !Rectangular(grid)
    decreases 4 - k
  {
    if k < 4 {
      CountAroundPanic(grid, p, k + 1);
    } else {
      FirstPanic(grid, p, 4);
    }
  }

  lemma {:induction false} FirstPanic(grid: Grid, p: Pos, k: nat)
    requires k <= 4 && CountAround(grid, p, k).Panic?
    ensures CountAround(grid, p, k) == Panic(IndexOutOfBounds) && !Rectangular(grid)
  {
    if CountAround(grid, p, k - 1).Panic? {
      FirstPanic(grid, p, k - 1);
    } else {
      var q := Around(p)[k - 1];
      assert Counts(grid, q).Panic?;
      assert |grid[q.0]| != |grid[0]|;
    }
  }

  /** A junction, as `find_nodes` decides it: an open tile of which more than
      two neighbours with positive row and column are open. */
  lemma NodeAtMeaning(grid: Grid, p: Pos)
    requires InBounds(grid, p) && NodeAt(grid, p).Ok?
    ensures NodeAt(grid, p).value <==> InGrid(grid, p.0, p.1) && grid[p.0][p.1] != '#' && |CountedAround(grid, p, 4)| > 2
  {
    if p.1 < |grid[p.0]| && grid[p.0][p.1] != '#' {
      CountAroundSet(grid, p, 4);
    }
  }

  /** On a grid whose rows are all as long as the first, the test never
      panics; any panic means a short row. */
  lemma NodeAtPanic(grid: Grid, p: Pos)
    requires InBounds(grid, p)
    ensures NodeAt(grid, p).Panic? ==> NodeAt(grid, p).reason == IndexOutOfBounds && !Rectangular(grid)
  {
    if p.1 < |grid[p.0]| && grid[p.0][p.1] != '#' && CountAround(grid, p, 4).Panic? {
      FirstPanic(grid, p, 4);
    }
  }

  /** Because the test wants a strictly positive row and column, no tile of
      the top row or of the left column is ever a junction: such a tile has
      at most one neighbour that passes. */
  lemma NodeOffBorder(grid: Grid, p: Pos)
    requires IsNode(grid, p)
    ensures p.0 > 0 && p.1 > 0
  {
    assert CountAround(grid, p, 4).Ok? && CountAround(grid, p, 4).value > 2;
    CountAroundPositive(grid, p, 4);
    PositiveAroundBorder(p);
  }

  lemma PositiveAroundBorder(p: Pos)
    ensures p.0 <= 0 || p.1 <= 0 ==> PositiveAround(p, 4) <= 1
  {
    assert PositiveAround(p, 1) == 0 || p.0 > 1;
    assert PositiveAround(p, 3) <= PositiveAround(p, 2) + 1;
  }

  /** How many of the first `k` neighbours have a positive row and column. */
  function PositiveAround(p: Pos, k: nat): nat
    requires k <= 4
  {
    if k == 0 then 0
    else PositiveAround(p, k - 1) + (if Around(p)[k - 1].0 > 0 && Around(p)[k - 1].1 > 0 then 1 else 0)
  }

  lemma {:induction false} CountAroundPositive(grid: Grid, p: Pos, k: nat)
    requires k <= 4 && CountAround(grid, p, k).Ok?
    ensures CountAround(grid, p, k).value <= PositiveAround(p, k)
  {
    if k > 0 {
      CountAroundPositive(grid, p, k - 1);
    }
  }

  /** `find_nodes` for one tile: the inner loop counting the neighbours. */
  method CellIsNode(grid: Grid, p: Pos) returns (r: Result<bool>)
    requires InBounds(grid, p)
    ensures r == NodeAt(grid, p)
  {
    if p.1 >= |grid[p.0]| {
      return Panic(IndexOutOfBounds);
    }
    if grid[p.0][p.1] == '#' {
      return Ok(false);
    }
    var around := Around(p);
    var count := 0;
    for k := 0 to 4
      invariant CountAround(grid, p, k) == Ok(count)
    {
      var q := around[k];
      if q.0 > 0 && q.1 > 0 && q.0 < |grid| && q.1 < |grid[0]| {
        if q.1 >= |grid[q.0]| {
          CountAroundPanic(grid, p, k + 1);
          return Panic(IndexOutOfBounds);
        }
        if grid[q.0][q.1] != '#' {
          count := count + 1;
        }
      }
    }
    return Ok(count > 2);
  }

  /** One row of `find_nodes`: appends the junctions of row `i`. */
  method ScanRow(grid: Grid, i: int, nodes: seq<Pos>) returns (r: Result<seq<Pos>>)
    requires 0 <= i < |grid|
    requires forall p :: p in nodes <==> IsNode(grid, p) && p.0 < i
    requires forall a, b :: 0 <= a < b < |nodes| ==> Before(nodes[a], nodes[b])
    requires forall k :: 0 <= k < |nodes| ==> nodes[k].0 < i
    ensures r.Panic? ==> r.reason == IndexOutOfBounds && !Rectangular(grid)
    ensures r.Ok? ==> forall p :: p in r.value <==> IsNode(grid, p) && p.0 <= i
    ensures r.Ok? ==> forall a, b :: 0 <= a < b < |r.value| ==> Before(r.value[a], r.value[b])
    ensures r.Ok? ==> forall k :: 0 <= k < |r.value| ==> r.value[k].0 <= i
  {
    var found := nodes;
    for j := 0 to |grid[0]|
      invariant forall p :: p in found <==> IsNode(grid, p) && Before(p, (i, j))
      invariant forall a, b :: 0 <= a < b < |found| ==> Before(found[a], found[b])
      invariant forall k :: 0 <= k < |found| ==> Before(found[k], (i, j))
    {
      NodeAtPanic(grid, (i, j));
      var node :- CellIsNode(grid, (i, j));
      ghost var before := found;
      if node {
        found := found + [(i, j)];
      }
      forall p ensures p in found <==> IsNode(grid, p) && Before(p, (i, j + 1)) {
        assert p in found <==> p in before || (node && p == (i, j));
        BeforeNext(p, i, j);
      }
    }
    return Ok(found);
  }

  /** `find_nodes`: every junction, in row-major order. */
  method FindNodes(grid: Grid) returns (r: Result<seq<Pos>>)
    ensures Rectangular(grid) ==> r.Ok?
    ensures r.Panic? ==> r.reason == IndexOutOfBounds
    ensures r.Ok? ==> forall p :: p in r.value <==> IsNode(grid, p)
    ensures r.Ok? ==> forall a, b :: 0 <= a < b < |r.value| ==> Before(r.value[a], r.value[b])
  {
    var nodes: seq<Pos> := [];
    for i := 0 to |grid|
      invariant forall p :: p in nodes <==> IsNode(grid, p) && p.0 < i
      invariant forall a, b :: 0 <= a < b < |nodes| ==> Before(nodes[a], nodes[b])
      invariant forall k :: 0 <= k < |nodes| ==> nodes[k].0 < i
    {
      nodes :- ScanRow(grid, i, nodes);
    }
    r := Ok(nodes);
  }

  // ---------------------------------------------------------------- start and end

  /** The first `.` of a row. */
  function FirstDot(row: seq<char>): (r: Option<nat>)
    ensures r.Some? ==> r.value < |row| && row[r.value] == '.'
    ensures r.Some? ==> forall j :: 0 <= j < r.value ==> row[j] != '.'
    ensures r.None? ==> forall j :: 0 <= j < |row| ==> row[j] != '.'
  {
    if row == [] then None
    else if row[0] == '.' then Some(0)
    else match FirstDot(row[1..])
      case None => None
      case Some(j) => Some(j + 1)
  }

  /** The start (the first `.` of the top row) and the end (the first `.` of
      the bottom row). An empty grid panics on the index, a row without `.`
      on the unwrap. */
  function StartEnd(grid: Grid): (r: Result<(Pos, Pos)>)
    ensures grid == [] ==> r == Panic(IndexOutOfBounds)
    ensures r.Ok? ==> r.value.0.0 == 0 && r.value.1.0 == |grid| - 1
    ensures r.Ok? ==> InGrid(grid, r.value.0.0, r.value.0.1) && grid[0][r.value.0.1] == '.'
    ensures r.Ok? ==> InGrid(grid, r.value.1.0, r.value.1.1) && grid[|grid| - 1][r.value.1.1] == '.'
    ensures r.Ok? ==> forall j :: 0 <= j < r.value.0.1 ==> grid[0][j] != '.'
    ensures r.Ok? ==> forall j :: 0 <= j < r.value.1.1 ==> grid[r.value.1.0][j] != '.'
    ensures grid != [] && r.Panic? ==> r.reason == UnwrapNone
    ensures grid != [] && r.Panic? ==> ('.' !in grid[0] || '.' !in grid[|grid| - 1])
  {
    if grid == [] then Panic(IndexOutOfBounds)
    else
      var a :- Unwrap(FirstDot(grid[0]), UnwrapNone);
      var b :- Unwrap(FirstDot(grid[|grid| - 1]), UnwrapNone);
      Ok(((0, a), (|grid| - 1, b)))
  }

  // ---------------------------------------------------------------- slopes

  /** The directions a tile lets the hike leave by: a slope only downhill, a
      path all four ways; anything else panics. */
  function AvailDirs(c: char): Result<seq<(int, int)>> {
    match c
    case '^' => Ok([(-1, 0)])
    case '>' => Ok([(0, 1)])
    case 'v' => Ok([(1, 0)])
    case '<' => Ok([(0, -1)])
    case '.' => Ok([(-1, 0), (0, 1), (1, 0), (0, -1)])
    case _ => Panic(UnexpectedChar)
  }

  /** A tile the hike may stand on: a path or a slope. */
  predicate Walkable(c: char) {
    c == '.' || c == '^' || c == '>' || c == 'v' || c == '<'
  }

  /** Whether a tile lets the hike leave by the step (di, dj): a path by
      any of the four unit steps, a slope only in the direction of its
      arrow. */
  predicate Allows(c: char, di: int, dj: int) {
    || (c == '.' && ((di == 0 && (dj == 1 || dj == -1)) || (dj == 0 && (di == 1 || di == -1))))
    || (c == '^' && di == -1 && dj == 0)
    || (c == '>' && di == 0 && dj == 1)
    || (c == 'v' && di == 1 && dj == 0)
    || (c == '<' && di == 0 && dj == -1)
  }

  /** `avail_dirs` panics exactly on a tile that is neither path nor slope;
      otherwise it lists, once each, exactly the steps the tile allows. */
  lemma AvailDirsAllows(c: char)
    ensures AvailDirs(c).Panic? <==> !Walkable(c)
    ensures AvailDirs(c).Panic? ==> AvailDirs(c).reason == UnexpectedChar
    ensures AvailDirs(c).Ok? ==> forall d :: d in AvailDirs(c).value <==> Allows(c, d.0, d.1)
    ensures AvailDirs(c).Ok? ==> forall i, j :: 0 <= i < j < |AvailDirs(c).value| ==> AvailDirs(c).value[i] != AvailDirs(c).value[j]
  {
    if AvailDirs(c).Ok? {
      var dirs := AvailDirs(c).value;
      forall d ensures d in dirs <==> Allows(c, d.0, d.1) {
        if Allows(c, d.0, d.1) {
          assert d == (d.0, d.1);
        }
      }
    }
  }

  // ---------------------------------------------------------------- trails

  /** A stack entry: the steps taken so far and the tile reached. */
  type Entry = (nat, Pos)

  /** The positions inside the bounds. */
  function Cells(grid: Grid): set<Pos>
    requires |grid| > 0
  {
    set i, j | 0 <= i < |grid| && 0 <= j < |grid[0]| :: (i, j)
  }

  lemma InCells(grid: Grid, q: Pos)
    requires InBounds(grid, q)
    ensures q in Cells(grid)
  {
    assert q == (q.0, q.1);
  }

  /** Every tile of the tree lies inside the bounds, or is `s`. */
  lemma TreeInCells(grid: Grid, nodes: seq<Pos>, s: Pos, dist: map<Pos, nat>, parent: map<Pos, Pos>)
    requires |grid| > 0 && Tree(grid, nodes, s, dist, parent)
    ensures dist.Keys <= Cells(grid) + {s}
  {
    forall x | x in dist && x != s ensures x in Cells(grid) {
      assert Step(grid, parent[x], x);
      InCells(grid, x);
    }
  }

  /** One step of the hike: from `p`, in a direction its tile allows, to a
      tile inside the bounds that is not forest. */
  ghost predicate Step(grid: Grid, p: Pos, q: Pos) {
    InGrid(grid, p.0, p.1) && Allows(grid[p.0][p.1], q.0 - p.0, q.1 - p.1) && Open(grid, q)
  }

  /** A tile inside the bounds that is not forest. */
  predicate Open(grid: Grid, q: Pos) {
    InBounds(grid, q) && InGrid(grid, q.0, q.1) && grid[q.0][q.1] != '#'
  }

  /** The search from `s` carries on past `p`: `p` is `s` itself or not a
      node. */
  predicate PassThrough(nodes: seq<Pos>, s: Pos, p: Pos) {
    p == s || p !in nodes
  }

  /** A walk from `s` whose every step is allowed and which passes through no
      node on the way (its last tile may be one). */
  ghost predicate NodeFreeWalk(grid: Grid, nodes: seq<Pos>, s: Pos, w: seq<Pos>) {
    && |w| > 0 && w[0] == s
    && (forall i :: 0 <= i < |w| - 1 ==> Step(grid, w[i], w[i + 1]))
    && (forall i :: 0 < i < |w| - 1 ==> PassThrough(nodes, s, w[i]))
  }

  /** The tiles seen from `s`, each hanging from a parent one step nearer to
      `s` that the search carries on past; `dist` is the entry's step count. */
  ghost predicate Tree(grid: Grid, nodes: seq<Pos>, s: Pos, dist: map<Pos, nat>, parent: map<Pos, Pos>) {
    && s in dist && dist[s] == 0
    && (forall p :: p in dist ==> InGrid(grid, p.0, p.1))
    && (forall p {:trigger parent[p]} {:trigger p in parent} :: p in dist && p != s ==>
          && p in parent && parent[p] in dist && dist[p] == dist[parent[p]] + 1
          && Step(grid, parent[p], p) && PassThrough(nodes, s, parent[p]))
  }

  /** Every tile of `done` that the search carries on past has all its
      allowed steps seen. */
  ghost predicate Closed(grid: Grid, nodes: seq<Pos>, s: Pos, dist: map<Pos, nat>, done: set<Pos>) {
    forall p :: p in done && PassThrough(nodes, s, p) ==>
      && InGrid(grid, p.0, p.1) && Walkable(grid[p.0][p.1])
      && forall q :: Step(grid, p, q) ==> q in dist
  }

  /** The state of a finished search from `s`. */
  ghost predicate Explored(grid: Grid, nodes: seq<Pos>, s: Pos, dist: map<Pos, nat>, parent: map<Pos, Pos>) {
    Tree(grid, nodes, s, dist, parent) && Closed(grid, nodes, s, dist, dist.Keys)
  }

  /** The edges out of `s`: every node other than `s` that the search has
      seen, with its step count. */
  ghost function EdgesOf(nodes: seq<Pos>, s: Pos, dist: map<Pos, nat>): map<Pos, nat> {
    map t | t in dist && t in nodes && t != s :: dist[t]
  }

  /** The search from `s` has seen a tile it would carry on past whose
      character is none of the five the hike knows. */
  ghost predicate BadIn(grid: Grid, nodes: seq<Pos>, s: Pos, dist: map<Pos, nat>) {
    exists p :: p in dist && PassThrough(nodes, s, p) && InGrid(grid, p.0, p.1) && AvailDirs(grid[p.0][p.1]).Panic?
  }

  /** Some tile reachable from `s` by allowed steps through no other node
      carries an unknown character. */
  ghost predicate ReachesBadTile(grid: Grid, nodes: seq<Pos>, s: Pos) {
    exists dist: map<Pos, nat>, parent: map<Pos, Pos> {:trigger Tree(grid, nodes, s, dist, parent)} ::
      Tree(grid, nodes, s, dist, parent) && BadIn(grid, nodes, s, dist)
  }

  ghost function Positions(stack: seq<Entry>): set<Pos> {
    set k | 0 <= k < |stack| :: stack[k].1
  }

  /** The invariant of the search from `s`: the tree, the closure of the
      tiles handled, and a stack of distinct entries not yet handled, each
      carrying its tile's step count. */
  ghost predicate Searching(grid: Grid, nodes: seq<Pos>, s: Pos, stack: seq<Entry>, seen: set<Pos>,
                            dist: map<Pos, nat>, parent: map<Pos, Pos>, done: set<Pos>) {
    && |grid| > 0 && seen == dist.Keys && done <= seen
    && Tree(grid, nodes, s, dist, parent) && Closed(grid, nodes, s, dist, done) && Pending(stack, dist, done)
  }

  /** The stack holds distinct tiles not yet handled, each with its step
      count. */
  ghost predicate Pending(stack: seq<Entry>, dist: map<Pos, nat>, done: set<Pos>) {
    && (forall k :: 0 <= k < |stack| ==> stack[k].1 in dist && stack[k].0 == dist[stack[k].1] && stack[k].1 !in done)
    && (forall k1, k2 :: 0 <= k1 < k2 < |stack| ==> stack[k1].1 != stack[k2].1)
  }

  /** The edges found so far: the nodes other than `s` among the tiles
      handled. */
  ghost predicate Recorded(nodes: seq<Pos>, s: Pos, edges: map<Pos, nat>, dist: map<Pos, nat>, done: set<Pos>) {
    && (forall t :: t in edges <==> t in done && t in nodes && t != s)
    && (forall t :: t in edges ==> t in dist && edges[t] == dist[t])
  }

  /** `dist2` keeps every step count of `dist1`. */
  ghost predicate Extends(dist1: map<Pos, nat>, dist2: map<Pos, nat>) {
    forall p :: p in dist1 ==> p in dist2 && dist2[p] == dist1[p]
  }

  lemma PositionsPush(stack: seq<Entry>, e: Entry)
    ensures Positions(stack + [e]) == Positions(stack) + {e.1}
  {
    var after := stack + [e];
    forall x | x in Positions(after) ensures x in Positions(stack) + {e.1} {
      var k :| 0 <= k < |after| && after[k].1 == x;
      if k < |stack| {
        assert stack[k].1 == x;
      }
    }
    forall x | x in Positions(stack) ensures x in Positions(after) {
      var k :| 0 <= k < |stack| && stack[k].1 == x;
      assert after[k].1 == x;
    }
    assert after[|stack|].1 == e.1;
  }

  /** Pushing an allowed, unseen neighbour `q` of a tile `p` that the search
      carries on past keeps the search invariant, and the measure of the
      search goes down. */
  lemma SearchingPush(grid: Grid, nodes: seq<Pos>, s: Pos, stack: seq<Entry>, seen: set<Pos>,
                      dist: map<Pos, nat>, parent: map<Pos, Pos>, done: set<Pos>, p: Pos, n: nat, q: Pos)
    requires Searching(grid, nodes, s, stack, seen, dist, parent, done)
    requires seen == done + Positions(stack) + {p} && p !in Positions(stack)
    requires p in dist && dist[p] == n && PassThrough(nodes, s, p) && Step(grid, p, q) && q !in seen
    ensures Searching(grid, nodes, s, stack + [(n + 1, q)], seen + {q}, dist[q := n + 1], parent[q := p], done)
    ensures Extends(dist, dist[q := n + 1])
    ensures seen + {q} == done + Positions(stack + [(n + 1, q)]) + {p} && p !in Positions(stack + [(n + 1, q)])
    ensures |seen + {q}| == |seen| + 1
  {
    TreePush(grid, nodes, s, dist, parent, p, n, q);
    ClosedGrow(grid, nodes, s, dist, dist[q := n + 1], done);
    PendingPush(stack, dist, done, n, q);
    PositionsPush(stack, (n + 1, q));
  }

  lemma TreePush(grid: Grid, nodes: seq<Pos>, s: Pos, dist: map<Pos, nat>, parent: map<Pos, Pos>, p: Pos, n: nat, q: Pos)
    requires Tree(grid, nodes, s, dist, parent)
    requires p in dist && dist[p] == n && PassThrough(nodes, s, p) && Step(grid, p, q) && q !in dist
    ensures Tree(grid, nodes, s, dist[q := n + 1], parent[q := p])
  {
    var dist', parent' := dist[q := n + 1], parent[q := p];
    forall x | x in dist' && x != s
      ensures x in parent' && parent'[x] in dist' && dist'[x] == dist'[parent'[x]] + 1
      ensures Step(grid, parent'[x], x) && PassThrough(nodes, s, parent'[x])
    {
      if x != q {
        assert x in dist && parent[x] in dist;
      }
    }
  }

  lemma ClosedGrow(grid: Grid, nodes: seq<Pos>, s: Pos, dist: map<Pos, nat>, dist': map<Pos, nat>, done: set<Pos>)
    requires Closed(grid, nodes, s, dist, done) && dist.Keys <= dist'.Keys
    ensures Closed(grid, nodes, s, dist', done)
  {
  }

  lemma PendingPush(stack: seq<Entry>, dist: map<Pos, nat>, done: set<Pos>, n: nat, q: Pos)
    requires Pending(stack, dist, done) && q !in dist && q !in done
    ensures Pending(stack + [(n + 1, q)], dist[q := n + 1], done)
  {
    var stack', dist' := stack + [(n + 1, q)], dist[q := n + 1];
    forall k | 0 <= k < |stack'|
      ensures stack'[k].1 in dist' && stack'[k].0 == dist'[stack'[k].1] && stack'[k].1 !in done
    {
      if k < |stack| {
        assert stack'[k] == stack[k] && stack[k].1 in dist;
      }
    }
    forall k1, k2 | 0 <= k1 < k2 < |stack'| ensures stack'[k1].1 != stack'[k2].1 {
      assert stack'[k1] == stack[k1] && stack[k1].1 in dist;
    }
  }

  /** The tile one step from `p` in direction `d`. */
  function Toward(p: Pos, d: (int, int)): Pos {
    (p.0 + d.0, p.1 + d.1)
  }

  /** Every allowed step goes in one of the tile's directions. */
  lemma StepDir(grid: Grid, p: Pos, q: Pos, dirs: seq<(int, int)>) returns (j: nat)
    requires Step(grid, p, q) && AvailDirs(grid[p.0][p.1]) == Ok(dirs)
    ensures j < |dirs| && q == Toward(p, dirs[j])
  {
    AvailDirsAllows(grid[p.0][p.1]);
    assert (q.0 - p.0, q.1 - p.1) in dirs;
    j :| 0 <= j < |dirs| && dirs[j] == (q.0 - p.0, q.1 - p.1);
  }

  /** A step the tile allows, to an open tile, is a step of the walk. */
  lemma TowardStep(grid: Grid, p: Pos, d: (int, int))
    requires InGrid(grid, p.0, p.1) && Allows(grid[p.0][p.1], d.0, d.1)
    ensures Open(grid, Toward(p, d)) <==> Step(grid, p, Toward(p, d))
  {
    var q := Toward(p, d);
    assert q.0 - p.0 == d.0 && q.1 - p.1 == d.1;
  }

  /** The neighbour of `p` in direction `d` is pushed, one step further than
      `p`, exactly when it is an open tile not yet seen. */
  method Offer(grid: Grid, p: Pos, n: nat, d: (int, int), stack: seq<Entry>, seen: set<Pos>)
    returns (r: Result<()>, stack': seq<Entry>, seen': set<Pos>)
    ensures r.Panic? ==> r.reason == IndexOutOfBounds && !Rectangular(grid)
    ensures r.Ok? && Open(grid, Toward(p, d)) && Toward(p, d) !in seen ==>
      stack' == stack + [(n + 1, Toward(p, d))] && seen' == seen + {Toward(p, d)}
    ensures r.Ok? && !(Open(grid, Toward(p, d)) && Toward(p, d) !in seen) ==> stack' == stack && seen' == seen
  {
    stack', seen' := stack, seen;
    var q := Toward(p, d);
    if q.0 >= 0 && q.1 >= 0 && q.0 < |grid| && q.1 < |grid[0]| {
      if q.1 >= |grid[q.0]| {
        return Panic(IndexOutOfBounds), stack', seen';
      }
      if grid[q.0][q.1] != '#' && q !in seen {
        stack' := stack + [(n + 1, q)];
        seen' := seen + {q};
      }
    }
    r := Ok(());
  }

  /** Once every allowed step of `p` is seen, `p` joins the tiles handled. */
  lemma SearchingDone(grid: Grid, nodes: seq<Pos>, s: Pos, stack: seq<Entry>, seen: set<Pos>,
                      dist: map<Pos, nat>, parent: map<Pos, Pos>, done: set<Pos>, p: Pos)
    requires Searching(grid, nodes, s, stack, seen, dist, parent, done)
    requires p in dist && p !in Positions(stack)
    requires InGrid(grid, p.0, p.1) && Walkable(grid[p.0][p.1])
    requires forall q :: Step(grid, p, q) ==> q in dist
    ensures Searching(grid, nodes, s, stack, seen, dist, parent, done + {p})
  {
    forall k | 0 <= k < |stack| ensures stack[k].1 != p {
      assert stack[k].1 in Positions(stack);
    }
  }

  /** One direction of `Expand`: offers the neighbour in direction
      `dirs[k]` and records it in the search tree when it is pushed. */
  method ExpandAt(grid: Grid, nodes: seq<Pos>, s: Pos, p: Pos, n: nat, d: (int, int), stack: seq<Entry>, seen: set<Pos>,
                  ghost dist: map<Pos, nat>, ghost parent: map<Pos, Pos>, ghost done: set<Pos>)
    returns (r: Result<()>, stack': seq<Entry>, seen': set<Pos>, ghost dist': map<Pos, nat>, ghost parent': map<Pos, Pos>)
    requires Searching(grid, nodes, s, stack, seen, dist, parent, done)
    requires seen == done + Positions(stack) + {p} && p !in Positions(stack)
    requires p in dist && dist[p] == n && PassThrough(nodes, s, p)
    requires InGrid(grid, p.0, p.1) && Allows(grid[p.0][p.1], d.0, d.1)
    ensures r.Panic? ==> r.reason == IndexOutOfBounds && !Rectangular(grid)
    ensures r.Ok? ==> Searching(grid, nodes, s, stack', seen', dist', parent', done) && Extends(dist, dist')
    ensures r.Ok? ==> seen' == done + Positions(stack') + {p} && p !in Positions(stack')
    ensures r.Ok? && Open(grid, Toward(p, d)) ==> Toward(p, d) in seen'
    ensures r.Ok? ==> seen <= seen' && |stack'| - |stack| == |seen'| - |seen|
  {
    dist', parent' := dist, parent;
    var q := Toward(p, d);
    r, stack', seen' := Offer(grid, p, n, d, stack, seen);
    if r.Ok? && Open(grid, q) && q !in seen {
      TowardStep(grid, p, d);
      SearchingPush(grid, nodes, s, stack, seen, dist, parent, done, p, n, q);
      dist', parent' := dist[q := n + 1], parent[q := p];
    }
  }

  /** The open neighbours in the first `k + 1` directions are seen. */
  lemma SeenThrough(grid: Grid, p: Pos, dirs: seq<(int, int)>, k: nat, seen: set<Pos>, seen': set<Pos>)
    requires k < |dirs| && seen <= seen'
    requires forall j :: 0 <= j < k && Open(grid, Toward(p, dirs[j])) ==> Toward(p, dirs[j]) in seen
    requires Open(grid, Toward(p, dirs[k])) ==> Toward(p, dirs[k]) in seen'
    ensures forall j :: 0 <= j < k + 1 && Open(grid, Toward(p, dirs[j])) ==> Toward(p, dirs[j]) in seen'
  {
  }

  /** Pushes every allowed, open, unseen neighbour of `p`, in the order of
      the directions. */
  method Expand(grid: Grid, nodes: seq<Pos>, s: Pos, p: Pos, n: nat, dirs: seq<(int, int)>, stack: seq<Entry>, seen: set<Pos>,
                ghost dist: map<Pos, nat>, ghost parent: map<Pos, Pos>, ghost done: set<Pos>)
    returns (r: Result<()>, stack': seq<Entry>, seen': set<Pos>, ghost dist': map<Pos, nat>, ghost parent': map<Pos, Pos>)
    requires Searching(grid, nodes, s, stack, seen, dist, parent, done)
    requires seen == done + Positions(stack) + {p} && p !in done && p !in Positions(stack)
    requires p in dist && dist[p] == n && PassThrough(nodes, s, p)
    requires InGrid(grid, p.0, p.1) && AvailDirs(grid[p.0][p.1]) == Ok(dirs)
    ensures r.Panic? ==> r.reason == IndexOutOfBounds && !Rectangular(grid)
    ensures r.Ok? ==> Searching(grid, nodes, s, stack', seen', dist', parent', done + {p})
    ensures r.Ok? ==> seen' == done + {p} + Positions(stack') && Extends(dist, dist')
    ensures r.Ok? ==> seen <= seen' && |stack'| - |stack| == |seen'| - |seen|
  {
    stack', seen', dist', parent' := stack, seen, dist, parent;
    AvailDirsAllows(grid[p.0][p.1]);
    assert forall k :: 0 <= k < |dirs| ==> Allows(grid[p.0][p.1], dirs[k].0, dirs[k].1);
    for k := 0 to |dirs|
      invariant Searching(grid, nodes, s, stack', seen', dist', parent', done) && Extends(dist, dist')
      invariant seen' == done + Positions(stack') + {p} && p !in Positions(stack')
      invariant forall j :: 0 <= j < k && Open(grid, Toward(p, dirs[j])) ==> Toward(p, dirs[j]) in seen'
      invariant seen <= seen' && |stack'| - |stack| == |seen'| - |seen|
    {
      ghost var before := seen';
      r, stack', seen', dist', parent' := ExpandAt(grid, nodes, s, p, n, dirs[k], stack', seen', dist', parent', done);
      if r.Panic? {
        return;
      }
      SeenThrough(grid, p, dirs, k, before, seen');
    }
    forall q | Step(grid, p, q) ensures q in dist' {
      var j := StepDir(grid, p, q, dirs);
    }
    SearchingDone(grid, nodes, s, stack', seen', dist', parent', done, p);
    Regroup(done, Positions(stack'), {p});
    r := Ok(());
  }

  lemma Regroup(a: set<Pos>, b: set<Pos>, c: set<Pos>)
    ensures a + b + c == a + c + b
  {
  }

  /** The search starts from `s` alone. */
  lemma SearchingStart(grid: Grid, nodes: seq<Pos>, s: Pos)
    requires InGrid(grid, s.0, s.1)
    ensures Searching(grid, nodes, s, [(0, s)], {s}, map[s := 0], map[], {})
    ensures Positions([(0, s)]) == {s}
  {
    PositionsPush([], (0, s));
  }

  /** Taking the last entry off the stack: its tile is not handled yet, has
      its step count, and appears nowhere else on the stack. */
  lemma PendingPop(stack: seq<Entry>, e: Entry, dist: map<Pos, nat>, done: set<Pos>)
    requires Pending(stack + [e], dist, done)
    ensures Pending(stack, dist, done + {e.1})
    ensures e.1 in dist && e.0 == dist[e.1] && e.1 !in done && e.1 !in Positions(stack)
    ensures Positions(stack + [e]) == Positions(stack) + {e.1}
  {
    var full := stack + [e];
    assert full[|stack|] == e;
    forall k | 0 <= k < |stack|
      ensures stack[k].1 in dist && stack[k].0 == dist[stack[k].1] && stack[k].1 !in done + {e.1}
    {
      assert full[k] == stack[k];
    }
    forall k1, k2 | 0 <= k1 < k2 < |stack| ensures stack[k1].1 != stack[k2].1 {
      assert full[k1] == stack[k1] && full[k2] == stack[k2];
    }
    PositionsPush(stack, e);
  }

  /** Only `s` is at step count 0. */
  lemma ZeroIsStart(grid: Grid, nodes: seq<Pos>, s: Pos, dist: map<Pos, nat>, parent: map<Pos, Pos>, p: Pos)
    requires Tree(grid, nodes, s, dist, parent) && p in dist
    ensures dist[p] == 0 ==> p == s
  {
    if p != s {
      assert dist[p] == dist[parent[p]] + 1;
    }
  }

  /** A node the search stops at needs no closing. */
  lemma ClosedSkip(grid: Grid, nodes: seq<Pos>, s: Pos, dist: map<Pos, nat>, done: set<Pos>, p: Pos)
    requires Closed(grid, nodes, s, dist, done) && !PassThrough(nodes, s, p)
    ensures Closed(grid, nodes, s, dist, done + {p})
  {
  }

  /** Handling a node other than `s` records its edge. */
  lemma RecordedEdge(nodes: seq<Pos>, s: Pos, edges: map<Pos, nat>, dist: map<Pos, nat>, done: set<Pos>, p: Pos)
    requires Recorded(nodes, s, edges, dist, done) && p in dist && p in nodes && p != s
    ensures Recorded(nodes, s, edges[p := dist[p]], dist, done + {p})
  {
  }

  /** Handling a tile the search carries on past records nothing, and the
      step counts recorded survive the growth of the tree. */
  lemma RecordedGrow(nodes: seq<Pos>, s: Pos, edges: map<Pos, nat>, dist: map<Pos, nat>, dist': map<Pos, nat>, done: set<Pos>, p: Pos)
    requires Recorded(nodes, s, edges, dist, done) && Extends(dist, dist') && PassThrough(nodes, s, p)
    ensures Recorded(nodes, s, edges, dist', done + {p})
  {
  }

  /** With the stack empty every tile seen is handled: the tree is closed and
      the edges are those of the whole tree. */
  lemma SearchingEnd(grid: Grid, nodes: seq<Pos>, s: Pos, seen: set<Pos>, dist: map<Pos, nat>, parent: map<Pos, Pos>,
                     done: set<Pos>, edges: map<Pos, nat>)
    requires Searching(grid, nodes, s, [], seen, dist, parent, done) && Recorded(nodes, s, edges, dist, done)
    requires seen == done + Positions([])
    ensures Explored(grid, nodes, s, dist, parent) && edges == EdgesOf(nodes, s, dist)
  {
    assert done == dist.Keys;
  }

  /** Growing `seen` inside `universe` leaves less of it to see. */
  lemma Shrinks(universe: set<Pos>, seen: set<Pos>, seen': set<Pos>)
    requires seen <= seen' <= universe && seen' != seen
    ensures |universe - seen'| < |universe - seen|
  {
    assert universe - seen == (universe - seen') + (seen' - seen);
    assert seen' - seen != {};
  }

  /** Taking a node other than `s` off the stack records its edge and
      handles it. */
  lemma PopNode(grid: Grid, nodes: seq<Pos>, s: Pos, stack: seq<Entry>, e: Entry, seen: set<Pos>, edges: map<Pos, nat>,
                dist: map<Pos, nat>, parent: map<Pos, Pos>, done: set<Pos>)
    requires Searching(grid, nodes, s, stack + [e], seen, dist, parent, done) && Recorded(nodes, s, edges, dist, done)
    requires seen == done + Positions(stack + [e]) && e.0 != 0 && e.1 in nodes
    ensures Searching(grid, nodes, s, stack, seen, dist, parent, done + {e.1})
    ensures Recorded(nodes, s, edges[e.1 := e.0], dist, done + {e.1}) && seen == done + {e.1} + Positions(stack)
  {
    PendingPop(stack, e, dist, done);
    ClosedSkip(grid, nodes, s, dist, done, e.1);
    RecordedEdge(nodes, s, edges, dist, done, e.1);
  }

  /** Taking any other tile off the stack leaves it to be walked past. */
  lemma PopTile(grid: Grid, nodes: seq<Pos>, s: Pos, stack: seq<Entry>, e: Entry, seen: set<Pos>, edges: map<Pos, nat>,
                dist: map<Pos, nat>, parent: map<Pos, Pos>, done: set<Pos>)
    requires Searching(grid, nodes, s, stack + [e], seen, dist, parent, done) && Recorded(nodes, s, edges, dist, done)
    requires seen == done + Positions(stack + [e]) && !(e.0 != 0 && e.1 in nodes)
    ensures Searching(grid, nodes, s, stack, seen, dist, parent, done)
    ensures seen == done + Positions(stack) + {e.1} && e.1 !in done && e.1 !in Positions(stack)
    ensures e.1 in dist && dist[e.1] == e.0 && PassThrough(nodes, s, e.1)
  {
    PendingPop(stack, e, dist, done);
    ZeroIsStart(grid, nodes, s, dist, parent, e.1);
  }

  /** A tile the search carries on past, just taken off the stack, pushes its
      allowed neighbours; an unknown tile is an error. */
  method VisitTile(grid: Grid, nodes: seq<Pos>, s: Pos, p: Pos, n: nat, stack: seq<Entry>, seen: set<Pos>, ghost edges: map<Pos, nat>,
                   ghost dist: map<Pos, nat>, ghost parent: map<Pos, Pos>, ghost done: set<Pos>)
    returns (r: Result<()>, stack': seq<Entry>, seen': set<Pos>, ghost dist': map<Pos, nat>, ghost parent': map<Pos, Pos>)
    requires Searching(grid, nodes, s, stack, seen, dist, parent, done) && Recorded(nodes, s, edges, dist, done)
    requires seen == done + Positions(stack) + {p} && p !in done && p !in Positions(stack)
    requires p in dist && dist[p] == n && PassThrough(nodes, s, p)
    ensures r.Panic? ==> r.reason == UnexpectedChar || (r.reason == IndexOutOfBounds && !Rectangular(grid))
    ensures r.Panic? && r.reason == UnexpectedChar ==> AvailDirs(grid[p.0][p.1]).Panic? && dist' == dist && parent' == parent
    ensures AvailDirs(grid[p.0][p.1]).Ok? && Rectangular(grid) ==> r.Ok?
    ensures r.Ok? ==> Searching(grid, nodes, s, stack', seen', dist', parent', done + {p})
    ensures r.Ok? ==> Recorded(nodes, s, edges, dist', done + {p}) && seen' == done + {p} + Positions(stack')
    ensures r.Ok? ==> seen <= seen' && |stack'| - |stack| == |seen'| - |seen|
  {
    stack', seen', dist', parent' := stack, seen, dist, parent;
    var dirs :- AvailDirs(grid[p.0][p.1]);
    r, stack', seen', dist', parent' := Expand(grid, nodes, s, p, n, dirs, stack, seen, dist, parent, done);
    if r.Ok? {
      RecordedGrow(nodes, s, edges, dist, dist', done, p);
    }
  }

  /** Takes the entry on top of the stack: a node other than `s` becomes an
      edge weighted by its step count and is not walked past; any other tile
      pushes its allowed neighbours. */
  method Visit(grid: Grid, nodes: seq<Pos>, s: Pos, stack: seq<Entry>, seen: set<Pos>, edges: map<Pos, nat>,
               ghost dist: map<Pos, nat>, ghost parent: map<Pos, Pos>, ghost done: set<Pos>)
    returns (r: Result<()>, stack': seq<Entry>, seen': set<Pos>, edges': map<Pos, nat>,
             ghost dist': map<Pos, nat>, ghost parent': map<Pos, Pos>, ghost done': set<Pos>)
    requires stack != []
    requires Searching(grid, nodes, s, stack, seen, dist, parent, done)
    requires Recorded(nodes, s, edges, dist, done) && seen == done + Positions(stack)
    ensures r.Panic? ==> r.reason == UnexpectedChar || (r.reason == IndexOutOfBounds && !Rectangular(grid))
    ensures r.Panic? && r.reason == UnexpectedChar ==> BadIn(grid, nodes, s, dist) && dist' == dist && parent' == parent
    ensures r.Ok? ==> Searching(grid, nodes, s, stack', seen', dist', parent', done')
    ensures r.Ok? ==> Recorded(nodes, s, edges', dist', done') && seen' == done' + Positions(stack')
    ensures r.Ok? ==> seen <= seen' && (seen' == seen ==> |stack'| < |stack|)
  {
    var e := stack[|stack| - 1];
    var rest := stack[..|stack| - 1];
    var n, p := e.0, e.1;
    assert stack == rest + [e];
    if n != 0 && p in nodes {
      PopNode(grid, nodes, s, rest, e, seen, edges, dist, parent, done);
      r, stack', seen', edges', dist', parent', done' := Ok(()), rest, seen, edges[p := n], dist, parent, done + {p};
    } else {
      PopTile(grid, nodes, s, rest, e, seen, edges, dist, parent, done);
      r, stack', seen', dist', parent' := VisitTile(grid, nodes, s, p, n, rest, seen, edges, dist, parent, done);
      edges', done' := edges, done + {p};
      if r.Panic? && r.reason == UnexpectedChar {
        assert InGrid(grid, p.0, p.1);
      }
    }
  }

  /** The search from one node `s`: a stack (last in, first out) of entries
      and the set of tiles ever pushed, visited until the stack is empty. */
  method Explore(grid: Grid, nodes: seq<Pos>, s: Pos) returns (r: Result<map<Pos, nat>>, ghost dist: map<Pos, nat>, ghost parent: map<Pos, Pos>)
    requires InGrid(grid, s.0, s.1)
    ensures r.Panic? ==> r.reason == UnexpectedChar || (r.reason == IndexOutOfBounds && !Rectangular(grid))
    ensures r.Panic? && r.reason == UnexpectedChar ==> Tree(grid, nodes, s, dist, parent) && BadIn(grid, nodes, s, dist)
    ensures r.Ok? ==> Explored(grid, nodes, s, dist, parent) && r.value == EdgesOf(nodes, s, dist)
  {
    var stack: seq<Entry> := [(0, s)];
    var seen := {s};
    var edges: map<Pos, nat> := map[];
    dist := map[s := 0];
    parent := map[];
    ghost var done: set<Pos> := {};
    SearchingStart(grid, nodes, s);
    while stack != []
      invariant Searching(grid, nodes, s, stack, seen, dist, parent, done)
      invariant Recorded(nodes, s, edges, dist, done) && seen == done + Positions(stack)
      invariant seen <= Cells(grid) + {s}
      decreases |Cells(grid) + {s} - seen|, |stack|
    {
      ghost var seen0 := seen;
      var ok;
      ok, stack, seen, edges, dist, parent, done := Visit(grid, nodes, s, stack, seen, edges, dist, parent, done);
      if ok.Panic? {
        return Panic(ok.reason), dist, parent;
      }
      TreeInCells(grid, nodes, s, dist, parent);
      if seen != seen0 {
        Shrinks(Cells(grid) + {s}, seen0, seen);
      }
    }
    SearchingEnd(grid, nodes, s, seen, dist, parent, done, edges);
    r := Ok(edges);
  }

  // ---------------------------------------------------------------- what a search finds

  /** A walk that never comes back to a tile it has left. */
  ghost predicate Simple(w: seq<Pos>) {
    forall i, j :: 0 <= i < j < |w| ==> w[i] != w[j]
  }

  /** The walk the tree records from `s` to `t`: its `i`-th tile is the one
      reached after `i` steps. */
  ghost function PathTo(grid: Grid, nodes: seq<Pos>, s: Pos, dist: map<Pos, nat>, parent: map<Pos, Pos>, t: Pos): (w: seq<Pos>)
    requires Tree(grid, nodes, s, dist, parent) && t in dist
    ensures |w| == dist[t] + 1 && w[0] == s && w[|w| - 1] == t
    ensures forall i :: 0 <= i < |w| ==> w[i] in dist && dist[w[i]] == i
    ensures forall i :: 0 <= i < |w| - 1 ==> Step(grid, w[i], w[i + 1]) && PassThrough(nodes, s, w[i])
    decreases dist[t]
  {
    if t == s then [s]
    else
      var u := PathTo(grid, nodes, s, dist, parent, parent[t]);
      assert forall i :: 0 <= i < |u| ==> (u + [t])[i] == u[i];
      u + [t]
  }

  /** Every tile of a node-free walk from `s` is seen by a finished search. */
  lemma {:induction false} WalkSeen(grid: Grid, nodes: seq<Pos>, s: Pos, dist: map<Pos, nat>, parent: map<Pos, Pos>,
                                    w: seq<Pos>, i: nat)
    requires Explored(grid, nodes, s, dist, parent) && NodeFreeWalk(grid, nodes, s, w) && i < |w|
    ensures w[i] in dist
  {
    if i > 0 {
      WalkSeen(grid, nodes, s, dist, parent, w, i - 1);
      assert Step(grid, w[i - 1], w[i]);
      assert PassThrough(nodes, s, w[i - 1]);
    }
  }

  /** Completeness of a search: every node other than `s` that a node-free
      walk from `s` reaches gets an edge. */
  lemma EdgesComplete(grid: Grid, nodes: seq<Pos>, s: Pos, dist: map<Pos, nat>, parent: map<Pos, Pos>, w: seq<Pos>)
    requires Explored(grid, nodes, s, dist, parent) && NodeFreeWalk(grid, nodes, s, w)
    requires w[|w| - 1] in nodes && w[|w| - 1] != s
    ensures w[|w| - 1] in EdgesOf(nodes, s, dist)
  {
    WalkSeen(grid, nodes, s, dist, parent, w, |w| - 1);
  }

  /** Soundness of a search: every edge leads to a node other than `s`, and
      its weight is the number of steps of a node-free walk from `s` to it
      that repeats no tile. */
  lemma EdgeWalk(grid: Grid, nodes: seq<Pos>, s: Pos, dist: map<Pos, nat>, parent: map<Pos, Pos>, t: Pos)
    requires Explored(grid, nodes, s, dist, parent) && t in EdgesOf(nodes, s, dist)
    ensures EdgeWitness(grid, nodes, s, t, EdgesOf(nodes, s, dist)[t], PathTo(grid, nodes, s, dist, parent, t))
  {
    var w := PathTo(grid, nodes, s, dist, parent, t);
    forall i, j | 0 <= i < j < |w| ensures w[i] != w[j] {
      assert dist[w[i]] == i && dist[w[j]] == j;
    }
  }

  /** `w` shows an edge from `u` to `t` of weight `n`: `t` is a node other
      than `u`, and `w` is a node-free walk from `u` to `t` of `n` steps that
      repeats no tile. */
  ghost predicate EdgeWitness(grid: Grid, nodes: seq<Pos>, u: Pos, t: Pos, n: nat, w: seq<Pos>) {
    && t in nodes && t != u
    && NodeFreeWalk(grid, nodes, u, w) && Simple(w) && |w| == n + 1 && w[n] == t
  }

  // ---------------------------------------------------------------- the graph

  /** Adds the edges found from `s` to the graph, keeping those it already
      has from `s`; a search that found nothing adds no key. */
  function AddEdges(graph: Graph, s: Pos, edges: map<Pos, nat>): Graph {
    if edges == map[] then graph
    else graph[s := (if s in graph then graph[s] else map[]) + edges]
  }

  /** The walks behind the edges, added alongside. */
  ghost function AddWalks(paths: map<Pos, map<Pos, seq<Pos>>>, grid: Grid, nodes: seq<Pos>, s: Pos,
                          dist: map<Pos, nat>, parent: map<Pos, Pos>): map<Pos, map<Pos, seq<Pos>>>
    requires Tree(grid, nodes, s, dist, parent)
  {
    if EdgesOf(nodes, s, dist) == map[] then paths
    else paths[s := (if s in paths then paths[s] else map[]) + map t | t in EdgesOf(nodes, s, dist) :: PathTo(grid, nodes, s, dist, parent, t)]
  }

  /** Every edge of the graph has its walk in `paths`. */
  ghost predicate Witnessed(grid: Grid, nodes: seq<Pos>, graph: Graph, paths: map<Pos, map<Pos, seq<Pos>>>) {
    forall u, t :: u in graph && t in graph[u] ==>
      u in paths && t in paths[u] && EdgeWitness(grid, nodes, u, t, graph[u][t], paths[u][t])
  }

  /** The searches from the first `k` nodes have put in every edge a node-free
      walk shows. */
  ghost predicate Complete(grid: Grid, nodes: seq<Pos>, graph: Graph, k: nat) {
    forall i, w :: 0 <= i < k && i < |nodes| && NodeFreeWalk(grid, nodes, nodes[i], w)
                   && w[|w| - 1] in nodes && w[|w| - 1] != nodes[i] ==>
      nodes[i] in graph && w[|w| - 1] in graph[nodes[i]]
  }

  /** The keys of the graph: the end, and nodes with at least one edge. */
  ghost predicate Keys(nodes: seq<Pos>, end: Pos, graph: Graph) {
    && end in graph
    && forall u :: u in graph ==> u == end || (u in nodes && graph[u] != map[])
  }

  /** Adding the edges of a finished search from the `k`-th node keeps every
      edge witnessed and extends completeness to that node. */
  lemma AddSearch(grid: Grid, nodes: seq<Pos>, end: Pos, graph: Graph, paths: map<Pos, map<Pos, seq<Pos>>>, k: nat,
                  dist: map<Pos, nat>, parent: map<Pos, Pos>)
    requires k < |nodes| && Explored(grid, nodes, nodes[k], dist, parent)
    requires Keys(nodes, end, graph) && Witnessed(grid, nodes, graph, paths) && Complete(grid, nodes, graph, k)
    ensures Keys(nodes, end, AddEdges(graph, nodes[k], EdgesOf(nodes, nodes[k], dist)))
    ensures Witnessed(grid, nodes, AddEdges(graph, nodes[k], EdgesOf(nodes, nodes[k], dist)), AddWalks(paths, grid, nodes, nodes[k], dist, parent))
    ensures Complete(grid, nodes, AddEdges(graph, nodes[k], EdgesOf(nodes, nodes[k], dist)), k + 1)
  {
    AddWitnessed(grid, nodes, graph, paths, nodes[k], dist, parent);
    AddComplete(grid, nodes, graph, k, dist, parent);
  }

  lemma AddWitnessed(grid: Grid, nodes: seq<Pos>, graph: Graph, paths: map<Pos, map<Pos, seq<Pos>>>, s: Pos,
                     dist: map<Pos, nat>, parent: map<Pos, Pos>)
    requires Explored(grid, nodes, s, dist, parent) && Witnessed(grid, nodes, graph, paths)
    ensures Witnessed(grid, nodes, AddEdges(graph, s, EdgesOf(nodes, s, dist)), AddWalks(paths, grid, nodes, s, dist, parent))
  {
    var edges := EdgesOf(nodes, s, dist);
    var graph', paths' := AddEdges(graph, s, edges), AddWalks(paths, grid, nodes, s, dist, parent);
    forall u, t | u in graph' && t in graph'[u]
      ensures u in paths' && t in paths'[u] && EdgeWitness(grid, nodes, u, t, graph'[u][t], paths'[u][t])
    {
      if u == s && t in edges {
        EdgeWalk(grid, nodes, s, dist, parent, t);
        assert graph'[u][t] == edges[t] && paths'[u][t] == PathTo(grid, nodes, s, dist, parent, t);
      } else {
        assert u in graph && t in graph[u] && graph'[u][t] == graph[u][t] && paths'[u][t] == paths[u][t];
      }
    }
  }

  lemma AddComplete(grid: Grid, nodes: seq<Pos>, graph: Graph, k: nat, dist: map<Pos, nat>, parent: map<Pos, Pos>)
    requires k < |nodes| && Explored(grid, nodes, nodes[k], dist, parent) && Complete(grid, nodes, graph, k)
    ensures Complete(grid, nodes, AddEdges(graph, nodes[k], EdgesOf(nodes, nodes[k], dist)), k + 1)
  {
    var graph' := AddEdges(graph, nodes[k], EdgesOf(nodes, nodes[k], dist));
    forall i, w | 0 <= i < k + 1 && i < |nodes| && NodeFreeWalk(grid, nodes, nodes[i], w)
                  && w[|w| - 1] in nodes && w[|w| - 1] != nodes[i]
      ensures nodes[i] in graph' && w[|w| - 1] in graph'[nodes[i]]
    {
      if i == k {
        EdgesComplete(grid, nodes, nodes[k], dist, parent, w);
      } else {
        assert nodes[i] in graph && w[|w| - 1] in graph[nodes[i]];
      }
    }
  }

  /** Builds the graph: the end with no edges, then the edges found by a
      search from every node in turn. */
  method BuildGraph(grid: Grid, nodes: seq<Pos>, end: Pos) returns (r: Result<Graph>, ghost paths: map<Pos, map<Pos, seq<Pos>>>)
    requires forall k :: 0 <= k < |nodes| ==> InGrid(grid, nodes[k].0, nodes[k].1)
    ensures r.Panic? ==> r.reason == UnexpectedChar || (r.reason == IndexOutOfBounds && !Rectangular(grid))
    ensures r.Panic? && r.reason == UnexpectedChar ==> exists k :: 0 <= k < |nodes| && ReachesBadTile(grid, nodes, nodes[k])
    ensures r.Ok? ==> Keys(nodes, end, r.value) && Witnessed(grid, nodes, r.value, paths)
    ensures r.Ok? ==> Complete(grid, nodes, r.value, |nodes|)
  {
    var graph: Graph := map[end := map[]];
    paths := map[];
    for k := 0 to |nodes|
      invariant Keys(nodes, end, graph) && Witnessed(grid, nodes, graph, paths) && Complete(grid, nodes, graph, k)
    {
      var found, dist, parent := Explore(grid, nodes, nodes[k]);
      if found.Panic? {
        if found.reason == UnexpectedChar {
          assert ReachesBadTile(grid, nodes, nodes[k]);
        }
        return Panic(found.reason), paths;
      }
      AddSearch(grid, nodes, end, graph, paths, k, dist, parent);
      graph, paths := AddEdges(graph, nodes[k], found.value), AddWalks(paths, grid, nodes, nodes[k], dist, parent);
    }
    r := Ok(graph);
  }

  // ---------------------------------------------------------------- the longest route

  /** Every position the graph mentions: its keys and the ends of its edges. */
  ghost function Universe(graph: Graph): set<Pos> {
    graph.Keys + set u, t | u in graph && t in graph[u] :: t
  }

  lemma InUniverse(graph: Graph, u: Pos, t: Pos)
    requires u in graph && t in graph[u]
    ensures t in Universe(graph)
  {
  }

  lemma Fewer(universe: set<Pos>, seen: set<Pos>, k: Pos)
    requires k in universe && k !in seen
    ensures |universe - (seen + {k})| < |universe - seen|
  {
    assert universe - seen == (universe - (seen + {k})) + {k};
  }

  /** Both values, or a panic if either is one. */
  function Combine(a: Result<nat>, b: Result<nat>): Result<nat> {
    if a.Ok? && b.Ok? then Ok(if a.value < b.value then b.value else a.value) else Panic(UnwrapNone)
  }

  /** What `dfs(seen, graph, key)` returns: the unwrap panics when `key` has
      no entry; otherwise the largest of the values its edges give, 0 when
      there are none. */
  ghost function Longest(graph: Graph, seen: set<Pos>, key: Pos): Result<nat>
    decreases |Universe(graph) - (seen + {key})|, 2, 0
  {
    if key !in graph then Panic(UnwrapNone)
    else BestOver(graph, seen + {key}, key, graph[key].Keys)
  }

  /** The largest value over the edges from `key` to `ks`, taken in whatever
      order the map yields them. */
  ghost function BestOver(graph: Graph, seen: set<Pos>, key: Pos, ks: set<Pos>): Result<nat>
    requires key in graph && ks <= graph[key].Keys && key in seen
    decreases |Universe(graph) - seen|, 1, |ks|
  {
    if ks == {} then Ok(0)
    else
      var k := Pick(ks);
      Combine(Through(graph, seen, key, k), BestOver(graph, seen, key, ks - {k}))
  }

  /** Some element of a non-empty set: the one a map's iteration yields
      first. */
  ghost function Pick(ks: set<Pos>): (k: Pos)
    requires ks != {}
    ensures k in ks
  {
    var k :| k in ks; k
  }

  /** The value of the edge from `key` to `k`: 0 if `k` is on the route
      already, else the edge's weight plus the best from `k` on. */
  ghost function Through(graph: Graph, seen: set<Pos>, key: Pos, k: Pos): Result<nat>
    requires key in graph && k in graph[key] && key in seen
    decreases |Universe(graph) - seen|, 0, 0
  {
    if k in seen then Ok(0)
    else
      assert k in Universe(graph);
      assert Universe(graph) - seen == (Universe(graph) - (seen + {k})) + {k};
      var v :- Longest(graph, seen, k);
      Ok(v + graph[key][k])
  }

  /** The edge `BestOver` takes first. */
  lemma FirstTaken(graph: Graph, seen: set<Pos>, key: Pos, ks: set<Pos>) returns (k: Pos)
    requires key in graph && ks <= graph[key].Keys && key in seen && ks != {}
    ensures k in ks && BestOver(graph, seen, key, ks) == Combine(Through(graph, seen, key, k), BestOver(graph, seen, key, ks - {k}))
  {
    k := Pick(ks);
  }

  lemma CombineSwap(a: Result<nat>, b: Result<nat>, c: Result<nat>)
    ensures Combine(a, Combine(b, c)) == Combine(b, Combine(a, c))
  {
  }

  /** The order the edges are taken in does not matter: any of them may be
      taken first. */
  lemma {:induction false} BestOverRemove(graph: Graph, seen: set<Pos>, key: Pos, ks: set<Pos>, k: Pos)
    requires key in graph && ks <= graph[key].Keys && key in seen && k in ks
    ensures BestOver(graph, seen, key, ks) == Combine(Through(graph, seen, key, k), BestOver(graph, seen, key, ks - {k}))
    decreases |ks|
  {
    var k0 := FirstTaken(graph, seen, key, ks);
    if k0 != k {
      BestOverRemove(graph, seen, key, ks - {k0}, k);
      BestOverRemove(graph, seen, key, ks - {k}, k0);
      assert ks - {k0} - {k} == ks - {k} - {k0};
      CombineSwap(Through(graph, seen, key, k0), Through(graph, seen, key, k), BestOver(graph, seen, key, ks - {k0} - {k}));
    }
  }

  /** A route: each position joined to the next by an edge, none twice. */
  ghost predicate Route(graph: Graph, p: seq<Pos>) {
    |p| > 0 && Linked(graph, p) && Simple(p)
  }

  ghost predicate Linked(graph: Graph, p: seq<Pos>) {
    forall i :: 0 <= i < |p| - 1 ==> p[i] in graph && p[i + 1] in graph[p[i]]
  }

  /** The sum of the weights of a route's edges. */
  ghost function Weight(graph: Graph, p: seq<Pos>): nat
    requires Linked(graph, p)
  {
    if |p| <= 1 then 0 else graph[p[0]][p[1]] + Weight(graph, p[1..])
  }

  /** No edge from `key` to `ks` is worth more than the best over `ks`. */
  lemma {:induction false} BestOverAtLeast(graph: Graph, seen: set<Pos>, key: Pos, ks: set<Pos>, k: Pos)
    requires key in graph && ks <= graph[key].Keys && key in seen && k in ks
    requires BestOver(graph, seen, key, ks).Ok?
    ensures Through(graph, seen, key, k).Ok? && Through(graph, seen, key, k).value <= BestOver(graph, seen, key, ks).value
  {
    BestOverRemove(graph, seen, key, ks, k);
  }

  /** A positive best over `ks` is the value of one of its edges. */
  lemma {:induction false} BestOverWitness(graph: Graph, seen: set<Pos>, key: Pos, ks: set<Pos>) returns (k: Pos)
    requires key in graph && ks <= graph[key].Keys && key in seen
    requires BestOver(graph, seen, key, ks).Ok? && BestOver(graph, seen, key, ks).value > 0
    ensures k in ks && Through(graph, seen, key, k) == BestOver(graph, seen, key, ks)
    decreases |ks|
  {
    var k0 := FirstTaken(graph, seen, key, ks);
    if Through(graph, seen, key, k0) == BestOver(graph, seen, key, ks) {
      k := k0;
    } else {
      k := BestOverWitness(graph, seen, key, ks - {k0});
    }
  }

  /** `dfs` is an upper bound: no route from `key` that avoids `seen` weighs
      more than what it returns. */
  lemma {:induction false} LongestUpper(graph: Graph, seen: set<Pos>, key: Pos, p: seq<Pos>)
    requires Longest(graph, seen, key).Ok? && Route(graph, p) && p[0] == key
    requires forall i :: 0 <= i < |p| ==> p[i] !in seen
    ensures Weight(graph, p) <= Longest(graph, seen, key).value
    decreases |Universe(graph) - (seen + {key})|
  {
    if |p| > 1 {
      var k, seen' := p[1], seen + {key};
      assert p[0] != p[1];
      BestOverAtLeast(graph, seen', key, graph[key].Keys, k);
      InUniverse(graph, key, k);
      Fewer(Universe(graph), seen', k);
      var q := p[1..];
      assert Route(graph, q) && q[0] == k by {
        assert forall i :: 0 <= i < |q| ==> q[i] == p[i + 1];
      }
      assert forall i :: 0 <= i < |q| ==> q[i] !in seen' by {
        assert forall i :: 0 <= i < |q| ==> q[i] == p[i + 1];
      }
      LongestUpper(graph, seen', k, q);
    }
  }

  /** `dfs` is attained: some route from `key` that avoids `seen` weighs
      exactly what it returns. */
  lemma {:induction false} LongestAttained(graph: Graph, seen: set<Pos>, key: Pos) returns (p: seq<Pos>)
    requires Longest(graph, seen, key).Ok? && key !in seen
    ensures Route(graph, p) && p[0] == key && (forall i :: 0 <= i < |p| ==> p[i] !in seen)
    ensures Weight(graph, p) == Longest(graph, seen, key).value
    decreases |Universe(graph) - (seen + {key})|
  {
    var seen' := seen + {key};
    if Longest(graph, seen, key).value == 0 {
      p := [key];
    } else {
      var k := BestOverWitness(graph, seen', key, graph[key].Keys);
      InUniverse(graph, key, k);
      Fewer(Universe(graph), seen', k);
      var q := LongestAttained(graph, seen', k);
      p := [key] + q;
      assert p[1..] == q;
      forall i | 0 <= i < |p| - 1 ensures p[i] in graph && p[i + 1] in graph[p[i]] {
        if i > 0 {
          assert p[i] == q[i - 1] && p[i + 1] == q[i];
        }
      }
      forall i, j | 0 <= i < j < |p| ensures p[i] != p[j] {
        assert p[j] == q[j - 1];
        if i > 0 {
          assert p[i] == q[i - 1];
        }
      }
    }
  }

  lemma ThroughValue(graph: Graph, seen: set<Pos>, key: Pos, k: Pos)
    requires key in graph && k in graph[key] && key in seen
    ensures k in seen ==> Through(graph, seen, key, k) == Ok(0)
    ensures k !in seen && Longest(graph, seen, k).Ok? ==> Through(graph, seen, key, k) == Ok(Longest(graph, seen, k).value + graph[key][k])
  {
  }

  /** Taking one more edge, worth `v`, into the running best. */
  lemma TakeEdge(graph: Graph, seen: set<Pos>, key: Pos, all: set<Pos>, todo: set<Pos>, best: nat, k: Pos, v: nat)
    requires key in graph && all <= graph[key].Keys && todo <= all && key in seen && k in todo
    requires BestOver(graph, seen, key, all) == Combine(Ok(best), BestOver(graph, seen, key, todo))
    requires if k in seen then v == 0 else Longest(graph, seen, k).Ok? && v == Longest(graph, seen, k).value + graph[key][k]
    ensures BestOver(graph, seen, key, all) == Combine(Ok(if best < v then v else best), BestOver(graph, seen, key, todo - {k}))
  {
    ThroughValue(graph, seen, key, k);
    BestOverRemove(graph, seen, key, todo, k);
  }

  /** An edge whose value panics makes the whole best panic. */
  lemma TakePanic(graph: Graph, seen: set<Pos>, key: Pos, all: set<Pos>, todo: set<Pos>, best: nat, k: Pos)
    requires key in graph && all <= graph[key].Keys && todo <= all && key in seen && k in todo
    requires BestOver(graph, seen, key, all) == Combine(Ok(best), BestOver(graph, seen, key, todo))
    requires k !in seen && Longest(graph, seen, k).Panic?
    ensures BestOver(graph, seen, key, all) == Panic(UnwrapNone)
  {
    BestOverRemove(graph, seen, key, todo, k);
  }

  /** `dfs`: marks `key` as on the route, takes the best over its edges in
      the map's order, and unmarks it. */
  method Dfs(seen: set<Pos>, graph: Graph, key: Pos) returns (r: Result<nat>, seen': set<Pos>)
    ensures r == Longest(graph, seen, key)
    ensures r.Ok? ==> seen' == seen - {key}
    decreases |Universe(graph) - (seen + {key})|
  {
    seen' := seen + {key};
    if key !in graph {
      return Panic(UnwrapNone), seen';
    }
    var edges := graph[key];
    var best: nat := 0;
    var todo := edges.Keys;
    while todo != {}
      invariant todo <= edges.Keys && seen' == seen + {key}
      invariant BestOver(graph, seen', key, edges.Keys) == Combine(Ok(best), BestOver(graph, seen', key, todo))
      decreases |todo|
    {
      var k :| k in todo;
      var v: nat := 0;
      if k !in seen' {
        InUniverse(graph, key, k);
        Fewer(Universe(graph), seen', k);
        var sub, after := Dfs(seen', graph, k);
        if sub.Panic? {
          TakePanic(graph, seen', key, edges.Keys, todo, best, k);
          return Panic(UnwrapNone), after;
        }
        v := sub.value + edges[k];
        TakeEdge(graph, seen', key, edges.Keys, todo, best, k, v);
      } else {
        TakeEdge(graph, seen', key, edges.Keys, todo, best, k, v);
      }
      best := if best < v then v else best;
      todo := todo - {k};
    }
    seen' := seen' - {key};
    r := Ok(best);
  }

  // ---------------------------------------------------------------- part 1

  lemma NodeInGrid(grid: Grid, p: Pos)
    requires IsNode(grid, p)
    ensures InGrid(grid, p.0, p.1)
  {
  }

  /** The nodes of the graph: the start, the end, then every junction. */
  ghost predicate NodesOf(grid: Grid, nodes: seq<Pos>) {
    && StartEnd(grid).Ok? && |nodes| >= 2 && nodes[0] == StartEnd(grid).value.0 && nodes[1] == StartEnd(grid).value.1
    && forall p :: p in nodes[2..] <==> IsNode(grid, p)
  }

  /** Builds the graph over `nodes`, the end being `nodes[1]`, and runs `dfs`
      from `nodes[0]` with nothing seen. */
  method LongestFrom(grid: Grid, nodes: seq<Pos>) returns (r: Result<nat>, ghost graph: Graph, ghost paths: map<Pos, map<Pos, seq<Pos>>>)
    requires |nodes| >= 2 && forall k :: 0 <= k < |nodes| ==> InGrid(grid, nodes[k].0, nodes[k].1)
    ensures r.Panic? ==> r.reason == UnwrapNone || r.reason == UnexpectedChar || (r.reason == IndexOutOfBounds && !Rectangular(grid))
    ensures r.Panic? && r.reason == UnexpectedChar ==> exists k :: 0 <= k < |nodes| && ReachesBadTile(grid, nodes, nodes[k])
    ensures r.Panic? && r.reason == UnwrapNone ==> Keys(nodes, nodes[1], graph) && r == Longest(graph, {}, nodes[0])
    ensures r.Ok? ==> Keys(nodes, nodes[1], graph) && Witnessed(grid, nodes, graph, paths) && Complete(grid, nodes, graph, |nodes|)
    ensures r.Ok? ==> r == Longest(graph, {}, nodes[0])
  {
    graph := map[];
    var built;
    built, paths := BuildGraph(grid, nodes, nodes[1]);
    if built.Panic? {
      return Panic(built.reason), graph, paths;
    }
    graph := built.value;
    var after;
    r, after := Dfs({}, built.value, nodes[0]);
  }

  /** Part 1: the start, the end and the junctions become the nodes, the
      searches from each build the graph, and `dfs` from the start, with
      nothing seen, gives the answer. */
  method Part1(grid: Grid) returns (r: Result<nat>, ghost nodes: seq<Pos>, ghost graph: Graph, ghost paths: map<Pos, map<Pos, seq<Pos>>>)
    ensures r.Panic? ==> r.reason == IndexOutOfBounds || r.reason == UnwrapNone || r.reason == UnexpectedChar
    ensures r.Panic? && r.reason == IndexOutOfBounds ==> grid == [] || !Rectangular(grid)
    ensures r.Panic? && r.reason == UnexpectedChar ==>
      (NodesOf(grid, nodes) && exists k :: 0 <= k < |nodes| && ReachesBadTile(grid, nodes, nodes[k]))
    ensures r.Panic? && r.reason == UnwrapNone ==>
      (StartEnd(grid).Panic? || (NodesOf(grid, nodes) && Keys(nodes, nodes[1], graph) && r == Longest(graph, {}, nodes[0])))
    ensures r.Ok? ==> NodesOf(grid, nodes)
    ensures r.Ok? ==> Keys(nodes, nodes[1], graph) && Witnessed(grid, nodes, graph, paths) && Complete(grid, nodes, graph, |nodes|)
    ensures r.Ok? ==> r == Longest(graph, {}, nodes[0])
  {
    nodes, graph, paths := [], map[], map[];
    var ends := StartEnd(grid);
    if ends.Panic? {
      return Panic(ends.reason), nodes, graph, paths;
    }
    var found := FindNodes(grid);
    if found.Panic? {
      return Panic(found.reason), nodes, graph, paths;
    }
    var all := [ends.value.0, ends.value.1] + found.value;
    nodes := all;
    assert nodes[2..] == found.value;
    assert NodesOf(grid, nodes);
    forall k | 0 <= k < |nodes| ensures InGrid(grid, nodes[k].0, nodes[k].1) {
      if k >= 2 {
        assert nodes[k] in found.value;
        NodeInGrid(grid, nodes[k]);
      }
    }
    r, graph, paths := LongestFrom(grid, all);
  }
}
