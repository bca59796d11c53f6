/** Day 21: garden plots reachable in a given number of steps. The start is
    the last `S` of the garden; a breadth-first search walks to the
    neighbouring plots that are not rock (`#`), with one step fewer each time,
    marking every position it queues so that none is queued twice; a position
    taken off the queue with an even number of steps left is an answer. */
module Day21 {
  import opened Wrappers
  import opened Grids

  /** A position (row, column). */
  type Pos = (int, int)

  /** A queue entry: the steps left and the position. */
  type Item = (int, Pos)

  /** The number of steps of part one. */
  const TargetSteps := 64

  // ---------------------------------------------------------------- start

  /** The last `S` in a row. */
  function LastS(row: seq<char>): (r: Option<nat>)
    ensures r.Some? ==> r.value < |row| && row[r.value] == 'S'
    ensures r.Some? ==> forall j :: r.value < j < |row| ==> row[j] != 'S'
    ensures r.None? ==> forall j :: 0 <= j < |row| ==> row[j] != 'S'
    decreases |row|
  {
    if row == [] then None
    else if row[|row| - 1] == 'S' then Some(|row| - 1)
    else LastS(row[..|row| - 1])
  }

  /** `a` comes before `b` in a row-major scan. */
  predicate Before(a: Pos, b: Pos) {
    a.0 < b.0 || (a.0 == b.0 && a.1 < b.1)
  }

  ghost predicate NoStart(garden: Grid) {
    forall i, j :: InGrid(garden, i, j) ==> garden[i][j] != 'S'
  }

  /** The start: the last `S` in row-major order, or (0, 0) when there is
      none. */
  function StartOf(garden: Grid): (r: Pos)
    ensures NoStart(garden) ==> r == (0, 0)
    ensures !NoStart(garden) ==> InGrid(garden, r.0, r.1) && garden[r.0][r.1] == 'S'
    ensures forall i, j :: InGrid(garden, i, j) && Before(r, (i, j)) ==> garden[i][j] != 'S'
    decreases |garden|
  {
    if garden == [] then (0, 0)
    else
      var last := |garden| - 1;
      match LastS(garden[last])
      case Some(j) => (last, j)
      case None => StartOf(garden[..last])
  }

  /** The nested scan for `S`. */
  method FindStart(garden: Grid) returns (start: Pos)
    ensures start == StartOf(garden)
  {
    start := (0, 0);
    for i := 0 to |garden|
      invariant start == StartOf(garden[..i])
    {
      var row := garden[i];
      ghost var above := start;
      for j := 0 to |row|
        invariant start == match LastS(row[..j]) case Some(c) => (i, c) case None => above
      {
        assert row[..j + 1][..j] == row[..j];
        if row[j] == 'S' {
          start := (i, j);
        }
      }
      assert row[..|row|] == row;
      assert garden[..i + 1][..i] == garden[..i];
    }
    assert garden[..|garden|] == garden;
  }

  // ---------------------------------------------------------------- moves

  /** Inside the bounds the search checks: the number of rows and the length
      of the first row. */
  predicate Inside(garden: Grid, q: Pos)
    requires |garden| > 0
  {
    0 <= q.0 < |garden| && 0 <= q.1 < |garden[0]|
  }

  /** A position the search may step onto. */
  predicate Plot(garden: Grid, q: Pos)
    requires |garden| > 0
  {
    Inside(garden, q) && q.1 < |garden[q.0]| && garden[q.0][q.1] != '#'
  }

  /** The four directions, in the order they are tried. */
  const Dirs: seq<(int, int)> := [(1, 0), (-1, 0), (0, 1), (0, -1)]

  function Toward(p: Pos, d: nat): Pos
    requires d < 4
  {
    (p.0 + Dirs[d].0, p.1 + Dirs[d].1)
  }

  predicate Adjacent(p: Pos, q: Pos) {
    q == (p.0 + 1, p.1) || q == (p.0 - 1, p.1) || q == (p.0, p.1 + 1) || q == (p.0, p.1 - 1)
  }

  /** The four directions give exactly the neighbours. */
  lemma TowardAdjacent(p: Pos)
    ensures forall d :: 0 <= d < 4 ==> Adjacent(p, Toward(p, d))
    ensures forall q :: Adjacent(p, q) ==> q == Toward(p, 0) || q == Toward(p, 1) || q == Toward(p, 2) || q == Toward(p, 3)
  {
  }

  /** `b` is queued while expanding `a`: one step fewer, to a neighbouring
      plot; nothing is expanded with 0 steps left. */
  predicate Move(garden: Grid, a: Item, b: Item)
    requires |garden| > 0
  {
    a.0 != 0 && b.0 == a.0 - 1 && Adjacent(a.1, b.1) && Plot(garden, b.1)
  }

  // ---------------------------------------------------------------- search

  /** The positions marked visited: all queued but the first. */
  function Visited(trace: seq<Item>): set<Pos> {
    set k | 1 <= k < |trace| :: trace[k].1
  }

  /** The positions taken off the queue with an even number of steps. */
  function Answers(trace: seq<Item>): set<Pos> {
    set k | 0 <= k < |trace| && trace[k].0 % 2 == 0 :: trace[k].1
  }

  /** `trace` is every entry queued, in queue order, and `parents[k]` the
      entry whose expansion queued entry `k`: it starts with the start, each
      later entry is a move from an earlier one, entries are queued in the
      order their parents were expanded, and no position is queued twice
      after the start. */
  predicate Search(garden: Grid, start: Pos, target: int, trace: seq<Item>, parents: seq<nat>) {
    && |garden| > 0
    && |trace| >= 1 && trace[0] == (target, start) && |parents| == |trace|
    && (forall k {:trigger parents[k]} :: 1 <= k < |trace| ==> parents[k] < k && Move(garden, trace[parents[k]], trace[k]))
    && (forall k1, k2 {:trigger parents[k1], parents[k2]} :: 1 <= k1 < k2 < |trace| ==> parents[k1] <= parents[k2])
    && (forall k1, k2 {:trigger trace[k1], trace[k2]} :: 1 <= k1 < k2 < |trace| ==> trace[k1].1 != trace[k2].1)
  }

  /** `q` was queued, after the start, by the expansion of entry `k` or of
      an earlier one. */
  ghost predicate QueuedBy(trace: seq<Item>, parents: seq<nat>, q: Pos, k: nat) {
    exists m :: 1 <= m < |trace| && m < |parents| && trace[m].1 == q && parents[m] <= k
  }

  /** The first `n` entries are expanded: every plot next to one of them
      (with steps left) has been queued, at the latest by that entry. */
  ghost predicate Expanded(garden: Grid, trace: seq<Item>, parents: seq<nat>, n: nat)
    requires |garden| > 0
  {
    forall k, q :: 0 <= k < n && k < |trace| && trace[k].0 != 0 && Adjacent(trace[k].1, q) && Plot(garden, q) ==> QueuedBy(trace, parents, q, k)
  }

  lemma QueuedByGrows(trace: seq<Item>, parents: seq<nat>, trace': seq<Item>, parents': seq<nat>, q: Pos, k: nat)
    requires QueuedBy(trace, parents, q, k) && trace <= trace' && parents <= parents'
    ensures QueuedBy(trace', parents', q, k)
  {
    var m :| 1 <= m < |trace| && m < |parents| && trace[m].1 == q && parents[m] <= k;
    assert trace'[m] == trace[m] && parents'[m] == parents[m];
  }

  /** The positions inside the bounds. */
  function Cells(garden: Grid): set<Pos>
    requires |garden| > 0
  {
    set i, j | 0 <= i < |garden| && 0 <= j < |garden[0]| :: (i, j)
  }

  lemma CellsShrink(cells: set<Pos>, visited: set<Pos>, q: Pos)
    requires q in cells && q !in visited
    ensures |cells - (visited + {q})| == |cells - visited| - 1
  {
    assert cells - visited == (cells - (visited + {q})) + {q};
  }

  lemma AnswersNext(trace: seq<Item>, n: nat)
    requires n < |trace|
    ensures Answers(trace[..n + 1]) == Answers(trace[..n]) + if trace[n].0 % 2 == 0 then {trace[n].1} else {}
  {
    var t := trace[..n + 1];
    assert t[..n] == trace[..n];
    forall p | p in Answers(t)
      ensures p in Answers(trace[..n]) + if trace[n].0 % 2 == 0 then {trace[n].1} else {}
    {
      var k :| 0 <= k < |t| && t[k].0 % 2 == 0 && t[k].1 == p;
      if k < n {
        assert trace[..n][k] == t[k];
      }
    }
    forall p | p in Answers(trace[..n])
      ensures p in Answers(t)
    {
      var k :| 0 <= k < n && trace[..n][k].0 % 2 == 0 && trace[..n][k].1 == p;
      assert t[k] == trace[..n][k];
    }
  }

  lemma VisitedPush(trace: seq<Item>, x: Item)
    requires |trace| >= 1
    ensures Visited(trace + [x]) == Visited(trace) + {x.1}
  {
    var t := trace + [x];
    assert t[|trace|] == x;
    forall p | p in Visited(t)
      ensures p in Visited(trace) + {x.1}
    {
      var k :| 1 <= k < |t| && t[k].1 == p;
      if k < |trace| {
        assert t[k] == trace[k];
      }
    }
    forall p | p in Visited(trace)
      ensures p in Visited(t)
    {
      var k :| 1 <= k < |trace| && trace[k].1 == p;
      assert t[k] == trace[k];
    }
  }

  /** Queues `q` as a move from entry `k` when it is an unvisited plot: the
      body of the loop over directions. Panics when `q` is inside the bounds
      but past the end of a shorter row. */
  method Offer(garden: Grid, start: Pos, target: int, item: Item, q: Pos, ghost k: nat,
               queue: seq<Item>, visited: set<Pos>, ghost trace: seq<Item>, ghost parents: seq<nat>, ghost popped: nat)
    returns (ok: bool, queue': seq<Item>, visited': set<Pos>, ghost trace': seq<Item>, ghost parents': seq<nat>)
    requires Search(garden, start, target, trace, parents)
    requires k < popped <= |trace| && queue == trace[popped..] && visited == Visited(trace)
    requires trace[k] == item && item.0 != 0 && Adjacent(item.1, q)
    requires forall m :: 1 <= m < |trace| ==> parents[m] <= k
    ensures !ok ==> Inside(garden, q) && q.1 >= |garden[q.0]|
    ensures ok ==> Search(garden, start, target, trace', parents')
    ensures ok ==> trace <= trace' && parents <= parents' && queue' == trace'[popped..] && visited' == Visited(trace')
    ensures ok ==> forall m :: 1 <= m < |trace'| ==> parents'[m] <= k
    ensures ok && Plot(garden, q) ==> QueuedBy(trace', parents', q, k)
    ensures ok ==> || (visited' == visited && queue' == queue)
                   || (q in Cells(garden) - visited && visited' == visited + {q} && |queue'| == |queue| + 1)
  {
    ok, queue', visited', trace', parents' := true, queue, visited, trace, parents;
    if !Inside(garden, q) {
      return;
    }
    if q.1 >= |garden[q.0]| {
      return false, queue, visited, trace, parents;
    }
    if garden[q.0][q.1] == '#' {
      return;
    }
    if q in visited {
      VisitedQueuedBy(trace, parents, q, k);
      return;
    }
    var x := (item.0 - 1, q);
    PushKeepsSearch(garden, start, target, trace, parents, k, x);
    visited' := visited + {q};
    queue' := queue + [x];
    trace' := trace + [x];
    parents' := parents + [k];
    assert trace'[popped..] == trace[popped..] + [x];
  }

  /** A visited position was queued by an entry no later than `k` when all
      parents so far are. */
  lemma VisitedQueuedBy(trace: seq<Item>, parents: seq<nat>, q: Pos, k: nat)
    requires |parents| == |trace| && q in Visited(trace)
    requires forall m :: 1 <= m < |trace| ==> parents[m] <= k
    ensures QueuedBy(trace, parents, q, k)
  {
    var m :| 1 <= m < |trace| && trace[m].1 == q;
    assert parents[m] <= k;
  }

  /** Queuing a move from entry `k` to an unvisited position keeps the
      search well formed. */
  lemma PushKeepsSearch(garden: Grid, start: Pos, target: int, trace: seq<Item>, parents: seq<nat>, k: nat, x: Item)
    requires Search(garden, start, target, trace, parents) && k < |trace|
    requires forall m :: 1 <= m < |trace| ==> parents[m] <= k
    requires Move(garden, trace[k], x) && x.1 !in Visited(trace)
    ensures Search(garden, start, target, trace + [x], parents + [k])
    ensures Visited(trace + [x]) == Visited(trace) + {x.1}
    ensures QueuedBy(trace + [x], parents + [k], x.1, k)
  {
    VisitedPush(trace, x);
    var t := trace + [x];
    forall m | 1 <= m < |trace|
      ensures trace[m].1 != x.1
    {
      assert trace[m].1 in Visited(trace);
    }
    assert t[|trace|].1 == x.1 && (parents + [k])[|trace|] == k;
  }

  /** The breadth-first search of `day21_part1` from `start` with `target`
      steps: the set of answers, with the queue order as `trace`. */
  method Explore(garden: Grid, start: Pos, target: int)
    returns (r: Result<set<Pos>>, ghost trace: seq<Item>, ghost parents: seq<nat>)
    requires |garden| > 0
    ensures r.Panic? ==> r.reason == IndexOutOfBounds && !Rectangular(garden)
    ensures r.Ok? ==> Search(garden, start, target, trace, parents)
    ensures r.Ok? ==> Expanded(garden, trace, parents, |trace|) && r.value == Answers(trace)
    ensures r.Ok? && target >= 0 ==> forall p :: p in r.value <==> Reachable(garden, start, target, p)
  {
    var queue: seq<Item> := [(target, start)];
    var visited: set<Pos> := {};
    var answers: set<Pos> := {};
    trace, parents := queue, [0];
    ghost var popped: nat := 0;
    while queue != []
      invariant Search(garden, start, target, trace, parents)
      invariant popped <= |trace| && queue == trace[popped..]
      invariant visited == Visited(trace) && visited <= Cells(garden)
      invariant answers == Answers(trace[..popped])
      invariant forall m :: 1 <= m < |trace| ==> parents[m] < popped
      invariant Expanded(garden, trace, parents, popped)
      decreases 2 * |Cells(garden) - visited| + |queue|
    {
      var ok;
      ok, queue, visited, answers, trace, parents := Dequeue(garden, start, target, queue, visited, answers, trace, parents, popped);
      if !ok {
        return Panic(IndexOutOfBounds), trace, parents;
      }
      popped := popped + 1;
    }
    assert popped == |trace| && trace[..popped] == trace;
    r := Ok(answers);
    if target >= 0 {
      AnswersExactly(garden, start, target, trace, parents);
    }
  }

  /** One turn of the search loop: take the front entry, record it as an
      answer when its steps are even, and expand it unless no steps are
      left. */
  method Dequeue(garden: Grid, start: Pos, target: int,
                 queue: seq<Item>, visited: set<Pos>, answers: set<Pos>, ghost trace: seq<Item>, ghost parents: seq<nat>, ghost popped: nat)
    returns (ok: bool, queue': seq<Item>, visited': set<Pos>, answers': set<Pos>, ghost trace': seq<Item>, ghost parents': seq<nat>)
    requires Search(garden, start, target, trace, parents)
    requires popped <= |trace| && queue == trace[popped..] && queue != []
    requires visited == Visited(trace) && visited <= Cells(garden)
    requires answers == Answers(trace[..popped])
    requires forall m :: 1 <= m < |trace| ==> parents[m] < popped
    requires Expanded(garden, trace, parents, popped)
    ensures !ok ==> !Rectangular(garden)
    ensures ok ==> Search(garden, start, target, trace', parents')
    ensures ok ==> popped + 1 <= |trace'| && queue' == trace'[popped + 1..]
    ensures ok ==> visited' == Visited(trace') && visited' <= Cells(garden)
    ensures ok ==> answers' == Answers(trace'[..popped + 1])
    ensures ok ==> forall m :: 1 <= m < |trace'| ==> parents'[m] < popped + 1
    ensures ok ==> Expanded(garden, trace', parents', popped + 1)
    ensures ok ==> 2 * |Cells(garden) - visited'| + |queue'| < 2 * |Cells(garden) - visited| + |queue|
  {
    var item := queue[0];
    queue', visited', answers', trace', parents' := queue[1..], visited, answers, trace, parents;
    AnswersNext(trace, popped);
    if item.0 % 2 == 0 {
      answers' := answers' + {item.1};
    }
    ok := true;
    if item.0 == 0 {
      ExpandedIdle(garden, trace, parents, popped);
    } else {
      ok, queue', visited', trace', parents' := Expand(garden, start, target, item, popped, queue', visited', trace', parents', popped + 1);
      if ok {
        assert trace'[..popped + 1] == trace[..popped + 1];
      }
    }
  }

  /** An entry with no steps left has nothing to expand. */
  lemma ExpandedIdle(garden: Grid, trace: seq<Item>, parents: seq<nat>, k: nat)
    requires |garden| > 0 && Expanded(garden, trace, parents, k) && k < |trace| && trace[k].0 == 0
    ensures Expanded(garden, trace, parents, k + 1)
  {
  }

  /** Entry `k` is expanded once every neighbouring plot is visited. */
  lemma ExpandedNext(garden: Grid, trace: seq<Item>, parents: seq<nat>, trace': seq<Item>, parents': seq<nat>, k: nat)
    requires |garden| > 0 && Expanded(garden, trace, parents, k) && k < |trace| && trace <= trace' && parents <= parents'
    requires forall e :: 0 <= e < 4 && Plot(garden, Toward(trace[k].1, e)) ==> QueuedBy(trace', parents', Toward(trace[k].1, e), k)
    ensures Expanded(garden, trace', parents', k + 1)
  {
    TowardAdjacent(trace[k].1);
    forall m, q | 0 <= m < k + 1 && m < |trace'| && trace'[m].0 != 0 && Adjacent(trace'[m].1, q) && Plot(garden, q)
      ensures QueuedBy(trace', parents', q, m)
    {
      assert trace'[m] == trace[m];
      if m < k {
        QueuedByGrows(trace, parents, trace', parents', q, m);
      }
    }
  }

  /** The loop over the four directions for entry `k`. */
  method Expand(garden: Grid, start: Pos, target: int, item: Item, ghost k: nat,
                queue: seq<Item>, visited: set<Pos>, ghost trace: seq<Item>, ghost parents: seq<nat>, ghost popped: nat)
    returns (ok: bool, queue': seq<Item>, visited': set<Pos>, ghost trace': seq<Item>, ghost parents': seq<nat>)
    requires Search(garden, start, target, trace, parents)
    requires popped == k + 1 && popped <= |trace| && queue == trace[popped..] && visited == Visited(trace)
    requires trace[k] == item && item.0 != 0 && visited <= Cells(garden)
    requires forall m :: 1 <= m < |trace| ==> parents[m] <= k
    requires Expanded(garden, trace, parents, k)
    ensures !ok ==> !Rectangular(garden)
    ensures ok ==> Search(garden, start, target, trace', parents')
    ensures ok ==> trace <= trace' && parents <= parents' && queue' == trace'[popped..] && visited' == Visited(trace')
    ensures ok ==> forall m :: 1 <= m < |trace'| ==> parents'[m] < popped
    ensures ok ==> Expanded(garden, trace', parents', popped)
    ensures ok ==> visited <= visited' <= Cells(garden)
    ensures ok ==> 2 * |Cells(garden) - visited'| + |queue'| <= 2 * |Cells(garden) - visited| + |queue|
  {
    queue', visited', trace', parents' := queue, visited, trace, parents;
    for d := 0 to 4
      invariant Search(garden, start, target, trace', parents')
      invariant trace <= trace' && parents <= parents' && queue' == trace'[popped..] && visited' == Visited(trace')
      invariant forall m :: 1 <= m < |trace'| ==> parents'[m] <= k
      invariant visited <= visited' <= Cells(garden)
      invariant forall e :: 0 <= e < d && Plot(garden, Toward(item.1, e)) ==> QueuedBy(trace', parents', Toward(item.1, e), k)
      invariant 2 * |Cells(garden) - visited'| + |queue'| <= 2 * |Cells(garden) - visited| + |queue|
    {
      ok, queue', visited', trace', parents' := OfferToward(garden, start, target, item, d, k, queue', visited', trace', parents', popped);
      if !ok {
        return;
      }
    }
    ok := true;
    ExpandedNext(garden, trace, parents, trace', parents', k);
  }

  /** One direction of the loop over directions. */
  method OfferToward(garden: Grid, start: Pos, target: int, item: Item, d: nat, ghost k: nat,
                     queue: seq<Item>, visited: set<Pos>, ghost trace: seq<Item>, ghost parents: seq<nat>, ghost popped: nat)
    returns (ok: bool, queue': seq<Item>, visited': set<Pos>, ghost trace': seq<Item>, ghost parents': seq<nat>)
    requires d < 4 && Search(garden, start, target, trace, parents)
    requires k < popped <= |trace| && queue == trace[popped..] && visited == Visited(trace)
    requires trace[k] == item && item.0 != 0 && visited <= Cells(garden)
    requires forall m :: 1 <= m < |trace| ==> parents[m] <= k
    requires forall e :: 0 <= e < d && Plot(garden, Toward(item.1, e)) ==> QueuedBy(trace, parents, Toward(item.1, e), k)
    ensures !ok ==> !Rectangular(garden)
    ensures ok ==> Search(garden, start, target, trace', parents')
    ensures ok ==> trace <= trace' && parents <= parents' && queue' == trace'[popped..] && visited' == Visited(trace')
    ensures ok ==> forall m :: 1 <= m < |trace'| ==> parents'[m] <= k
    ensures ok ==> visited <= visited' <= Cells(garden)
    ensures ok ==> forall e :: 0 <= e < d + 1 && Plot(garden, Toward(item.1, e)) ==> QueuedBy(trace', parents', Toward(item.1, e), k)
    ensures ok ==> 2 * |Cells(garden) - visited'| + |queue'| <= 2 * |Cells(garden) - visited| + |queue|
  {
    var q := Toward(item.1, d);
    TowardAdjacent(item.1);
    ok, queue', visited', trace', parents' := Offer(garden, start, target, item, q, k, queue, visited, trace, parents, popped);
    if !ok {
      assert |garden[q.0]| != |garden[0]|;
      return;
    }
    if visited' != visited {
      CellsShrink(Cells(garden), visited, q);
    }
    DirsGrow(garden, trace, parents, trace', parents', item.1, k, d);
  }

  /** The directions already tried stay queued as the queue grows. */
  lemma DirsGrow(garden: Grid, trace: seq<Item>, parents: seq<nat>, trace': seq<Item>, parents': seq<nat>, p: Pos, k: nat, d: nat)
    requires |garden| > 0 && d < 4 && trace <= trace' && parents <= parents'
    requires forall e :: 0 <= e < d && Plot(garden, Toward(p, e)) ==> QueuedBy(trace, parents, Toward(p, e), k)
    requires Plot(garden, Toward(p, d)) ==> QueuedBy(trace', parents', Toward(p, d), k)
    ensures forall e :: 0 <= e < d + 1 && Plot(garden, Toward(p, e)) ==> QueuedBy(trace', parents', Toward(p, e), k)
  {
    forall e | 0 <= e < d && Plot(garden, Toward(p, e))
      ensures QueuedBy(trace', parents', Toward(p, e), k)
    {
      QueuedByGrows(trace, parents, trace', parents', Toward(p, e), k);
    }
  }

  // ---------------------------------------------------------------- answers

  /** `w` walks from `from` to `to`, one neighbouring plot at a time. */
  predicate Walk(garden: Grid, from: Pos, to: Pos, w: seq<Pos>)
    requires |garden| > 0
  {
    && |w| >= 1 && w[0] == from && w[|w| - 1] == to
    && (forall i :: 0 <= i < |w| - 1 ==> Adjacent(w[i], w[i + 1]))
    && (forall i :: 1 <= i < |w| ==> Plot(garden, w[i]))
  }

  /** The walk the search took to entry `k`: back along the parents to the
      start. It has one move per step spent. */
  ghost function PathTo(garden: Grid, start: Pos, target: int, trace: seq<Item>, parents: seq<nat>, k: nat): (w: seq<Pos>)
    requires Search(garden, start, target, trace, parents) && k < |trace|
    ensures Walk(garden, start, trace[k].1, w)
    ensures |w| - 1 == target - trace[k].0
    decreases k
  {
    if k == 0 then [start]
    else
      var before := PathTo(garden, start, target, trace, parents, parents[k]);
      assert Move(garden, trace[parents[k]], trace[k]);
      before + [trace[k].1]
  }

  /** With a non-negative target, no entry has negative steps left: the
      search stops expanding at 0. */
  lemma {:induction false} StepsLeft(garden: Grid, start: Pos, target: int, trace: seq<Item>, parents: seq<nat>, k: nat)
    requires Search(garden, start, target, trace, parents) && k < |trace| && target >= 0
    ensures 0 <= trace[k].0 <= target
    decreases k
  {
    if k > 0 {
      StepsLeft(garden, start, target, trace, parents, parents[k]);
      assert Move(garden, trace[parents[k]], trace[k]);
    }
  }

  /** Every answer is the end of a walk from the start of at most `target`
      moves and of the same parity as `target`; stepping back and forth
      along it makes a walk of exactly `target` moves. */
  lemma AnswerReachable(garden: Grid, start: Pos, target: int, trace: seq<Item>, parents: seq<nat>, p: Pos)
    returns (w: seq<Pos>)
    requires Search(garden, start, target, trace, parents) && target >= 0 && p in Answers(trace)
    ensures Walk(garden, start, p, w)
    ensures |w| - 1 <= target && (target - (|w| - 1)) % 2 == 0
  {
    var k :| 0 <= k < |trace| && trace[k].0 % 2 == 0 && trace[k].1 == p;
    StepsLeft(garden, start, target, trace, parents, k);
    w := PathTo(garden, start, target, trace, parents, k);
  }

  /** `p` can be reached from the start in at most `target` moves, with the
      moves left over even, so that they can be spent stepping back and
      forth. */
  ghost predicate Reachable(garden: Grid, start: Pos, target: int, p: Pos)
    requires |garden| > 0
  {
    exists w :: Walk(garden, start, p, w) && |w| - 1 <= target && (target - (|w| - 1)) % 2 == 0
  }

  /** `p` can be reached from the start in exactly `n` moves. */
  ghost predicate ReachableIn(garden: Grid, start: Pos, n: int, p: Pos)
    requires |garden| > 0
  {
    exists w :: Walk(garden, start, p, w) && |w| - 1 == n
  }

  /** Every move changes the parity of the coordinate sum, so the number of
      moves of any walk between two cells has one parity. */
  lemma {:induction false} WalkParity(garden: Grid, from: Pos, to: Pos, w: seq<Pos>)
    requires |garden| > 0 && Walk(garden, from, to, w)
    ensures (|w| - 1) % 2 == (to.0 + to.1 - from.0 - from.1) % 2
    decreases |w|
  {
    if |w| > 1 {
      var init := w[..|w| - 1];
      assert Adjacent(w[|w| - 2], w[|w| - 1]);
      assert Walk(garden, from, w[|w| - 2], init) by {
        forall i | 0 <= i < |init| - 1
          ensures Adjacent(init[i], init[i + 1])
        {
          assert Adjacent(w[i], w[i + 1]);
        }
        forall i | 1 <= i < |init|
          ensures Plot(garden, init[i])
        {
          assert Plot(garden, w[i]);
        }
      }
      WalkParity(garden, from, w[|w| - 2], init);
    }
  }

  /** The queue is first in, first out: the steps left never increase along
      it. */
  lemma {:induction false} StepsOrdered(garden: Grid, start: Pos, target: int, trace: seq<Item>, parents: seq<nat>, a: nat, b: nat)
    requires Search(garden, start, target, trace, parents) && a <= b < |trace|
    ensures trace[a].0 >= trace[b].0
    decreases b
  {
    if a < b {
      var pb := parents[b];
      assert Move(garden, trace[pb], trace[b]);
      if a == 0 {
        StepsOrdered(garden, start, target, trace, parents, 0, pb);
      } else {
        var pa := parents[a];
        assert Move(garden, trace[pa], trace[a]);
        assert pa <= pb;
        StepsOrdered(garden, start, target, trace, parents, pa, pb);
      }
    }
  }

  /** Every cell of a walk from the start was queued, with at least as many
      steps left as the walk leaves. */
  lemma {:induction false} Reached(garden: Grid, start: Pos, target: int, trace: seq<Item>, parents: seq<nat>,
                                   to: Pos, w: seq<Pos>, i: nat)
    returns (k: nat)
    requires Search(garden, start, target, trace, parents) && Expanded(garden, trace, parents, |trace|)
    requires Walk(garden, start, to, w) && i < |w| && i <= target
    ensures k < |trace| && trace[k].1 == w[i] && trace[k].0 >= target - i
    decreases i
  {
    if i == 0 {
      k := 0;
    } else {
      var k0 := Reached(garden, start, target, trace, parents, to, w, i - 1);
      assert Adjacent(w[i - 1], w[i]) && Plot(garden, w[i]);
      assert QueuedBy(trace, parents, w[i], k0);
      var m :| 1 <= m < |trace| && m < |parents| && trace[m].1 == w[i] && parents[m] <= k0;
      assert Move(garden, trace[parents[m]], trace[m]);
      StepsOrdered(garden, start, target, trace, parents, parents[m], k0);
      k := m;
    }
  }

  /** Every plot reachable within `target` moves with an even number left
      over is an answer. */
  lemma AnswersComplete(garden: Grid, start: Pos, target: int, trace: seq<Item>, parents: seq<nat>, p: Pos, w: seq<Pos>)
    requires Search(garden, start, target, trace, parents) && Expanded(garden, trace, parents, |trace|) && target >= 0
    requires Walk(garden, start, p, w) && |w| - 1 <= target && (target - (|w| - 1)) % 2 == 0
    ensures p in Answers(trace)
  {
    var k := Reached(garden, start, target, trace, parents, p, w, |w| - 1);
    TraceParity(garden, start, target, trace, parents, k);
    WalkParity(garden, start, p, w);
    SameParity(target, |w| - 1, trace[k].0, p.0 + p.1 - start.0 - start.1);
  }

  /** The steps spent reaching an entry have the parity of its distance in
      coordinates from the start. */
  lemma TraceParity(garden: Grid, start: Pos, target: int, trace: seq<Item>, parents: seq<nat>, k: nat)
    requires Search(garden, start, target, trace, parents) && k < |trace|
    ensures (target - trace[k].0) % 2 == (trace[k].1.0 + trace[k].1.1 - start.0 - start.1) % 2
  {
    var path := PathTo(garden, start, target, trace, parents, k);
    WalkParity(garden, start, trace[k].1, path);
  }

  lemma SameParity(target: int, m: int, s: int, d: int)
    requires m % 2 == d % 2 && (target - s) % 2 == d % 2 && (target - m) % 2 == 0
    ensures s % 2 == 0
  {
  }

  /** The answers are exactly the plots reachable within `target` moves
      with an even number of moves left over. */
  lemma AnswersExactly(garden: Grid, start: Pos, target: int, trace: seq<Item>, parents: seq<nat>)
    requires Search(garden, start, target, trace, parents) && Expanded(garden, trace, parents, |trace|) && target >= 0
    ensures forall p :: p in Answers(trace) <==> Reachable(garden, start, target, p)
  {
    forall p
      ensures p in Answers(trace) <==> Reachable(garden, start, target, p)
    {
      if p in Answers(trace) {
        var w := AnswerReachable(garden, start, target, trace, parents, p);
      }
      if Reachable(garden, start, target, p) {
        var w :| Walk(garden, start, p, w) && |w| - 1 <= target && (target - (|w| - 1)) % 2 == 0;
        AnswersComplete(garden, start, target, trace, parents, p, w);
      }
    }
  }

  /** A walk with an even number of moves to spare is stretched to exactly
      `n` moves by stepping back and forth at its end. */
  lemma {:induction false} Pad(garden: Grid, start: Pos, p: Pos, w: seq<Pos>, n: int) returns (v: seq<Pos>)
    requires |garden| > 0 && Walk(garden, start, p, w) && Plot(garden, start)
    requires |w| - 1 <= n && (n - (|w| - 1)) % 2 == 0
    requires |w| >= 2 || exists q :: Adjacent(start, q) && Plot(garden, q)
    ensures Walk(garden, start, p, v) && |v| - 1 == n
    decreases n - |w|
  {
    if |w| - 1 == n {
      v := w;
    } else {
      var back: Pos;
      if |w| >= 2 {
        back := w[|w| - 2];
        assert Adjacent(back, p);
      } else {
        var q :| Adjacent(start, q) && Plot(garden, q);
        back := q;
      }
      var w' := w + [back, p];
      assert Walk(garden, start, p, w') by {
        forall i | 0 <= i < |w'| - 1
          ensures Adjacent(w'[i], w'[i + 1])
        {
          if i < |w| - 1 {
            assert Adjacent(w[i], w[i + 1]);
          }
        }
        forall i | 1 <= i < |w'|
          ensures Plot(garden, w'[i])
        {
          if i < |w| {
            assert w'[i] == w[i];
          }
        }
      }
      v := Pad(garden, start, p, w', n);
    }
  }

  /** In terms of walks of exactly `target` moves: each such walk ends at an
      answer; and each answer ends one, when the start is a plot with a
      neighbouring plot to step to. */
  lemma AnswersInExactMoves(garden: Grid, start: Pos, target: int, trace: seq<Item>, parents: seq<nat>, p: Pos)
    requires Search(garden, start, target, trace, parents) && Expanded(garden, trace, parents, |trace|) && target >= 0
    ensures ReachableIn(garden, start, target, p) ==> p in Answers(trace)
    ensures p in Answers(trace) && Plot(garden, start) && (exists q :: Adjacent(start, q) && Plot(garden, q))
      ==> ReachableIn(garden, start, target, p)
  {
    if ReachableIn(garden, start, target, p) {
      var w :| Walk(garden, start, p, w) && |w| - 1 == target;
      AnswersComplete(garden, start, target, trace, parents, p, w);
    }
    if p in Answers(trace) && Plot(garden, start) && (exists q :: Adjacent(start, q) && Plot(garden, q)) {
      var w := AnswerReachable(garden, start, target, trace, parents, p);
      var v := Pad(garden, start, p, w, target);
    }
  }

  /** `day21_part1`: the number of plots that are answers after
      `TargetSteps` steps. Panics on an empty garden, as `garden[0]` does. */
  method Part1(garden: Grid) returns (r: Result<nat>, ghost trace: seq<Item>, ghost parents: seq<nat>)
    ensures garden == [] ==> r == Panic(IndexOutOfBounds)
    ensures Rectangular(garden) && garden != [] ==> r.Ok?
    ensures r.Ok? ==> Search(garden, StartOf(garden), TargetSteps, trace, parents) && Expanded(garden, trace, parents, |trace|)
    ensures r.Ok? ==> r.value == |Answers(trace)|
    ensures r.Ok? ==> forall p :: p in Answers(trace) <==> Reachable(garden, StartOf(garden), TargetSteps, p)
  {
    if |garden| == 0 {
      return Panic(IndexOutOfBounds), [], [];
    }
    var start := FindStart(garden);
    var answers;
    answers, trace, parents := Explore(garden, start, TargetSteps);
    if answers.Panic? {
      return Panic(answers.reason), trace, parents;
    }
    r := Ok(|answers.value|);
    AnswersExactly(garden, start, TargetSteps, trace, parents);
  }
}
