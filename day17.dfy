/** Day 17: a cart of lava carries heat loss across a grid of digits. It may
    run straight for a limited number of cells and may turn left or right,
    never back. The search pops states from a heap ordered by heat loss
    reversed (so the lowest heat loss comes first), expands each
    (position, direction, run length) summary once, and stops when the
    bottom-right cell is popped. Part 1 runs at most 3 cells straight and
    may always turn; part 2 runs at most 10 and turns only after 4. */
module Day17 {
  import opened Wrappers
  import Strings
  import Grids

  type Pos = (int, int)

  datatype State = State(hl: nat, pos: Pos, dir: Pos, dirSteps: nat)

  /** Where the search starts: top-left, no direction yet, no run. */
  const Start := State(0, (0, 0), (0, 0), 0)

  /** The order in which the turn directions are tried. */
  const Compass: seq<Pos> := [(1, 0), (0, 1), (-1, 0), (0, -1)]

  function Reverse(d: Pos): Pos {
    (-d.0, -d.1)
  }

  function Add(p: Pos, d: Pos): Pos {
    (p.0 + d.0, p.1 + d.1)
  }

  // ------------------------------------------------------------------ order

  /** `summary`: the state without its heat loss; the key of the seen set. */
  function Summary(s: State): (Pos, Pos, nat) {
    (s.pos, s.dir, s.dirSteps)
  }

  /** Two states share a summary exactly when they differ in heat loss at most. */
  lemma SummaryDropsHl(a: State, b: State)
    ensures Summary(a) == Summary(b) <==> a == b.(hl := a.hl)
  {
    if a == b.(hl := a.hl) {
      assert Summary(a) == Summary(b.(hl := a.hl));
    }
  }

  datatype Ordering = Less | Equal | Greater

  function CompareNat(x: nat, y: nat): Ordering {
    if x < y then Less else if x == y then Equal else Greater
  }

  /** `Ord::cmp` on states: the heat losses compared the other way round. */
  function Cmp(a: State, b: State): (r: Ordering)
    ensures r == Greater <==> a.hl < b.hl
    ensures r == Less <==> a.hl > b.hl
    ensures r == Equal <==> a.hl == b.hl
  {
    CompareNat(b.hl, a.hl)
  }

  /** `BinaryHeap::pop` removes a greatest element under `Cmp`, which is one
      with the least heat loss. The heap leaves the order among equal heat
      losses open; taking the first is this model's choice, and the answer
      does not depend on it (`Search` proves it minimal whichever is taken). */
  method PopIndex(heap: seq<State>) returns (k: nat)
    requires heap != []
    ensures k < |heap|
    ensures forall s :: s in heap ==> Cmp(heap[k], s) != Less
    ensures forall s :: s in heap ==> heap[k].hl <= s.hl
  {
    k := 0;
    var i := 1;
    while i < |heap|
      invariant 1 <= i <= |heap| && k < i
      invariant forall j :: 0 <= j < i ==> heap[k].hl <= heap[j].hl
    {
      if Cmp(heap[i], heap[k]) == Greater {
        k := i;
      }
      i := i + 1;
    }
  }

  // ------------------------------------------------------------------ moves

  /** The run-length rules of the two parts. */
  datatype Rules = Rules(maxRun: nat, minRun: nat)

  /** Part 1: at most 3 cells straight; turning is always allowed. */
  const Part1Rules := Rules(3, 0)

  /** Part 2: at most 10 cells straight, and at least 4 before a turn. */
  const Part2Rules := Rules(10, 4)

  predicate CanGoStraight(rules: Rules, s: State) {
    s.dir != (0, 0) && s.dirSteps < rules.maxRun
  }

  predicate CanTurn(rules: Rules, s: State) {
    s.dirSteps >= rules.minRun || s.dir == (0, 0)
  }

  /** Within the bounds the search checks: the row count and the first row's
      length. */
  predicate InBounds(grid: seq<seq<nat>>, p: Pos) {
    grid != [] && 0 <= p.0 < |grid| && 0 <= p.1 < |grid[0]|
  }

  /** Within the bounds and present in its own row, so it can be read. */
  predicate Readable(grid: seq<seq<nat>>, p: Pos) {
    InBounds(grid, p) && p.1 < |grid[p.0]|
  }

  /** One legal move of the cart from `a` to `b`: `b` is the cell entered in
      `b`'s direction, with its heat loss added. Either the run goes on in the
      same direction, or the cart turns to a compass direction that is
      neither its own nor its reverse and starts a new run of 1. */
  predicate Move(grid: seq<seq<nat>>, rules: Rules, a: State, b: State) {
    b.pos == Add(a.pos, b.dir) && Readable(grid, b.pos)
    && b.hl == a.hl + grid[b.pos.0][b.pos.1]
    && ((b.dir == a.dir && CanGoStraight(rules, a) && b.dirSteps == a.dirSteps + 1)
        || (CanTurn(rules, a) && b.dir in Compass && b.dir != a.dir
            && b.dir != Reverse(a.dir) && b.dirSteps == 1))
  }

  function Listed(o: Option<State>): seq<State> {
    if o.Some? then [o.value] else []
  }

  /** The cart entering the next cell in direction `dir`: nothing when that
      cell is outside the checked bounds, a panic when its row is too short. */
  function Enter(grid: seq<seq<nat>>, curr: State, dir: Pos, steps: nat): Result<Option<State>> {
    var p := Add(curr.pos, dir);
    if !InBounds(grid, p) then Ok(None)
    else if p.1 >= |grid[p.0]| then Panic(IndexOutOfBounds)
    else Ok(Some(State(curr.hl + grid[p.0][p.1], p, dir, steps)))
  }

  /** The turn in direction `d`, when `d` is neither the current direction
      nor its reverse. */
  function Turn(grid: seq<seq<nat>>, curr: State, d: Pos): Result<Option<State>> {
    if d != curr.dir && d != Reverse(curr.dir) then Enter(grid, curr, d, 1) else Ok(None)
  }

  /** The turns pushed by the `for dir in ...` loop, in order; the first
      panic stops the loop. */
  function Turns(grid: seq<seq<nat>>, curr: State, dirs: seq<Pos>): Result<seq<State>> {
    if dirs == [] then Ok([])
    else
      var init :- Turns(grid, curr, dirs[..|dirs| - 1]);
      var last :- Turn(grid, curr, dirs[|dirs| - 1]);
      Ok(init + Listed(last))
  }

  lemma {:induction false} TurnsPanicStops(grid: seq<seq<nat>>, curr: State, dirs: seq<Pos>, k: nat)
    requires k <= |dirs| && Turns(grid, curr, dirs[..k]).Panic?
    ensures Turns(grid, curr, dirs) == Turns(grid, curr, dirs[..k])
    decreases |dirs| - k
  {
    if k < |dirs| {
      assert dirs[..|dirs| - 1][..k] == dirs[..k];
      TurnsPanicStops(grid, curr, dirs[..|dirs| - 1], k);
    } else {
      assert dirs[..k] == dirs;
    }
  }

  /** Every state pushed when `curr` is expanded, in push order. */
  function Successors(grid: seq<seq<nat>>, rules: Rules, curr: State): Result<seq<State>> {
    var straight :- if CanGoStraight(rules, curr)
                    then Enter(grid, curr, curr.dir, curr.dirSteps + 1) else Ok(None);
    var turns :- if CanTurn(rules, curr) then Turns(grid, curr, Compass) else Ok([]);
    Ok(Listed(straight) + turns)
  }

  lemma {:induction false} TurnsSound(grid: seq<seq<nat>>, rules: Rules, curr: State, dirs: seq<Pos>)
    requires CanTurn(rules, curr) && forall d :: d in dirs ==> d in Compass
    requires Turns(grid, curr, dirs).Ok?
    ensures forall n :: n in Turns(grid, curr, dirs).value ==> Move(grid, rules, curr, n) && n.dir in dirs
    decreases |dirs|
  {
    if dirs != [] {
      var init := dirs[..|dirs| - 1];
      assert forall d :: d in init ==> d in dirs;
      TurnsSound(grid, rules, curr, init);
    }
  }

  lemma {:induction false} TurnsComplete(grid: seq<seq<nat>>, curr: State, dirs: seq<Pos>, n: State)
    requires Turns(grid, curr, dirs).Ok?
    requires n.dir in dirs && n.dir != curr.dir && n.dir != Reverse(curr.dir) && n.dirSteps == 1
    requires n.pos == Add(curr.pos, n.dir) && Readable(grid, n.pos)
    requires n.hl == curr.hl + grid[n.pos.0][n.pos.1]
    ensures n in Turns(grid, curr, dirs).value
    decreases |dirs|
  {
    var init := dirs[..|dirs| - 1];
    if dirs[|dirs| - 1] != n.dir {
      assert dirs == init + [dirs[|dirs| - 1]];
      assert n.dir in init;
      TurnsComplete(grid, curr, init, n);
    }
  }

  lemma {:induction false} TurnsPanicReason(grid: seq<seq<nat>>, curr: State, dirs: seq<Pos>)
    requires Turns(grid, curr, dirs).Panic?
    ensures Turns(grid, curr, dirs).reason == IndexOutOfBounds
    decreases |dirs|
  {
    if Turns(grid, curr, dirs[..|dirs| - 1]).Panic? {
      TurnsPanicReason(grid, curr, dirs[..|dirs| - 1]);
    }
  }

  /** The only panic of an expansion is a cell read past the end of a row. */
  lemma SuccessorsPanicReason(grid: seq<seq<nat>>, rules: Rules, curr: State)
    requires Successors(grid, rules, curr).Panic?
    ensures Successors(grid, rules, curr).reason == IndexOutOfBounds
  {
    if CanTurn(rules, curr) && Turns(grid, curr, Compass).Panic? {
      TurnsPanicReason(grid, curr, Compass);
    }
  }

  /** Every pushed state is a legal move from the expanded one. */
  lemma SuccessorsSound(grid: seq<seq<nat>>, rules: Rules, curr: State)
    requires Successors(grid, rules, curr).Ok?
    ensures forall n :: n in Successors(grid, rules, curr).value ==> Move(grid, rules, curr, n)
  {
    if CanTurn(rules, curr) {
      TurnsSound(grid, rules, curr, Compass);
    }
  }

  /** Every legal move from the expanded state is pushed. */
  lemma SuccessorsComplete(grid: seq<seq<nat>>, rules: Rules, curr: State, n: State)
    requires Successors(grid, rules, curr).Ok? && Move(grid, rules, curr, n)
    ensures n in Successors(grid, rules, curr).value
  {
    if !(n.dir == curr.dir && CanGoStraight(rules, curr) && n.dirSteps == curr.dirSteps + 1) {
      TurnsComplete(grid, curr, Compass, n);
    }
  }

  lemma {:induction false} TurnsRectangular(grid: seq<seq<nat>>, curr: State, dirs: seq<Pos>)
    requires Grids.Rectangular(grid)
    ensures Turns(grid, curr, dirs).Ok?
    decreases |dirs|
  {
    if dirs != [] {
      TurnsRectangular(grid, curr, dirs[..|dirs| - 1]);
    }
  }

  /** On a rectangular grid every in-bounds cell is readable: no panic. */
  lemma SuccessorsRectangular(grid: seq<seq<nat>>, rules: Rules, curr: State)
    requires Grids.Rectangular(grid)
    ensures Successors(grid, rules, curr).Ok?
  {
    TurnsRectangular(grid, curr, Compass);
  }

  /** The expansion of one state, as the loop body writes it: the straight
      move first, then the four directions in compass order. */
  method Expand(grid: seq<seq<nat>>, rules: Rules, curr: State) returns (r: Result<seq<State>>)
    ensures r == Successors(grid, rules, curr)
  {
    var pushed: seq<State> := [];
    if CanGoStraight(rules, curr) {
      var next := curr.(pos := Add(curr.pos, curr.dir), dirSteps := curr.dirSteps + 1);
      if InBounds(grid, next.pos) {
        if next.pos.1 >= |grid[next.pos.0]| {
          return Panic(IndexOutOfBounds);
        }
        next := next.(hl := next.hl + grid[next.pos.0][next.pos.1]);
        pushed := pushed + [next];
      }
    }
    ghost var st := if CanGoStraight(rules, curr) then Enter(grid, curr, curr.dir, curr.dirSteps + 1) else Ok(None);
    assert st.Ok? && Listed(st.value) == pushed;
    if CanTurn(rules, curr) {
      r := PushTurns(grid, curr, pushed);
    } else {
      assert pushed + [] == pushed;
      r := Ok(pushed);
    }
  }

  /** The `for dir in ...` loop of the expansion: each turn that stays in
      bounds is pushed after `pushed`. */
  method PushTurns(grid: seq<seq<nat>>, curr: State, pushed: seq<State>) returns (r: Result<seq<State>>)
    ensures var t := Turns(grid, curr, Compass);
      r == if t.Ok? then Ok(pushed + t.value) else Panic(t.reason)
  {
    var out := pushed;
    var i := 0;
    while i < |Compass|
      invariant 0 <= i <= |Compass|
      invariant Turns(grid, curr, Compass[..i]).Ok?
      invariant out == pushed + Turns(grid, curr, Compass[..i]).value
    {
      var dir := Compass[i];
      assert Compass[..i + 1][..i] == Compass[..i];
      if dir != curr.dir && dir != Reverse(curr.dir) {
        var next := curr.(dir := dir, pos := Add(curr.pos, dir), dirSteps := 1);
        if InBounds(grid, next.pos) {
          if next.pos.1 >= |grid[next.pos.0]| {
            assert Turn(grid, curr, Compass[..i + 1][i]) == Panic(IndexOutOfBounds);
            assert Turns(grid, curr, Compass[..i + 1]) == Panic(IndexOutOfBounds);
            TurnsPanicStops(grid, curr, Compass, i + 1);
            return Panic(IndexOutOfBounds);
          }
          next := next.(hl := next.hl + grid[next.pos.0][next.pos.1]);
          out := out + [next];
        }
      }
      i := i + 1;
    }
    assert Compass[..4] == Compass;
    r := Ok(out);
  }

  // ------------------------------------------------------------------ walks

  /** A walk of the cart from the start, each state a legal move from the one
      before. A state's heat loss is the sum of the cells entered so far. */
  predicate IsWalk(grid: seq<seq<nat>>, rules: Rules, w: seq<State>) {
    w != [] && w[0] == Start
    && forall i :: 0 < i < |w| ==> Move(grid, rules, w[i - 1], w[i])
  }

  /** On a walk the heat loss never decreases, and no run is longer than the
      rules allow. */
  lemma {:induction false} WalkBounds(grid: seq<seq<nat>>, rules: Rules, w: seq<State>)
    requires IsWalk(grid, rules, w) && rules.maxRun >= 1
    ensures forall i :: 0 <= i < |w| ==> w[i].dirSteps <= rules.maxRun
    ensures forall i, j :: 0 <= i <= j < |w| ==> w[i].hl <= w[j].hl
    decreases |w|
  {
    if |w| > 1 {
      var init := w[..|w| - 1];
      assert IsWalk(grid, rules, init) by {
        forall i | 0 < i < |init|
          ensures Move(grid, rules, init[i - 1], init[i])
        {
          assert Move(grid, rules, w[i - 1], w[i]);
        }
      }
      WalkBounds(grid, rules, init);
      assert Move(grid, rules, w[|w| - 2], w[|w| - 1]);
      forall i, j | 0 <= i <= j < |w|
        ensures w[i].hl <= w[j].hl
      {
        if j == |w| - 1 && i < j {
          assert init[i].hl <= init[|w| - 2].hl;
        }
      }
    }
  }

  /** Part 2: a turn is only ever taken after a run of at least 4, except
      from the start. */
  lemma WalkTurnsLate(grid: seq<seq<nat>>, w: seq<State>, i: nat)
    requires IsWalk(grid, Part2Rules, w) && 0 < i < |w| && w[i].dirSteps == 1
    ensures w[i - 1].dirSteps >= 4 || w[i - 1] == Start
  {
    assert Move(grid, Part2Rules, w[i - 1], w[i]);
    if i > 1 {
      assert Move(grid, Part2Rules, w[i - 2], w[i - 1]);
      assert w[i - 1].dir != (0, 0);
    }
  }

  /** Extending every pending walk of `curr`'s by one pushed state. */
  ghost function Extend(path: seq<State>, succ: seq<State>): (r: seq<seq<State>>)
    ensures |r| == |succ|
    ensures forall k :: 0 <= k < |succ| ==> r[k] == path + [succ[k]]
  {
    seq(|succ|, k requires 0 <= k < |succ| => path + [succ[k]])
  }

  // ------------------------------------------------------------------ search

  /** The set of summaries of the expanded states. */
  ghost function Summaries(expanded: seq<State>): set<(Pos, Pos, nat)> {
    set k | 0 <= k < |expanded| :: Summary(expanded[k])
  }

  ghost predicate Distinct(expanded: seq<State>) {
    forall i, j :: 0 <= i < j < |expanded| ==> Summary(expanded[i]) != Summary(expanded[j])
  }

  lemma ExpandOnce(expanded: seq<State>, s: State)
    requires Distinct(expanded) && Summary(s) !in Summaries(expanded)
    ensures Summaries(expanded + [s]) == Summaries(expanded) + {Summary(s)}
    ensures Distinct(expanded + [s])
  {
    var e := expanded + [s];
    forall i | 0 <= i < |expanded|
      ensures Summary(e[i]) != Summary(s) && Summary(e[i]) in Summaries(expanded)
    {
      assert e[i] == expanded[i];
    }
    assert Summary(e[|expanded|]) in Summaries(e);
    forall x | x in Summaries(expanded)
      ensures x in Summaries(e)
    {
      var k :| 0 <= k < |expanded| && x == Summary(expanded[k]);
      assert e[k] == expanded[k];
    }
  }

  /** Everything pending on the heap was reached by a walk, recorded in
      `paths`, and costs at least the heat loss last popped. */
  ghost predicate Pending(grid: seq<seq<nat>>, rules: Rules, heap: seq<State>, paths: seq<seq<State>>, hl: nat) {
    |paths| == |heap|
    && (forall k :: 0 <= k < |heap| ==> IsWalk(grid, rules, paths[k]) && paths[k][|paths[k]| - 1] == heap[k])
    && (forall k :: 0 <= k < |heap| ==> hl <= heap[k].hl)
  }

  lemma PendingRemove(grid: seq<seq<nat>>, rules: Rules, heap: seq<State>, paths: seq<seq<State>>, hl: nat, k: nat, hl': nat)
    requires Pending(grid, rules, heap, paths, hl) && k < |heap|
    requires forall s :: s in heap ==> hl' <= s.hl
    ensures Pending(grid, rules, heap[..k] + heap[k + 1..], paths[..k] + paths[k + 1..], hl')
  {
    var h := heap[..k] + heap[k + 1..];
    var p := paths[..k] + paths[k + 1..];
    forall j | 0 <= j < |h|
      ensures IsWalk(grid, rules, p[j]) && p[j][|p[j]| - 1] == h[j] && hl' <= h[j].hl
    {
      var src := if j < k then j else j + 1;
      assert h[j] == heap[src] && p[j] == paths[src];
    }
  }

  lemma PendingPush(grid: seq<seq<nat>>, rules: Rules, heap: seq<State>, paths: seq<seq<State>>,
                    hl: nat, path: seq<State>, curr: State, succ: seq<State>)
    requires Pending(grid, rules, heap, paths, hl)
    requires IsWalk(grid, rules, path) && path[|path| - 1] == curr && hl <= curr.hl
    requires Successors(grid, rules, curr) == Ok(succ)
    ensures Pending(grid, rules, heap + succ, paths + Extend(path, succ), hl)
  {
    SuccessorsSound(grid, rules, curr);
    var h := heap + succ;
    var p := paths + Extend(path, succ);
    forall j | |heap| <= j < |h|
      ensures IsWalk(grid, rules, p[j]) && p[j][|p[j]| - 1] == h[j] && hl <= h[j].hl
    {
      var n := succ[j - |heap|];
      assert n in succ && h[j] == n && p[j] == path + [n];
      assert Move(grid, rules, curr, n);
      assert IsWalk(grid, rules, p[j]) by {
        forall i | 0 < i < |p[j]|
          ensures Move(grid, rules, p[j][i - 1], p[j][i])
        {
          if i < |path| {
            assert p[j][i - 1] == path[i - 1] && p[j][i] == path[i];
          }
        }
      }
    }
    forall j | 0 <= j < |heap|
      ensures IsWalk(grid, rules, p[j]) && p[j][|p[j]| - 1] == h[j] && hl <= h[j].hl
    {
      assert p[j] == paths[j] && h[j] == heap[j];
    }
  }

  /** Some pending state has `s`'s summary and costs no more. */
  ghost predicate Covered(heap: seq<State>, s: State) {
    exists k :: 0 <= k < |heap| && Summary(heap[k]) == Summary(s) && heap[k].hl <= s.hl
  }

  /** `w[i]` is the first state of the walk `w` not yet expanded, right after
      an expanded one. */
  ghost predicate Boundary(grid: seq<seq<nat>>, rules: Rules, seen: set<(Pos, Pos, nat)>, w: seq<State>, i: int) {
    IsWalk(grid, rules, w) && 0 < i < |w| && Summary(w[i - 1]) in seen && Summary(w[i]) !in seen
  }

  /** The invariant of the search: where a walk leaves the expanded summaries,
      the heap holds a state no dearer than the walk's. */
  ghost predicate Frontier(grid: seq<seq<nat>>, rules: Rules, heap: seq<State>, seen: set<(Pos, Pos, nat)>) {
    (Summary(Start) !in seen ==> Covered(heap, Start))
    && forall w: seq<State>, i: int :: Boundary(grid, rules, seen, w, i) ==> Covered(heap, w[i])
  }

  lemma FrontierInit(grid: seq<seq<nat>>, rules: Rules)
    ensures Frontier(grid, rules, [Start], {})
  {
    assert [Start][0] == Start;
  }

  lemma CoveredRemove(heap: seq<State>, k0: nat, s: State)
    requires k0 < |heap| && Covered(heap, s) && Summary(heap[k0]) != Summary(s)
    ensures Covered(heap[..k0] + heap[k0 + 1..], s)
  {
    var h := heap[..k0] + heap[k0 + 1..];
    var k :| 0 <= k < |heap| && Summary(heap[k]) == Summary(s) && heap[k].hl <= s.hl;
    if k < k0 {
      assert h[k] == heap[k];
    } else {
      assert h[k - 1] == heap[k];
    }
  }

  lemma CoveredPush(heap: seq<State>, succ: seq<State>, s: State)
    requires Covered(heap, s)
    ensures Covered(heap + succ, s)
  {
    var k :| 0 <= k < |heap| && Summary(heap[k]) == Summary(s) && heap[k].hl <= s.hl;
    assert (heap + succ)[k] == heap[k];
  }

  lemma CoveredBy(heap: seq<State>, succ: seq<State>, n: State, s: State)
    requires n in succ && Summary(n) == Summary(s) && n.hl <= s.hl
    ensures Covered(heap + succ, s)
  {
    var m :| 0 <= m < |succ| && succ[m] == n;
    assert (heap + succ)[|heap| + m] == n;
  }

  /** Heat loss never decreases along a walk. */
  lemma {:induction false} WalkHlMono(grid: seq<seq<nat>>, rules: Rules, w: seq<State>, i: nat, j: nat)
    requires IsWalk(grid, rules, w) && i <= j < |w|
    ensures w[i].hl <= w[j].hl
    decreases j
  {
    if i < j {
      WalkHlMono(grid, rules, w, i, j - 1);
      assert Move(grid, rules, w[j - 1], w[j]);
    }
  }

  /** The first unexpanded state of a walk, at or before an unexpanded one. */
  lemma {:induction false} FirstUnseen(grid: seq<seq<nat>>, rules: Rules, seen: set<(Pos, Pos, nat)>, w: seq<State>, j: nat)
    returns (f: nat)
    requires IsWalk(grid, rules, w) && j < |w| && Summary(w[j]) !in seen
    ensures f <= j && Summary(w[f]) !in seen && (f == 0 || Boundary(grid, rules, seen, w, f))
    decreases j
  {
    if j == 0 || Summary(w[j - 1]) in seen {
      f := j;
    } else {
      f := FirstUnseen(grid, rules, seen, w, j - 1);
    }
  }

  /** A least pending state costs no more than any unexpanded state of any
      walk. */
  lemma CurrOptimal(grid: seq<seq<nat>>, rules: Rules, heap: seq<State>, seen: set<(Pos, Pos, nat)>,
                    curr: State, w: seq<State>, j: nat)
    requires Frontier(grid, rules, heap, seen)
    requires forall s :: s in heap ==> curr.hl <= s.hl
    requires IsWalk(grid, rules, w) && j < |w| && Summary(w[j]) !in seen
    ensures curr.hl <= w[j].hl
  {
    var f := FirstUnseen(grid, rules, seen, w, j);
    assert Covered(heap, w[f]);
    var k :| 0 <= k < |heap| && Summary(heap[k]) == Summary(w[f]) && heap[k].hl <= w[f].hl;
    assert heap[k] in heap;
    WalkHlMono(grid, rules, w, f, j);
  }

  /** Popping a state whose summary was already expanded keeps the frontier. */
  lemma FrontierSkip(grid: seq<seq<nat>>, rules: Rules, heap: seq<State>, seen: set<(Pos, Pos, nat)>, k0: nat)
    requires Frontier(grid, rules, heap, seen) && k0 < |heap| && Summary(heap[k0]) in seen
    ensures Frontier(grid, rules, heap[..k0] + heap[k0 + 1..], seen)
  {
    var h := heap[..k0] + heap[k0 + 1..];
    if Summary(Start) !in seen {
      CoveredRemove(heap, k0, Start);
    }
    forall w: seq<State>, i: int | Boundary(grid, rules, seen, w, i)
      ensures Covered(h, w[i])
    {
      CoveredRemove(heap, k0, w[i]);
    }
  }

  /** Expanding a least pending state and pushing its successors keeps the
      frontier. */
  lemma FrontierExpand(grid: seq<seq<nat>>, rules: Rules, heap: seq<State>, seen: set<(Pos, Pos, nat)>,
                       k0: nat, succ: seq<State>)
    requires Frontier(grid, rules, heap, seen) && k0 < |heap|
    requires forall s :: s in heap ==> heap[k0].hl <= s.hl
    requires Summary(heap[k0]) !in seen
    requires forall n :: Move(grid, rules, heap[k0], n) ==> n in succ
    ensures Frontier(grid, rules, heap[..k0] + heap[k0 + 1..] + succ, seen + {Summary(heap[k0])})
  {
    var curr := heap[k0];
    var rest := heap[..k0] + heap[k0 + 1..];
    var seen' := seen + {Summary(curr)};
    if Summary(Start) !in seen' {
      CoveredRemove(heap, k0, Start);
      CoveredPush(rest, succ, Start);
    }
    forall w: seq<State>, i: int | Boundary(grid, rules, seen', w, i)
      ensures Covered(rest + succ, w[i])
    {
      if Summary(w[i - 1]) in seen {
        assert Boundary(grid, rules, seen, w, i);
        CoveredRemove(heap, k0, w[i]);
        CoveredPush(rest, succ, w[i]);
      } else {
        assert Move(grid, rules, w[i - 1], w[i]);
        CurrOptimal(grid, rules, heap, seen, curr, w, i - 1);
        FollowMove(grid, rules, curr, w[i - 1], w[i], rest, succ);
      }
    }
  }

  /** A move from a state with `curr`'s summary is matched by a pushed
      successor of `curr` that costs no more. */
  lemma FollowMove(grid: seq<seq<nat>>, rules: Rules, curr: State, a: State, b: State, rest: seq<State>, succ: seq<State>)
    requires Move(grid, rules, a, b) && Summary(a) == Summary(curr) && curr.hl <= a.hl
    requires forall n :: Move(grid, rules, curr, n) ==> n in succ
    ensures Covered(rest + succ, b)
  {
    var n := b.(hl := curr.hl + grid[b.pos.0][b.pos.1]);
    assert Move(grid, rules, curr, n);
    CoveredBy(rest, succ, n, b);
  }

  /** No legal walk reaches `target` for less than `hl`. */
  ghost predicate Cheapest(grid: seq<seq<nat>>, rules: Rules, target: Pos, hl: nat) {
    forall w: seq<State> {:trigger IsWalk(grid, rules, w)} :: IsWalk(grid, rules, w) && w[|w| - 1].pos == target ==> hl <= w[|w| - 1].hl
  }

  /** When the target is popped, no legal walk reaches it for less. */
  lemma TargetOptimal(grid: seq<seq<nat>>, rules: Rules, heap: seq<State>, seen: set<(Pos, Pos, nat)>,
                      k0: nat, target: Pos)
    requires Frontier(grid, rules, heap, seen) && k0 < |heap|
    requires forall s :: s in heap ==> heap[k0].hl <= s.hl
    requires forall x :: x in seen ==> x.0 != target
    ensures Cheapest(grid, rules, target, heap[k0].hl)
  {
    forall w: seq<State> | IsWalk(grid, rules, w) && w[|w| - 1].pos == target
      ensures heap[k0].hl <= w[|w| - 1].hl
    {
      CurrOptimal(grid, rules, heap, seen, heap[k0], w, |w| - 1);
    }
  }

  /** No legal walk ends at `target`. */
  ghost predicate Unreachable(grid: seq<seq<nat>>, rules: Rules, target: Pos) {
    forall w: seq<State> {:trigger IsWalk(grid, rules, w)} :: IsWalk(grid, rules, w) ==> w[|w| - 1].pos != target
  }

  /** When the heap runs empty without the target popped, every state of
      every legal walk has been expanded, so no legal walk reaches it. */
  lemma EmptyHeapUnreachable(grid: seq<seq<nat>>, rules: Rules, seen: set<(Pos, Pos, nat)>, target: Pos)
    requires Frontier(grid, rules, [], seen)
    requires forall x :: x in seen ==> x.0 != target
    ensures Unreachable(grid, rules, target)
  {
    forall w: seq<State> | IsWalk(grid, rules, w)
      ensures w[|w| - 1].pos != target
    {
      if Summary(w[|w| - 1]) !in seen {
        var f := FirstUnseen(grid, rules, seen, w, |w| - 1);
      }
    }
  }

  /** The invariant of the search loop. */
  ghost predicate SearchInv(grid: seq<seq<nat>>, rules: Rules, target: Pos, heap: seq<State>, paths: seq<seq<State>>,
                            seen: set<(Pos, Pos, nat)>, expanded: seq<State>, hl: nat, walk: seq<State>) {
    Pending(grid, rules, heap, paths, hl)
    && IsWalk(grid, rules, walk) && walk[|walk| - 1].hl == hl
    && seen == Summaries(expanded) && Distinct(expanded)
    && (forall i, j :: 0 <= i <= j < |expanded| ==> expanded[i].hl <= expanded[j].hl)
    && (forall i :: 0 <= i < |expanded| ==> expanded[i].hl <= hl)
    && Frontier(grid, rules, heap, seen)
    && (forall x :: x in seen ==> x.0 != target)
  }

  /** The invariant holds before the first pop. */
  lemma SearchInit(grid: seq<seq<nat>>, rules: Rules, target: Pos)
    ensures SearchInv(grid, rules, target, [Start], [[Start]], {}, [], 0, [Start])
  {
    FrontierInit(grid, rules);
    assert Summaries([]) == {};
    assert Pending(grid, rules, [Start], [[Start]], 0) by {
      assert IsWalk(grid, rules, [Start]);
    }
  }

  /** Expanding the least pending state keeps the expanded sequence distinct
      and ordered by heat loss. */
  lemma ExpandedGrows(grid: seq<seq<nat>>, rules: Rules, target: Pos, heap: seq<State>, paths: seq<seq<State>>,
                      seen: set<(Pos, Pos, nat)>, expanded: seq<State>, hl: nat, walk: seq<State>, k: nat)
    requires SearchInv(grid, rules, target, heap, paths, seen, expanded, hl, walk)
    requires k < |heap| && Summary(heap[k]) !in seen
    ensures seen + {Summary(heap[k])} == Summaries(expanded + [heap[k]]) && Distinct(expanded + [heap[k]])
    ensures forall i, j :: 0 <= i <= j < |expanded| + 1 ==> (expanded + [heap[k]])[i].hl <= (expanded + [heap[k]])[j].hl
    ensures forall i :: 0 <= i < |expanded| + 1 ==> (expanded + [heap[k]])[i].hl <= heap[k].hl
  {
    ExpandOnce(expanded, heap[k]);
    var e := expanded + [heap[k]];
    forall i | 0 <= i < |e|
      ensures e[i].hl <= heap[k].hl
    {
      if i < |expanded| {
        assert e[i] == expanded[i];
      }
    }
  }

  /** Popping an already expanded summary keeps the invariant. */
  lemma PopSkip(grid: seq<seq<nat>>, rules: Rules, target: Pos, heap: seq<State>, paths: seq<seq<State>>,
                seen: set<(Pos, Pos, nat)>, expanded: seq<State>, hl: nat, walk: seq<State>, k: nat)
    requires SearchInv(grid, rules, target, heap, paths, seen, expanded, hl, walk)
    requires k < |heap| && (forall s :: s in heap ==> heap[k].hl <= s.hl) && Summary(heap[k]) in seen
    ensures SearchInv(grid, rules, target, heap[..k] + heap[k + 1..], paths[..k] + paths[k + 1..], seen, expanded,
                      heap[k].hl, paths[k])
  {
    assert heap[k] in heap;
    PendingRemove(grid, rules, heap, paths, hl, k, heap[k].hl);
    FrontierSkip(grid, rules, heap, seen, k);
  }

  /** Expanding a new summary and pushing its successors keeps the invariant. */
  lemma PopExpand(grid: seq<seq<nat>>, rules: Rules, target: Pos, heap: seq<State>, paths: seq<seq<State>>,
                  seen: set<(Pos, Pos, nat)>, expanded: seq<State>, hl: nat, walk: seq<State>, k: nat, succ: seq<State>)
    requires SearchInv(grid, rules, target, heap, paths, seen, expanded, hl, walk)
    requires k < |heap| && (forall s :: s in heap ==> heap[k].hl <= s.hl) && Summary(heap[k]) !in seen
    requires heap[k].pos != target && Successors(grid, rules, heap[k]) == Ok(succ)
    ensures SearchInv(grid, rules, target, heap[..k] + heap[k + 1..] + succ,
                      paths[..k] + paths[k + 1..] + Extend(paths[k], succ),
                      seen + {Summary(heap[k])}, expanded + [heap[k]], heap[k].hl, paths[k])
  {
    var curr := heap[k];
    assert curr in heap;
    PendingRemove(grid, rules, heap, paths, hl, k, curr.hl);
    PendingPush(grid, rules, heap[..k] + heap[k + 1..], paths[..k] + paths[k + 1..], curr.hl, paths[k], curr, succ);
    ExpandedGrows(grid, rules, target, heap, paths, seen, expanded, hl, walk, k);
    forall n | Move(grid, rules, curr, n)
      ensures n in succ
    {
      SuccessorsComplete(grid, rules, curr, n);
    }
    FrontierExpand(grid, rules, heap, seen, k, succ);
  }

  /** The search loop of both parts. `fuel` bounds the number of pops;
      `Ok(None)` means it ran out. `reached` tells whether the bottom-right
      cell was popped (otherwise the heap ran empty and the last popped heat
      loss is reported). `expanded` is the order in which states were
      expanded, and `walk` the legal walk from the start that led to the last
      popped state: the answer is its heat loss, and when the target was
      reached the walk ends there and no legal walk reaches the target for
      less. When the heap runs empty first, no legal walk reaches the
      target at all. `pops` counts the pops made. */
  method Search(grid: seq<seq<nat>>, rules: Rules, fuel: nat)
    returns (r: Result<Option<nat>>, reached: bool, pops: nat, ghost expanded: seq<State>, ghost walk: seq<State>)
    ensures grid == [] ==> r == Panic(IndexOutOfBounds)
    ensures pops <= fuel
    ensures r == Ok(None) ==> pops == fuel && !reached
    ensures r.Ok? && r.value.Some? && !reached ==> grid != [] && Unreachable(grid, rules, (|grid| - 1, |grid[0]| - 1))
    ensures r.Panic? ==> r.reason == IndexOutOfBounds
    ensures Grids.Rectangular(grid) && grid != [] ==> r.Ok?
    ensures reached ==> r.Ok? && r.value.Some?
    ensures r.Ok? && r.value.Some? ==> IsWalk(grid, rules, walk) && walk[|walk| - 1].hl == r.value.value
    ensures reached ==> grid != [] && walk[|walk| - 1].pos == (|grid| - 1, |grid[0]| - 1)
    ensures reached ==> grid != [] && Cheapest(grid, rules, (|grid| - 1, |grid[0]| - 1), r.value.value)
    ensures Distinct(expanded)
    ensures forall i, j :: 0 <= i <= j < |expanded| ==> expanded[i].hl <= expanded[j].hl
  {
    expanded := [];
    walk := [Start];
    reached := false;
    pops := 0;
    if grid == [] {
      return Panic(IndexOutOfBounds), false, pops, expanded, walk;
    }
    var target := (|grid| - 1, |grid[0]| - 1);
    var heap := [Start];
    ghost var paths := [[Start]];
    var seen: set<(Pos, Pos, nat)> := {};
    var hl: nat := 0;
    SearchInit(grid, rules, target);
    while heap != [] && pops < fuel
      invariant pops <= fuel
      invariant SearchInv(grid, rules, target, heap, paths, seen, expanded, hl, walk)
      decreases fuel - pops
    {
      var k := PopIndex(heap);
      var curr := heap[k];
      pops := pops + 1;
      if curr.pos == target {
        TargetOptimal(grid, rules, heap, seen, k, target);
        PendingRemove(grid, rules, heap, paths, hl, k, curr.hl);
        walk := paths[k];
        hl := curr.hl;
        reached := true;
        break;
      }
      if Summary(curr) in seen {
        PopSkip(grid, rules, target, heap, paths, seen, expanded, hl, walk, k);
        walk := paths[k];
        heap := heap[..k] + heap[k + 1..];
        paths := paths[..k] + paths[k + 1..];
        hl := curr.hl;
        continue;
      }
      var succ := Expand(grid, rules, curr);
      if succ.Panic? {
        SuccessorsPanicReason(grid, rules, curr);
        if Grids.Rectangular(grid) {
          SuccessorsRectangular(grid, rules, curr);
        }
        ExpandedGrows(grid, rules, target, heap, paths, seen, expanded, hl, walk, k);
        return Panic(succ.reason), false, pops, expanded + [curr], paths[k];
      }
      PopExpand(grid, rules, target, heap, paths, seen, expanded, hl, walk, k, succ.value);
      walk := paths[k];
      seen := seen + {Summary(curr)};
      expanded := expanded + [curr];
      heap := heap[..k] + heap[k + 1..] + succ.value;
      paths := paths[..k] + paths[k + 1..] + Extend(walk, succ.value);
      hl := curr.hl;
    }
    if !reached && heap != [] {
      return Ok(None), false, pops, expanded, walk;
    }
    if !reached {
      EmptyHeapUnreachable(grid, rules, seen, target);
    }
    r := Ok(Some(hl));
  }

  // ------------------------------------------------------------------ input

  /** `val.to_string().parse::<usize>().unwrap()` on one grid character. */
  lemma ParseDigit(c: char)
    ensures Strings.ParseNat([c]).Some? <==> Strings.IsDigit(c)
    ensures Strings.IsDigit(c) ==> Strings.ParseNat([c]) == Some(Strings.DigitValue(c))
  {
    if Strings.IsDigit(c) {
      assert Strings.DecimalValue([c]) == 10 * Strings.DecimalValue([]) + Strings.DigitValue(c);
    }
  }

  predicate DigitGrid(chars: seq<seq<char>>) {
    forall i, j :: 0 <= i < |chars| && 0 <= j < |chars[i]| ==> Strings.IsDigit(chars[i][j])
  }

  /** The heat-loss grid read from the character grid: each cell parsed as a
      number, panicking on the first cell that is not one. */
  function Digits(chars: seq<seq<char>>): (r: Result<seq<seq<nat>>>)
    ensures r.Ok? <==> DigitGrid(chars)
    ensures r.Panic? ==> r.reason == UnwrapErr
    ensures r.Ok? ==> |r.value| == |chars| && forall i :: 0 <= i < |chars| ==>
      |r.value[i]| == |chars[i]|
      && forall j :: 0 <= j < |chars[i]| ==> r.value[i][j] < 10 && Strings.DigitChar(r.value[i][j]) == chars[i][j]
  {
    if forall i, j :: 0 <= i < |chars| && 0 <= j < |chars[i]| ==> Strings.ParseNat([chars[i][j]]).Some? then
      assert DigitGrid(chars) by {
        forall i, j | 0 <= i < |chars| && 0 <= j < |chars[i]|
          ensures Strings.IsDigit(chars[i][j])
        {
          ParseDigit(chars[i][j]);
        }
      }
      var g := seq(|chars|, i requires 0 <= i < |chars| =>
                 seq(|chars[i]|, j requires 0 <= j < |chars[i]| => Strings.DigitValue(chars[i][j])));
      assert forall i, j :: 0 <= i < |chars| && 0 <= j < |chars[i]| ==>
        Strings.DigitChar(g[i][j]) == chars[i][j];
      Ok(g)
    else
      assert !DigitGrid(chars) by {
        var i, j :| 0 <= i < |chars| && 0 <= j < |chars[i]| && Strings.ParseNat([chars[i][j]]).None?;
        ParseDigit(chars[i][j]);
      }
      Panic(UnwrapErr)
  }

  /** One part of the puzzle: parse the grid, then search with its rules. */
  method Solve(chars: seq<seq<char>>, rules: Rules, fuel: nat)
    returns (r: Result<Option<nat>>, reached: bool, pops: nat, ghost walk: seq<State>)
    ensures !DigitGrid(chars) ==> r == Panic(UnwrapErr)
    ensures pops <= fuel
    ensures r == Ok(None) ==> pops == fuel && !reached
    ensures chars == [] ==> r == Panic(IndexOutOfBounds)
    ensures DigitGrid(chars) && Grids.Rectangular(chars) && chars != [] ==> r.Ok?
    ensures r.Ok? && r.value.Some? ==>
      Digits(chars).Ok? && IsWalk(Digits(chars).value, rules, walk) && walk[|walk| - 1].hl == r.value.value
    ensures reached ==> r.Ok? && r.value.Some? && chars != [] && walk[|walk| - 1].pos == (|chars| - 1, |chars[0]| - 1)
    ensures reached ==> Cheapest(Digits(chars).value, rules, (|chars| - 1, |chars[0]| - 1), r.value.value)
    ensures r.Ok? && r.value.Some? && !reached ==>
      chars != [] && Unreachable(Digits(chars).value, rules, (|chars| - 1, |chars[0]| - 1))
  {
    var grid := Digits(chars);
    if grid.Panic? {
      return Panic(grid.reason), false, 0, [Start];
    }
    ghost var expanded;
    assert Grids.Rectangular(chars) ==> Grids.Rectangular(grid.value);
    assert chars != [] ==> |grid.value| == |chars| && |grid.value[0]| == |chars[0]|;
    r, reached, pops, expanded, walk := Search(grid.value, rules, fuel);
    if r.Ok? && r.value.Some? {
      assert (|grid.value| - 1, |grid.value[0]| - 1) == (|chars| - 1, |chars[0]| - 1);
    }
  }
}
