/** Day 14: round rocks ('O') roll towards the start of a column until they
    meet a cube rock ('#'), another round rock or the edge; the load of a
    platform weights each round rock by its distance from the far edge. */
module Day14 {
  import opened Grids

  /** The characters that swap while rolling. */
  predicate Rolling(c: char) {
    c == 'O' || c == '.'
  }

  /** A round rock at `i` with an empty cell just before it. */
  predicate RockAfterGap(col: seq<char>, i: int)
    requires 1 <= i < |col|
  {
    col[i] == 'O' && col[i - 1] == '.'
  }

  /** No round rock has an empty cell just before it. */
  predicate Settled(col: seq<char>) {
    forall i :: 1 <= i < |col| ==> !RockAfterGap(col, i)
  }

  /** `b` differs from `a` only among the rolling cells: same length, the same
      cells are rolling, and every other character keeps its position. */
  predicate SameFrame(a: seq<char>, b: seq<char>) {
    |a| == |b| &&
    forall k :: 0 <= k < |a| ==> (Rolling(a[k]) <==> Rolling(b[k])) && (!Rolling(a[k]) ==> a[k] == b[k])
  }

  function RockWeight(k: int, c: char): int {
    if c == 'O' then k else 0
  }

  /** The sum of the positions of the round rocks: every swap lowers it by one. */
  function Weight(s: seq<char>): (r: int)
    ensures r >= 0
  {
    if s == [] then 0 else Weight(s[..|s| - 1]) + RockWeight(|s| - 1, s[|s| - 1])
  }

  lemma {:induction false} WeightUpdate(s: seq<char>, p: int, c: char)
    requires 0 <= p < |s|
    ensures Weight(s[p := c]) == Weight(s) - RockWeight(p, s[p]) + RockWeight(p, c)
    decreases |s|
  {
    var t := s[p := c];
    if p < |s| - 1 {
      assert t[..|t| - 1] == s[..|s| - 1][p := c];
      WeightUpdate(s[..|s| - 1], p, c);
    } else {
      assert t[..|t| - 1] == s[..|s| - 1];
    }
  }

  /** The number of round rocks among the first `p` cells. */
  function Os(s: seq<char>, p: nat): nat
    requires p <= |s|
  {
    if p == 0 then 0 else Os(s, p - 1) + if s[p - 1] == 'O' then 1 else 0
  }

  lemma {:induction false} OsMono(s: seq<char>, a: nat, b: nat)
    requires a <= b <= |s|
    ensures Os(s, a) <= Os(s, b)
    decreases b
  {
    if a < b {
      OsMono(s, a, b - 1);
    }
  }

  /** Equal counts at `a` and equal cells from `a` to `b` give equal counts
      at `b`. */
  lemma {:induction false} OsAgree(s: seq<char>, t: seq<char>, a: nat, b: nat)
    requires a <= b <= |s| && b <= |t| && Os(s, a) == Os(t, a)
    requires forall k :: a <= k < b ==> s[k] == t[k]
    ensures Os(s, b) == Os(t, b)
    decreases b
  {
    if a < b {
      OsAgree(s, t, a, b - 1);
    }
  }

  /** Every maximal run of rolling cells of `a` holds as many round rocks in
      `b`: the counts before each non-rolling cell of `a`, and before the end,
      agree. */
  predicate SameRunCounts(a: seq<char>, b: seq<char>) {
    |a| == |b| &&
    forall p :: 0 <= p <= |a| && (p == |a| || !Rolling(a[p])) ==> Os(b, p) == Os(a, p)
  }

  /** `b` is `a` with round rocks moved only within their runs: the same
      frame, the same characters, and the same rocks in every run. */
  predicate Rearranged(a: seq<char>, b: seq<char>) {
    SameFrame(a, b) && multiset(b) == multiset(a) && SameRunCounts(a, b)
  }

  /** A fallen column: a settled rearrangement that has not moved any rock
      away from the start. */
  predicate Fallen(col: seq<char>, f: seq<char>) {
    Rearranged(col, f) && Settled(f) && Weight(f) <= Weight(col)
  }

  lemma RearrangedTrans(a: seq<char>, b: seq<char>, c: seq<char>)
    requires Rearranged(a, b) && Rearranged(b, c)
    ensures Rearranged(a, c)
  {
    forall p | 0 <= p <= |a| && (p == |a| || !Rolling(a[p])) ensures Os(c, p) == Os(a, p) {
      assert p == |b| || !Rolling(b[p]);
    }
  }

  /** Swapping an 'O' with the '.' before it rearranges the column and lowers
      the weight by one. */
  lemma SwapStep(s: seq<char>, i: int)
    requires 1 <= i < |s| && s[i] == 'O' && s[i - 1] == '.'
    ensures Rearranged(s, s[i - 1 := 'O'][i := '.'])
    ensures Weight(s[i - 1 := 'O'][i := '.']) == Weight(s) - 1
  {
    WeightUpdate(s, i - 1, 'O');
    WeightUpdate(s[i - 1 := 'O'], i, '.');
    SwapFrame(s, i);
    SwapRunCounts(s, i);
  }

  lemma SwapFrame(s: seq<char>, i: int)
    requires 1 <= i < |s| && s[i] == 'O' && s[i - 1] == '.'
    ensures SameFrame(s, s[i - 1 := 'O'][i := '.'])
    ensures multiset(s[i - 1 := 'O'][i := '.']) == multiset(s)
  {
  }

  lemma SwapRunCounts(s: seq<char>, i: int)
    requires 1 <= i < |s| && s[i] == 'O' && s[i - 1] == '.'
    ensures SameRunCounts(s, s[i - 1 := 'O'][i := '.'])
  {
    var t := s[i - 1 := 'O'][i := '.'];
    OsAgree(s, t, 0, i - 1);
    assert Os(t, i + 1) == Os(s, i + 1);
    forall p | 0 <= p <= |s| && (p == |s| || !Rolling(s[p])) ensures Os(t, p) == Os(s, p) {
      if p < i {
        OsAgree(s, t, 0, p);
      } else {
        OsAgree(s, t, i + 1, p);
      }
    }
  }

  /** The first non-rolling cell at or after `p`, or the end. */
  function NextFixed(col: seq<char>, p: nat): (q: nat)
    requires p <= |col|
    ensures p <= q <= |col| && (q == |col| || !Rolling(col[q]))
    ensures forall k :: p <= k < q ==> Rolling(col[k])
    decreases |col| - p
  {
    if p == |col| || !Rolling(col[p]) then p else NextFixed(col, p + 1)
  }

  /** In a settled rearrangement, the cells after a '.' up to the next fixed
      cell are all '.', so they add no round rock. */
  lemma {:induction false} DotsAfter(col: seq<char>, y: seq<char>, p: nat, k: nat)
    requires SameFrame(col, y) && Settled(y)
    requires p < |y| && y[p] == '.' && p <= k <= NextFixed(col, p)
    ensures Os(y, k) == Os(y, p) && forall m :: p <= m < k ==> y[m] == '.'
    decreases k
  {
    if k > p {
      DotsAfter(col, y, p, k - 1);
      var m := k - 1;
      assert Rolling(col[m]) && Rolling(y[m]);
      assert m > p ==> y[m - 1] == '.' && !RockAfterGap(y, m);
      assert y[m] == '.';
    }
  }

  /** What one cell of a settled rearrangement says about the rocks up to
      the end of its run: none more after a '.', at least one from an 'O'. */
  lemma RunFromCell(col: seq<char>, y: seq<char>, p: nat)
    requires Rearranged(col, y) && Settled(y) && p < |col|
    ensures y[p] == '.' ==> Os(y, NextFixed(col, p)) == Os(y, p)
    ensures y[p] == 'O' ==> Os(y, NextFixed(col, p)) >= Os(y, p) + 1
  {
    var q := NextFixed(col, p);
    if y[p] == '.' {
      DotsAfter(col, y, p, q);
    } else if y[p] == 'O' {
      assert Rolling(col[p]);
      OsMono(y, p + 1, q);
    }
  }

  /** Two settled rearrangements of one column agree on every prefix. */
  lemma {:induction false} PrefixAgree(col: seq<char>, x: seq<char>, y: seq<char>, p: nat)
    requires Rearranged(col, x) && Rearranged(col, y) && Settled(x) && Settled(y)
    requires p <= |col|
    ensures forall k :: 0 <= k < p ==> x[k] == y[k]
    decreases p
  {
    if p > 0 {
      var m := p - 1;
      PrefixAgree(col, x, y, m);
      OsAgree(x, y, 0, m);
      RunFromCell(col, x, m);
      RunFromCell(col, y, m);
      var q := NextFixed(col, m);
      assert Os(x, q) == Os(col, q) == Os(y, q);
      assert Rolling(col[m]) ==> Rolling(x[m]) && Rolling(y[m]);
      assert x[m] == y[m];
    }
  }

  /** A fallen column is determined by the column: the contract of `Fall`
      leaves one possible result. */
  lemma FallDetermined(col: seq<char>, x: seq<char>, y: seq<char>)
    requires Fallen(col, x) && Fallen(col, y)
    ensures x == y
  {
    PrefixAgree(col, x, y, |col|);
  }

  /** `fall`: repeated passes swap an 'O' with a '.' just before it until a
      pass makes no change. The result is a settled rearrangement that keeps
      every run's rocks (`FallDetermined`: there is only one), and is the input
      itself when the input was already settled, so falling twice is falling
      once. */
  method Fall(col: seq<char>) returns (result: seq<char>)
    ensures Fallen(col, result)
    ensures Settled(col) ==> result == col
  {
    var a := new char[|col|](i requires 0 <= i < |col| => col[i]);
    assert a[..] == col;
    var nchange: nat := 1;
    while nchange > 0
      invariant Rearranged(col, a[..])
      invariant Weight(a[..]) <= Weight(col)
      invariant nchange == 0 ==> Settled(a[..])
      invariant Settled(col) ==> a[..] == col
      decreases Weight(a[..]) + (if nchange > 0 then 1 else 0)
    {
      ghost var start := a[..];
      nchange := Pass(a);
      RearrangedTrans(col, start, a[..]);
    }
    result := a[..];
  }

  /** Moves the round rock at `i` into the empty cell before it. */
  method Swap(a: array<char>, i: int, ghost start: seq<char>)
    requires 1 <= i < a.Length && a[i] == 'O' && a[i - 1] == '.'
    requires Rearranged(start, a[..])
    modifies a
    ensures a[..] == old(a[..])[i - 1 := 'O'][i := '.']
    ensures Rearranged(start, a[..])
    ensures Weight(a[..]) == Weight(old(a[..])) - 1
  {
    ghost var before := a[..];
    SwapStep(before, i);
    a[i - 1] := 'O';
    a[i] := '.';
    assert a[..] == before[i - 1 := 'O'][i := '.'];
    RearrangedTrans(start, before, a[..]);
  }

  /** One pass of the `for i in 1..col.len()` loop of `fall`, counting the
      swaps it makes. */
  method Pass(a: array<char>) returns (nchange: nat)
    modifies a
    ensures Rearranged(old(a[..]), a[..])
    ensures Weight(a[..]) == Weight(old(a[..])) - nchange
    ensures nchange == 0 ==> a[..] == old(a[..]) && Settled(a[..])
    ensures Settled(old(a[..])) ==> nchange == 0
  {
    ghost var start := a[..];
    nchange := 0;
    var i := 1;
    while i < a.Length
      invariant 1 <= i
      invariant Rearranged(start, a[..])
      invariant Weight(a[..]) == Weight(start) - nchange
      invariant nchange == 0 ==> a[..] == start
      invariant nchange == 0 ==> forall k :: 1 <= k < i && k < a.Length ==> !RockAfterGap(a[..], k)
      invariant Settled(start) ==> nchange == 0
    {
      if a[i] == 'O' && a[i - 1] == '.' {
        assert RockAfterGap(a[..], i);
        Swap(a, i, start);
        nchange := nchange + 1;
      } else {
        assert !RockAfterGap(a[..], i);
      }
      i := i + 1;
    }
  }

  function Count(row: seq<char>, c: char): (r: nat)
    ensures r <= |row|
  {
    if row == [] then 0 else Count(row[..|row| - 1], c) + (if row[|row| - 1] == c then 1 else 0)
  }

  /** The load: the rows weighted by their distance from the far edge,
      `sum over i of (#O in row i) * (rows - i)`. */
  function Load(rows: seq<seq<char>>): int {
    LoadFrom(rows, 0)
  }

  function LoadFrom(rows: seq<seq<char>>, i: nat): int
    decreases |rows| - i
  {
    if i >= |rows| then 0 else Count(rows[i], 'O') * (|rows| - i) + LoadFrom(rows, i + 1)
  }

  /** The load cell by cell: every round rock in row i adds rows - i. */
  function CellLoad(rows: seq<seq<char>>, i: nat, j: nat): int
    requires i < |rows| && j <= |rows[i]|
    decreases |rows| - i, j
  {
    if j > 0 then
      (if rows[i][j - 1] == 'O' then |rows| - i else 0) + CellLoad(rows, i, j - 1)
    else if i + 1 < |rows| then CellLoad(rows, i + 1, |rows[i + 1]|)
    else 0
  }

  lemma {:induction false} RowLoad(rows: seq<seq<char>>, i: nat, j: nat)
    requires i < |rows| && j <= |rows[i]|
    ensures CellLoad(rows, i, j) == Count(rows[i][..j], 'O') * (|rows| - i) + LoadFrom(rows, i + 1)
    decreases |rows| - i, j
  {
    var w := |rows| - i;
    var row := rows[i];
    if j > 0 {
      RowLoad(rows, i, j - 1);
      assert row[..j][..j - 1] == row[..j - 1];
      var c := Count(row[..j - 1], 'O');
      assert Count(row[..j], 'O') == c + (if row[j - 1] == 'O' then 1 else 0);
      MulSucc(c, w);
    } else {
      assert row[..0] == [];
      assert Count(row[..0], 'O') * w == 0;
      if i + 1 < |rows| {
        RowLoad(rows, i + 1, |rows[i + 1]|);
        assert rows[i + 1][..|rows[i + 1]|] == rows[i + 1];
      }
    }
  }

  lemma MulSucc(c: int, w: int)
    ensures (c + 1) * w == c * w + w
  {
  }

  /** The row-by-row load equals the sum over round rocks of their distance
      (counted in rows) from the far edge. */
  lemma LoadByCells(rows: seq<seq<char>>)
    requires |rows| > 0
    ensures Load(rows) == CellLoad(rows, 0, |rows[0]|)
  {
    RowLoad(rows, 0, |rows[0]|);
    assert rows[0][..|rows[0]|] == rows[0];
  }

  /** Column j of a rectangular grid. */
  function Column(g: Grid, j: nat): (c: seq<char>)
    requires Rectangular(g) && j < Width(g)
    ensures |c| == |g| && forall i :: 0 <= i < |g| ==> c[i] == g[i][j]
  {
    seq(|g|, i requires 0 <= i < |g| => g[i][j])
  }

  /** The part-one pipeline: transpose, make every column fall, transpose back.
      Each column of the result is the fallen column of the input. */
  method TiltNorth(grid: Grid) returns (rolled: Grid)
    requires Rectangular(grid) && |grid| > 0 && Width(grid) > 0
    ensures Rectangular(rolled) && |rolled| == |grid| && Width(rolled) == Width(grid)
    ensures forall j :: 0 <= j < Width(grid) ==> Fallen(Column(grid, j), Column(rolled, j))
  {
    var cols := Transpose(grid);
    var fallen: seq<seq<char>> := [];
    var j := 0;
    while j < |cols|
      invariant 0 <= j <= |cols| && |fallen| == j
      invariant forall k :: 0 <= k < j ==> |fallen[k]| == |grid| && Fallen(cols[k], fallen[k])
    {
      var f := Fall(cols[j]);
      fallen := fallen + [f];
      j := j + 1;
    }
    rolled := Transpose(fallen);
    TiltColumns(grid, cols, fallen);
  }

  /** Transposing the fallen columns back leaves each of them a column. */
  lemma TiltColumns(grid: Grid, cols: Grid, fallen: Grid)
    requires Rectangular(grid) && |grid| > 0 && Width(grid) > 0 && cols == Transpose(grid)
    requires |fallen| == |cols|
    requires forall k :: 0 <= k < |cols| ==> |fallen[k]| == |grid| && Fallen(cols[k], fallen[k])
    ensures Rectangular(fallen)
    ensures Rectangular(Transpose(fallen)) && |Transpose(fallen)| == |grid| && Width(Transpose(fallen)) == Width(grid)
    ensures forall j :: 0 <= j < Width(grid) ==> Fallen(Column(grid, j), Column(Transpose(fallen), j))
  {
    ColumnsOfTranspose(grid);
    TransposeColumns(fallen);
  }

  /** The columns of a transposed grid are the rows of the grid. */
  lemma TransposeColumns(g: Grid)
    requires Rectangular(g) && |g| > 0 && Width(g) > 0
    ensures Width(Transpose(g)) == |g|
    ensures forall k :: 0 <= k < |g| ==> Column(Transpose(g), k) == g[k]
  {
    var t := Transpose(g);
    forall k | 0 <= k < |g| ensures Column(t, k) == g[k] {
    }
  }

  /** The rows of a transposed grid are the columns of the grid. */
  lemma ColumnsOfTranspose(g: Grid)
    requires Rectangular(g)
    ensures forall j :: 0 <= j < Width(g) ==> Transpose(g)[j] == Column(g, j)
  {
  }
}
