/** Day 11: galaxies in an expanding image. Empty rows and columns are
    widened by an expansion factor, and the answer is the sum of the
    Manhattan distances between galaxies. `EmptyColsAsWritten` scans the
    columns the way the code does (`0..lines.len() - 1`); `EmptyCols` scans
    every column, and `Galaxies` is built on it (see the README's findings). */
module Day11 {
  import opened Wrappers

  datatype Galaxy = Galaxy(i: int, j: int)

  // ---------------------------------------------------------------------
  // Empty rows and columns
  // ---------------------------------------------------------------------

  predicate RowEmpty(lines: seq<seq<char>>, i: nat)
    requires i < |lines|
  {
    '#' !in lines[i]
  }

  /** Every row reaches column `j` and none has a galaxy there. */
  predicate ColumnEmpty(lines: seq<seq<char>>, j: nat) {
    forall i :: 0 <= i < |lines| ==> j < |lines[i]| && lines[i][j] != '#'
  }

  predicate Increasing(xs: seq<nat>) {
    forall a, b :: 0 <= a < b < |xs| ==> xs[a] < xs[b]
  }

  lemma IncreasingAppend(xs: seq<nat>, y: nat)
    requires Increasing(xs) && forall x: nat :: x in xs ==> x < y
    ensures Increasing(xs + [y])
  {
    forall a, b | 0 <= a < b < |xs| + 1 ensures (xs + [y])[a] < (xs + [y])[b] {
      if b == |xs| {
        assert xs[a] in xs;
      }
    }
  }

  /** The indices of the rows without a galaxy, in order. */
  function EmptyRows(lines: seq<seq<char>>): (r: seq<nat>)
    ensures forall x: nat :: x in r <==> x < |lines| && RowEmpty(lines, x)
    decreases |lines|
  {
    if lines == [] then []
    else
      var n := |lines| - 1;
      var prev := EmptyRows(lines[..n]);
      assert forall x: nat :: x < n ==> (RowEmpty(lines[..n], x) <==> RowEmpty(lines, x));
      if RowEmpty(lines, n) then prev + [n] else prev
  }

  /** The empty rows are listed in increasing order. */
  lemma {:induction false} EmptyRowsIncreasing(lines: seq<seq<char>>)
    ensures Increasing(EmptyRows(lines))
    decreases |lines|
  {
    if lines != [] {
      var n := |lines| - 1;
      EmptyRowsIncreasing(lines[..n]);
      if RowEmpty(lines, n) {
        IncreasingAppend(EmptyRows(lines[..n]), n);
      }
    }
  }

  /** `lines.iter().map(|line| line[j]).all(|c| c != '#')`: the scan stops at
      the first galaxy and panics on a row too short to index. */
  function ColumnClear(lines: seq<seq<char>>, j: nat): (r: Result<bool>)
    ensures (forall i :: 0 <= i < |lines| ==> j < |lines[i]|) ==> r == Ok(ColumnEmpty(lines, j))
    ensures r.Panic? ==> r.reason == IndexOutOfBounds && exists i :: 0 <= i < |lines| && j >= |lines[i]|
    ensures r == Ok(true) ==> ColumnEmpty(lines, j)
  {
    if lines == [] then Ok(true)
    else if j >= |lines[0]| then Panic(IndexOutOfBounds)
    else if lines[0][j] == '#' then Ok(false)
    else
      var rest := ColumnClear(lines[1..], j);
      assert rest.Panic? ==> exists i :: 0 <= i < |lines| && j >= |lines[i]| by {
        if rest.Panic? {
          var i :| 0 <= i < |lines| - 1 && j >= |lines[1..][i]|;
          assert j >= |lines[i + 1]|;
        }
      }
      rest
  }

  /** The empty columns among `0..n`, in order; a column the scan cannot
      index panics. */
  function ClearColumnsBelow(lines: seq<seq<char>>, n: nat): (r: Result<seq<nat>>)
    ensures (forall i :: 0 <= i < |lines| ==> n <= |lines[i]|) ==>
      r.Ok? && forall x: nat :: x in r.value <==> x < n && ColumnEmpty(lines, x)
    ensures r.Panic? ==> r.reason == IndexOutOfBounds
    ensures r.Ok? ==> forall x: nat :: x in r.value ==> x < n && ColumnEmpty(lines, x)
  {
    if n == 0 then Ok([])
    else
      var prev :- ClearColumnsBelow(lines, n - 1);
      var clear :- ColumnClear(lines, n - 1);
      if clear then Ok(prev + [n - 1]) else Ok(prev)
  }

  /** The empty columns found are listed in increasing order. */
  lemma {:induction false} ClearColumnsIncreasing(lines: seq<seq<char>>, n: nat)
    ensures ClearColumnsBelow(lines, n).Ok? ==> Increasing(ClearColumnsBelow(lines, n).value)
    decreases n
  {
    if n > 0 {
      ClearColumnsIncreasing(lines, n - 1);
      var prev := ClearColumnsBelow(lines, n - 1);
      if prev.Ok? && ColumnClear(lines, n - 1) == Ok(true) {
        IncreasingAppend(prev.value, n - 1);
      }
    }
  }

  /** `j_expand` as written: the columns scanned are `0..lines.len() - 1`, a
      bound taken from the number of rows and excluding its last index; an
      empty image underflows the subtraction. */
  function EmptyColsAsWritten(lines: seq<seq<char>>): (r: Result<seq<nat>>)
    ensures lines == [] ==> r == Panic(SubtractOverflow)
    ensures r.Ok? ==> forall x: nat :: x in r.value ==> x < |lines| - 1 && ColumnEmpty(lines, x)
  {
    if lines == [] then Panic(SubtractOverflow)
    else ClearColumnsBelow(lines, |lines| - 1)
  }

  /** `j_expand` over every column of the first row. */
  function EmptyCols(lines: seq<seq<char>>): (r: Result<seq<nat>>)
    ensures r.Panic? ==> r.reason == IndexOutOfBounds
  {
    if lines == [] then Ok([]) else ClearColumnsBelow(lines, |lines[0]|)
  }

  /** On a rectangular image the corrected scan succeeds and finds exactly
      the empty columns. */
  lemma EmptyColsExact(lines: seq<seq<char>>)
    requires forall i :: 0 <= i < |lines| ==> |lines[i]| == |lines[0]|
    ensures EmptyCols(lines).Ok?
    ensures forall x: nat :: x in EmptyCols(lines).value <==> lines != [] && x < |lines[0]| && ColumnEmpty(lines, x)
    ensures Increasing(EmptyCols(lines).value)
  {
    if lines != [] {
      ClearColumnsIncreasing(lines, |lines[0]|);
    }
  }

  // ---------------------------------------------------------------------
  // Galaxy positions
  // ---------------------------------------------------------------------

  /** How many of `xs` lie strictly below `v`: the `filter(|&&x| x < i).count()`. */
  function CountBelow(xs: seq<nat>, v: int): (r: nat)
    ensures r <= |xs|
  {
    if xs == [] then 0
    else CountBelow(xs[..|xs| - 1], v) + (if xs[|xs| - 1] < v then 1 else 0)
  }

  /** The coordinate of the closure: original plus the widened gaps. */
  function Expand(x: nat, gaps: seq<nat>, expansion: int): (r: int)
    ensures expansion == 1 ==> r == x
    ensures expansion >= 1 ==> r >= x
  {
    x + CountBelow(gaps, x) * (expansion - 1)
  }

  function Place(i: nat, j: nat, rows: seq<nat>, cols: seq<nat>, expansion: int): Galaxy {
    Galaxy(Expand(i, rows, expansion), Expand(j, cols, expansion))
  }

  /** The columns of the galaxies of one row, in order. */
  function Hashes(line: seq<char>): (r: seq<nat>)
    ensures forall x: nat :: x in r <==> x < |line| && line[x] == '#'
  {
    if line == [] then []
    else
      var n := |line| - 1;
      var prev := Hashes(line[..n]);
      if line[n] == '#' then prev + [n] else prev
  }

  /** The galaxies of a row are listed left to right. */
  lemma {:induction false} HashesIncreasing(line: seq<char>)
    ensures Increasing(Hashes(line))
    decreases |line|
  {
    if line != [] {
      var n := |line| - 1;
      HashesIncreasing(line[..n]);
      if line[n] == '#' {
        IncreasingAppend(Hashes(line[..n]), n);
      }
    }
  }

  /** Row-major order on positions. */
  predicate Before(p: (nat, nat), q: (nat, nat)) {
    p.0 < q.0 || (p.0 == q.0 && p.1 < q.1)
  }

  /** The positions of the galaxies: exactly the '#' cells, in row-major
      order (`PositionsInOrder`). */
  function Positions(lines: seq<seq<char>>): (r: seq<(nat, nat)>)
    ensures forall p: (nat, nat) :: p in r <==> p.0 < |lines| && p.1 < |lines[p.0]| && lines[p.0][p.1] == '#'
    decreases |lines|
  {
    if lines == [] then []
    else
      var n := |lines| - 1;
      var row := RowPositions(n, Hashes(lines[n]));
      assert forall p: (nat, nat) :: p in row <==> p.0 == n && p.1 < |lines[n]| && lines[n][p.1] == '#' by {
        var hs := Hashes(lines[n]);
        forall p: (nat, nat) | p.0 == n && p.1 < |lines[n]| && lines[n][p.1] == '#' ensures p in row {
          assert p.1 in hs;
          var k :| 0 <= k < |hs| && hs[k] == p.1;
          assert row[k] == p;
        }
        forall p: (nat, nat) | p in row ensures p.0 == n && p.1 < |lines[n]| && lines[n][p.1] == '#' {
          var k :| 0 <= k < |row| && row[k] == p;
          assert hs[k] in hs;
        }
      }
      Positions(lines[..n]) + row
  }

  /** The cells (n, h) for the columns `hs` of row n. */
  function RowPositions(n: nat, hs: seq<nat>): (r: seq<(nat, nat)>)
    ensures |r| == |hs| && forall k :: 0 <= k < |hs| ==> r[k] == (n, hs[k])
  {
    seq(|hs|, k requires 0 <= k < |hs| => (n, hs[k]))
  }

  /** Each '#' cell occurs once, and in row-major order. */
  lemma {:induction false} PositionsInOrder(lines: seq<seq<char>>)
    ensures forall a, b :: 0 <= a < b < |Positions(lines)| ==> Before(Positions(lines)[a], Positions(lines)[b])
    decreases |lines|
  {
    if lines != [] {
      var n := |lines| - 1;
      var prev := Positions(lines[..n]);
      var hs := Hashes(lines[n]);
      var row := RowPositions(n, hs);
      PositionsInOrder(lines[..n]);
      HashesIncreasing(lines[n]);
      assert forall a :: 0 <= a < |prev| ==> prev[a] in prev;
      var r := prev + row;
      forall a, b | 0 <= a < b < |r| ensures Before(r[a], r[b]) {
        if b < |prev| {
          assert r[a] == prev[a] && r[b] == prev[b];
          assert Before(prev[a], prev[b]);
        } else if a < |prev| {
          assert r[a] in prev && r[b] == row[b - |prev|];
          assert r[a].0 < n == r[b].0;
          assert Before(r[a], r[b]);
        } else {
          assert r[a] == row[a - |prev|] && r[b] == row[b - |prev|];
          assert hs[a - |prev|] < hs[b - |prev|];
          assert Before(r[a], r[b]);
        }
      }
    }
  }

  /** One row's galaxies, as the inner `filter_map` builds them. */
  function RowNodes(line: seq<char>, i: nat, rows: seq<nat>, cols: seq<nat>, expansion: int): (r: seq<Galaxy>)
    ensures |r| == |Hashes(line)|
    ensures forall k :: 0 <= k < |r| ==> r[k] == Place(i, Hashes(line)[k], rows, cols, expansion)
  {
    if line == [] then []
    else
      var n := |line| - 1;
      RowNodes(line[..n], i, rows, cols, expansion) + (if line[n] == '#' then [Place(i, n, rows, cols, expansion)] else [])
  }

  /** `nodes_with_expansion` once the gap lists are known: the rows' galaxies
      flattened. There is exactly one galaxy per '#' cell, placed by
      `Place`, in the row-major order of `Positions`. */
  function Nodes(lines: seq<seq<char>>, rows: seq<nat>, cols: seq<nat>, expansion: int): (r: seq<Galaxy>)
    ensures |r| == |Positions(lines)|
    ensures forall k :: 0 <= k < |r| ==> r[k] == Place(Positions(lines)[k].0, Positions(lines)[k].1, rows, cols, expansion)
    decreases |lines|
  {
    if lines == [] then []
    else
      var n := |lines| - 1;
      Nodes(lines[..n], rows, cols, expansion) + RowNodes(lines[n], n, rows, cols, expansion)
  }

  /** `nodes_with_expansion` as written. */
  function GalaxiesAsWritten(lines: seq<seq<char>>, expansion: int): (r: Result<seq<Galaxy>>)
    ensures r.Ok? ==> EmptyColsAsWritten(lines).Ok? && r.value == Nodes(lines, EmptyRows(lines), EmptyColsAsWritten(lines).value, expansion)
    ensures r.Panic? <==> EmptyColsAsWritten(lines).Panic?
  {
    var cols :- EmptyColsAsWritten(lines);
    Ok(Nodes(lines, EmptyRows(lines), cols, expansion))
  }

  /** `nodes_with_expansion` with every column scanned. */
  function Galaxies(lines: seq<seq<char>>, expansion: int): (r: Result<seq<Galaxy>>)
    ensures r.Ok? ==> EmptyCols(lines).Ok? && r.value == Nodes(lines, EmptyRows(lines), EmptyCols(lines).value, expansion)
    ensures r.Panic? <==> EmptyCols(lines).Panic?
  {
    var cols :- EmptyCols(lines);
    Ok(Nodes(lines, EmptyRows(lines), cols, expansion))
  }

  // ---------------------------------------------------------------------
  // What the expansion does
  // ---------------------------------------------------------------------

  /** The empty rows among the first `i`. */
  function EmptyRowsBefore(lines: seq<seq<char>>, i: nat): nat
    requires i <= |lines|
  {
    if i == 0 then 0 else EmptyRowsBefore(lines, i - 1) + (if RowEmpty(lines, i - 1) then 1 else 0)
  }

  /** The empty columns among the first `j`. */
  function EmptyColsBefore(lines: seq<seq<char>>, j: nat): nat {
    if j == 0 then 0 else EmptyColsBefore(lines, j - 1) + (if ColumnEmpty(lines, j - 1) then 1 else 0)
  }

  /** Counting an increasing list below `v` counts its members below `v`:
      appending a member at least `v` does not change the count. */
  lemma CountBelowAppend(xs: seq<nat>, y: nat, v: int)
    ensures CountBelow(xs + [y], v) == CountBelow(xs, v) + (if y < v then 1 else 0)
  {
    assert (xs + [y])[..|xs|] == xs;
  }

  lemma {:induction false} EmptyRowsBeforePrefix(lines: seq<seq<char>>, n: nat, i: nat)
    requires i <= n <= |lines|
    ensures EmptyRowsBefore(lines[..n], i) == EmptyRowsBefore(lines, i)
    decreases i
  {
    if i > 0 {
      EmptyRowsBeforePrefix(lines, n, i - 1);
    }
  }

  lemma EmptyRowsStep(lines: seq<seq<char>>)
    requires lines != []
    ensures EmptyRows(lines) == EmptyRows(lines[..|lines| - 1]) + (if RowEmpty(lines, |lines| - 1) then [|lines| - 1] else [])
  {
  }

  /** A list all of whose members lie below `v` counts the same below any
      larger bound. */
  lemma CountBelowAll(xs: seq<nat>, v: int, w: int)
    requires v <= w && forall k :: 0 <= k < |xs| ==> xs[k] < v
    ensures CountBelow(xs, v) == CountBelow(xs, w)
    decreases |xs|
  {
    if xs != [] {
      assert forall k :: 0 <= k < |xs| - 1 ==> xs[..|xs| - 1][k] == xs[k];
      CountBelowAll(xs[..|xs| - 1], v, w);
    }
  }

  /** The gap count of a row is the number of empty rows above it. */
  lemma {:induction false} RowGaps(lines: seq<seq<char>>, i: nat)
    requires i <= |lines|
    ensures CountBelow(EmptyRows(lines), i) == EmptyRowsBefore(lines, i)
    decreases |lines|
  {
    if lines != [] {
      var n := |lines| - 1;
      var prev := EmptyRows(lines[..n]);
      var e := RowEmpty(lines, n);
      var m := if i <= n then i else n;
      RowGaps(lines[..n], m);
      EmptyRowsBeforePrefix(lines, n, m);
      EmptyRowsStep(lines);
      if e {
        CountBelowAppend(prev, n, i);
        assert CountBelow(EmptyRows(lines), i) == CountBelow(prev, i) + (if n < i then 1 else 0);
      } else {
        assert CountBelow(EmptyRows(lines), i) == CountBelow(prev, i);
      }
      if i > n {
        assert forall k :: 0 <= k < |prev| ==> prev[k] in prev;
        CountBelowAll(prev, n, i);
        assert i - 1 == n;
        assert EmptyRowsBefore(lines, i) == EmptyRowsBefore(lines, n) + (if e then 1 else 0);
      }
    }
  }

  /** The empty columns among `0..n`, when every row reaches column `n`. */
  ghost function EmptyColumnsBelow(lines: seq<seq<char>>, n: nat): seq<nat> {
    if n == 0 then [] else EmptyColumnsBelow(lines, n - 1) + (if ColumnEmpty(lines, n - 1) then [n - 1] else [])
  }

  /** When every row is long enough the scan cannot panic and finds the
      empty columns. */
  lemma {:induction false} ClearColumnsAgree(lines: seq<seq<char>>, n: nat)
    requires forall i :: 0 <= i < |lines| ==> n <= |lines[i]|
    ensures ClearColumnsBelow(lines, n) == Ok(EmptyColumnsBelow(lines, n))
    decreases n
  {
    if n > 0 {
      ClearColumnsAgree(lines, n - 1);
      assert ColumnClear(lines, n - 1) == Ok(ColumnEmpty(lines, n - 1));
      var prev := EmptyColumnsBelow(lines, n - 1);
      if !ColumnEmpty(lines, n - 1) {
        assert EmptyColumnsBelow(lines, n) == prev + [] == prev;
      }
    }
  }

  /** The gap count of a column is the number of empty columns before it,
      among the first `n`. */
  lemma {:induction false} EmptyColumnsCount(lines: seq<seq<char>>, n: nat, j: nat)
    ensures CountBelow(EmptyColumnsBelow(lines, n), j) == EmptyColsBefore(lines, Min(j, n))
    decreases n
  {
    if n > 0 {
      var prev := EmptyColumnsBelow(lines, n - 1);
      var e := ColumnEmpty(lines, n - 1);
      EmptyColumnsCount(lines, n - 1, j);
      if e {
        CountBelowAppend(prev, n - 1, j);
      } else {
        assert EmptyColumnsBelow(lines, n) == prev;
      }
      if j >= n {
        assert EmptyColsBefore(lines, n) == EmptyColsBefore(lines, n - 1) + (if e then 1 else 0);
      }
    }
  }

  /** The gap count of a column is the number of empty columns before it,
      among the first `n` scanned. */
  lemma ColumnGaps(lines: seq<seq<char>>, n: nat, j: nat)
    requires forall i :: 0 <= i < |lines| ==> n <= |lines[i]|
    ensures CountBelow(ClearColumnsBelow(lines, n).value, j) == EmptyColsBefore(lines, Min(j, n))
  {
    ClearColumnsAgree(lines, n);
    EmptyColumnsCount(lines, n, j);
  }

  /** The promise of the expansion: on a rectangular image every galaxy
      moves down by `expansion - 1` per empty row above it and right by
      `expansion - 1` per empty column to its left. */
  lemma GalaxiesExpand(lines: seq<seq<char>>, expansion: int, k: nat)
    requires forall i :: 0 <= i < |lines| ==> |lines[i]| == |lines[0]|
    requires k < |Positions(lines)|
    ensures Galaxies(lines, expansion).Ok?
    ensures |Galaxies(lines, expansion).value| == |Positions(lines)|
    ensures Galaxies(lines, expansion).value[k] ==
      Galaxy(Positions(lines)[k].0 + EmptyRowsBefore(lines, Positions(lines)[k].0) * (expansion - 1),
             Positions(lines)[k].1 + EmptyColsBefore(lines, Positions(lines)[k].1) * (expansion - 1))
  {
    var p := Positions(lines)[k];
    var cols := EmptyCols(lines).value;
    assert p in Positions(lines);
    assert Min(p.1, |lines[0]|) == p.1;
    ColumnGaps(lines, |lines[0]|, p.1);
    NodesExpand(lines, cols, |lines[0]|, expansion, k);
    assert Galaxies(lines, expansion) == Ok(Nodes(lines, EmptyRows(lines), cols, expansion));
  }

  /** As written the same holds for the columns the scan reaches: the gap
      count of column j covers only the empty columns below
      `min(j, lines.len() - 1)`. */
  lemma GalaxiesAsWrittenExpand(lines: seq<seq<char>>, expansion: int, k: nat)
    requires lines != [] && forall i :: 0 <= i < |lines| ==> |lines[i]| == |lines[0]|
    requires |lines| - 1 <= |lines[0]|
    requires k < |Positions(lines)|
    ensures GalaxiesAsWritten(lines, expansion).Ok?
    ensures |GalaxiesAsWritten(lines, expansion).value| == |Positions(lines)|
    ensures GalaxiesAsWritten(lines, expansion).value[k] ==
      Galaxy(Positions(lines)[k].0 + EmptyRowsBefore(lines, Positions(lines)[k].0) * (expansion - 1),
             Positions(lines)[k].1 + EmptyColsBefore(lines, Min(Positions(lines)[k].1, |lines| - 1)) * (expansion - 1))
  {
    var p := Positions(lines)[k];
    var cols := ClearColumnsBelow(lines, |lines| - 1).value;
    ColumnGaps(lines, |lines| - 1, p.1);
    NodesExpand(lines, cols, |lines| - 1, expansion, k);
    assert GalaxiesAsWritten(lines, expansion) == Ok(Nodes(lines, EmptyRows(lines), cols, expansion));
  }

  /** The k-th galaxy when the column gaps `cols` count the empty columns
      below `n`. */
  lemma NodesExpand(lines: seq<seq<char>>, cols: seq<nat>, n: nat, expansion: int, k: nat)
    requires k < |Positions(lines)|
    requires CountBelow(cols, Positions(lines)[k].1) == EmptyColsBefore(lines, Min(Positions(lines)[k].1, n))
    ensures |Nodes(lines, EmptyRows(lines), cols, expansion)| == |Positions(lines)|
    ensures Nodes(lines, EmptyRows(lines), cols, expansion)[k] ==
      Galaxy(Positions(lines)[k].0 + EmptyRowsBefore(lines, Positions(lines)[k].0) * (expansion - 1),
             Positions(lines)[k].1 + EmptyColsBefore(lines, Min(Positions(lines)[k].1, n)) * (expansion - 1))
  {
    NodeAt(lines, EmptyRows(lines), cols, expansion, k);
    RowGaps(lines, Positions(lines)[k].0);
  }

  /** The galaxy of the k-th '#' cell, with the gap counts taken from the
      given lists. */
  lemma NodeAt(lines: seq<seq<char>>, rows: seq<nat>, cols: seq<nat>, expansion: int, k: nat)
    requires k < |Positions(lines)|
    ensures Positions(lines)[k].0 < |lines|
    ensures |Nodes(lines, rows, cols, expansion)| == |Positions(lines)|
    ensures Nodes(lines, rows, cols, expansion)[k] ==
      Galaxy(Positions(lines)[k].0 + CountBelow(rows, Positions(lines)[k].0) * (expansion - 1),
             Positions(lines)[k].1 + CountBelow(cols, Positions(lines)[k].1) * (expansion - 1))
  {
    assert Positions(lines)[k] in Positions(lines);
  }

  function Min(a: nat, b: nat): nat {
    if a <= b then a else b
  }

  // ---------------------------------------------------------------------
  // Distances
  // ---------------------------------------------------------------------

  function Abs(x: int): nat {
    if x < 0 then -x else x
  }

  function Manhattan(a: Galaxy, b: Galaxy): nat {
    Abs(a.i - b.i) + Abs(a.j - b.j)
  }

  /** The distances from `g` to each of `hs`. */
  function DistFrom(g: Galaxy, hs: seq<Galaxy>): nat {
    if hs == [] then 0 else Manhattan(g, hs[0]) + DistFrom(g, hs[1..])
  }

  /** The sum over `combinations_with_replacement(2)`: each galaxy is paired
      with itself and with every later one. */
  function PairSum(gs: seq<Galaxy>): nat {
    if gs == [] then 0 else DistFrom(gs[0], gs) + PairSum(gs[1..])
  }

  /** The sum over the pairs of two different galaxies. */
  function DistinctPairSum(gs: seq<Galaxy>): nat {
    if gs == [] then 0 else DistFrom(gs[0], gs[1..]) + DistinctPairSum(gs[1..])
  }

  /** Self-pairs contribute nothing: the with-replacement sum is the sum
      over distinct pairs. */
  lemma {:induction false} PairSumDistinct(gs: seq<Galaxy>)
    ensures PairSum(gs) == DistinctPairSum(gs)
    decreases |gs|
  {
    if gs != [] {
      assert gs[1..] == gs[1..];
      assert DistFrom(gs[0], gs) == Manhattan(gs[0], gs[0]) + DistFrom(gs[0], gs[1..]);
      PairSumDistinct(gs[1..]);
    }
  }

  lemma CountBelowMonotone(xs: seq<nat>, v: int, w: int)
    requires v <= w
    ensures CountBelow(xs, v) <= CountBelow(xs, w)
    decreases |xs|
  {
    if xs != [] {
      CountBelowMonotone(xs[..|xs| - 1], v, w);
    }
  }

  /** Expansion stretches a distance along one axis by `expansion - 1` per
      gap between the two coordinates. */
  lemma ExpandStretches(x: nat, y: nat, gaps: seq<nat>, expansion: int)
    requires expansion >= 1
    ensures Abs(Expand(x, gaps, expansion) - Expand(y, gaps, expansion)) ==
      Abs(x - y) + Abs(CountBelow(gaps, x) - CountBelow(gaps, y)) * (expansion - 1)
  {
    var cx, cy := CountBelow(gaps, x), CountBelow(gaps, y);
    var m := expansion - 1;
    if x <= y {
      CountBelowMonotone(gaps, x, y);
      Stretch(x, y, cx, cy, m);
    } else {
      CountBelowMonotone(gaps, y, x);
      Stretch(y, x, cy, cx, m);
    }
  }

  lemma Stretch(x: int, y: int, cx: int, cy: int, m: int)
    requires x <= y && cx <= cy && m >= 0
    ensures Abs((x + cx * m) - (y + cy * m)) == Abs(x - y) + Abs(cx - cy) * m
    ensures Abs((y + cy * m) - (x + cx * m)) == Abs(x - y) + Abs(cx - cy) * m
  {
    assert cy * m - cx * m == (cy - cx) * m;
    assert (cy - cx) * m >= 0;
  }

  /** The distance of two placed galaxies is their original distance plus
      `expansion - 1` per empty row and column between them. */
  lemma PlaceDistance(p: (nat, nat), q: (nat, nat), rows: seq<nat>, cols: seq<nat>, expansion: int)
    requires expansion >= 1
    ensures Manhattan(Place(p.0, p.1, rows, cols, expansion), Place(q.0, q.1, rows, cols, expansion)) ==
      Abs(p.0 - q.0) + Abs(p.1 - q.1) +
      (Abs(CountBelow(rows, p.0) - CountBelow(rows, q.0)) + Abs(CountBelow(cols, p.1) - CountBelow(cols, q.1))) * (expansion - 1)
  {
    ExpandStretches(p.0, q.0, rows, expansion);
    ExpandStretches(p.1, q.1, cols, expansion);
    var a, b := Abs(CountBelow(rows, p.0) - CountBelow(rows, q.0)), Abs(CountBelow(cols, p.1) - CountBelow(cols, q.1));
    Distribute(a, b, expansion - 1);
  }

  lemma Distribute(a: int, b: int, m: int)
    ensures (a + b) * m == a * m + b * m
  {
  }

  /** The answer of either part: the pair sum over the placed galaxies. */
  function Answer(lines: seq<seq<char>>, expansion: int): (r: Result<nat>)
    ensures r.Ok? <==> Galaxies(lines, expansion).Ok?
    ensures r.Ok? ==> r.value == DistinctPairSum(Galaxies(lines, expansion).value)
  {
    var gs :- Galaxies(lines, expansion);
    PairSumDistinct(gs);
    Ok(PairSum(gs))
  }

  function AnswerAsWritten(lines: seq<seq<char>>, expansion: int): (r: Result<nat>)
    ensures r.Ok? <==> GalaxiesAsWritten(lines, expansion).Ok?
    ensures r.Ok? ==> r.value == DistinctPairSum(GalaxiesAsWritten(lines, expansion).value)
  {
    var gs :- GalaxiesAsWritten(lines, expansion);
    PairSumDistinct(gs);
    Ok(PairSum(gs))
  }

  // ---------------------------------------------------------------------
  // The column bound
  // ---------------------------------------------------------------------

  lemma PairOf<T>(s: seq<T>)
    requires |s| == 2
    ensures s == [s[0], s[1]]
  {
  }

  lemma WideHashes()
    ensures Hashes("#.#") == [0, 2]
  {
    var line := "#.#";
    assert line[..1] == ['#'] && line[..2] == ['#', '.'];
    assert Hashes(line[..1]) == [0];
    assert Hashes(line[..2]) == [0];
  }

  lemma WidePositions()
    ensures Positions(["#.#"]) == [(0, 0), (0, 2)]
  {
    var lines: seq<seq<char>> := ["#.#"];
    assert lines[..0] == [];
    WideHashes();
    var hs := Hashes(lines[0]);
    var ps := Positions(lines);
    assert ps == Positions(lines[..0]) + seq(|hs|, k requires 0 <= k < |hs| => (0, hs[k]));
    assert |ps| == 2 && ps[0] == (0, 0) && ps[1] == (0, 2);
    PairOf(ps);
  }

  lemma WideColumns()
    ensures EmptyColsAsWritten(["#.#"]) == Ok([])
    ensures EmptyCols(["#.#"]) == Ok([1])
  {
    var lines: seq<seq<char>> := ["#.#"];
    assert ColumnClear(lines, 0) == Ok(false);
    assert ColumnClear(lines, 1) == Ok(true);
    assert ColumnClear(lines, 2) == Ok(false);
    assert ClearColumnsBelow(lines, 1) == Ok([]);
    var one: seq<nat> := [1];
    assert [] + one == one;
    assert ClearColumnsBelow(lines, 2) == Ok(one);
  }

  /** Two galaxies in one row are as far apart as their columns. */
  lemma PairSumTwo(a: Galaxy, b: Galaxy)
    requires a.i == b.i && a.j <= b.j
    ensures PairSum([a, b]) == b.j - a.j
  {
    assert [a, b][1..] == [b];
    assert [b][1..] == [];
    assert DistFrom(b, [b]) == 0;
    assert DistFrom(a, [b]) == b.j - a.j;
    assert DistFrom(a, [a, b]) == b.j - a.j;
    assert PairSum([b]) == 0;
  }

  lemma WideCorrected()
    ensures Galaxies(["#.#"], 2) == Ok([Galaxy(0, 0), Galaxy(0, 3)])
  {
    var lines: seq<seq<char>> := ["#.#"];
    WidePositions();
    WideColumns();
    assert EmptyRows(lines) == [];
    var cols: seq<nat> := [1];
    assert cols[..0] == [];
    assert Place(0, 2, [], cols, 2) == Galaxy(0, 3);
    assert Place(0, 0, [], cols, 2) == Galaxy(0, 0);
    var wide := Nodes(lines, [], cols, 2);
    assert |wide| == 2;
    assert wide[0] == Galaxy(0, 0);
    assert wide[1] == Galaxy(0, 3);
    PairOf(wide);
  }

  lemma WideAsWritten()
    ensures GalaxiesAsWritten(["#.#"], 2) == Ok([Galaxy(0, 0), Galaxy(0, 2)])
  {
    var lines: seq<seq<char>> := ["#.#"];
    WidePositions();
    WideColumns();
    assert EmptyRows(lines) == [];
    assert Place(0, 2, [], [], 2) == Galaxy(0, 2);
    assert Place(0, 0, [], [], 2) == Galaxy(0, 0);
    var written := Nodes(lines, [], [], 2);
    assert |written| == 2;
    assert written[0] == Galaxy(0, 0);
    assert written[1] == Galaxy(0, 2);
    PairOf(written);
  }

  /** One row `#.#` with expansion 2: column 1 is empty, but the scan as
      written covers only `0..0`, so the galaxies stay 2 apart instead of 3. */
  lemma WideImage()
    ensures AnswerAsWritten(["#.#"], 2) == Ok(2)
    ensures Answer(["#.#"], 2) == Ok(3)
  {
    WideAnswerAsWritten();
    WideAnswer();
  }

  lemma WideAnswerAsWritten()
    ensures AnswerAsWritten(["#.#"], 2) == Ok(2)
  {
    var lines: seq<seq<char>> := ["#.#"];
    var written := [Galaxy(0, 0), Galaxy(0, 2)];
    WideAsWritten();
    PairSumTwo(Galaxy(0, 0), Galaxy(0, 2));
    PairSumDistinct(written);
  }

  lemma WideAnswer()
    ensures Answer(["#.#"], 2) == Ok(3)
  {
    var lines: seq<seq<char>> := ["#.#"];
    var wide := [Galaxy(0, 0), Galaxy(0, 3)];
    WideCorrected();
    PairSumTwo(Galaxy(0, 0), Galaxy(0, 3));
    PairSumDistinct(wide);
  }

  /** Three rows of one column: as written the scan indexes column 1 of a
      one-character row and panics; the corrected scan succeeds. */
  lemma TallImage()
    ensures AnswerAsWritten(["#", "#", "#"], 2) == Panic(IndexOutOfBounds)
    ensures Answer(["#", "#", "#"], 2).Ok?
  {
    var lines: seq<seq<char>> := ["#", "#", "#"];
    assert ColumnClear(lines, 0) == Ok(false);
    assert ColumnClear(lines, 1) == Panic(IndexOutOfBounds);
    assert ClearColumnsBelow(lines, 2) == Panic(IndexOutOfBounds);
    EmptyColsExact(lines);
  }
}
