/** Day 13: mirrors in patterns of ash and rocks. A vertical mirror after
    column c pairs column c - k - 1 with column c + k; the search returns the
    first c whose pairs differ in exactly the allowed number of cells (0 for
    part 1, 1 for part 2). The row search is the same on rows. */
module Day13 {
  import opened Wrappers
  import opened Grids

  function Min(a: nat, b: nat): nat {
    if a <= b then a else b
  }

  /** The cells in which two lines differ, over their common length (`zip`). */
  function CountDiff(a: seq<char>, b: seq<char>): (r: nat)
    ensures r <= Min(|a|, |b|)
  {
    if a == [] || b == [] then 0
    else (if a[0] != b[0] then 1 else 0) + CountDiff(a[1..], b[1..])
  }

  /** No difference exactly when the lines agree over their common length. */
  lemma {:induction false} CountDiffZero(a: seq<char>, b: seq<char>)
    ensures CountDiff(a, b) == 0 <==> forall k :: 0 <= k < Min(|a|, |b|) ==> a[k] == b[k]
  {
    if a != [] && b != [] {
      CountDiffZero(a[1..], b[1..]);
      assert forall k :: 1 <= k < Min(|a|, |b|) ==> a[1..][k - 1] == a[k] && b[1..][k - 1] == b[k];
    }
  }

  /** The differences of paired lines, summed over the common length. */
  function PairDiffs(xs: seq<seq<char>>, ys: seq<seq<char>>): nat {
    if xs == [] || ys == [] then 0
    else CountDiff(xs[0], ys[0]) + PairDiffs(xs[1..], ys[1..])
  }

  /** No difference exactly when every pair agrees. */
  lemma {:induction false} PairDiffsZero(xs: seq<seq<char>>, ys: seq<seq<char>>)
    ensures PairDiffs(xs, ys) == 0 <==> forall k :: 0 <= k < Min(|xs|, |ys|) ==> CountDiff(xs[k], ys[k]) == 0
  {
    if xs != [] && ys != [] {
      PairDiffsZero(xs[1..], ys[1..]);
      assert forall k :: 1 <= k < Min(|xs|, |ys|) ==> xs[1..][k - 1] == xs[k] && ys[1..][k - 1] == ys[k];
    }
  }

  // ----------------------------------------------------------------- columns

  /** Every row has at least `w` cells: reading cell `w - 1` of each row with
      `chars().nth(w - 1).unwrap()` does not panic. */
  predicate Reaches(pattern: seq<seq<char>>, w: nat) {
    forall i :: 0 <= i < |pattern| ==> w <= |pattern[i]|
  }

  /** Column `j`, read top to bottom. */
  function Column(pattern: seq<seq<char>>, j: nat): (r: seq<char>)
    requires Reaches(pattern, j + 1)
  {
    seq(|pattern|, i requires 0 <= i < |pattern| && j < |pattern[i]| => pattern[i][j])
  }

  /** The columns left of the mirror after column `c`, nearest first. */
  function LeftColumns(pattern: seq<seq<char>>, c: nat, n: nat): (r: seq<seq<char>>)
    requires n <= c && Reaches(pattern, c)
  {
    seq(n, k requires 0 <= k < n => Column(pattern, c - k - 1))
  }

  /** The columns right of the mirror after column `c`, nearest first. */
  function RightColumns(pattern: seq<seq<char>>, c: nat, n: nat): (r: seq<seq<char>>)
    requires Reaches(pattern, c + n)
  {
    seq(n, k requires 0 <= k < n => Column(pattern, c + k))
  }

  /** The differences across a vertical mirror after column `c`, comparing
      `min(c, width - c)` column pairs. A row too short for a compared
      column panics on `unwrap`; no column is read when nothing is compared. */
  function ColMismatch(pattern: seq<seq<char>>, c: nat): (r: Result<nat>)
    requires pattern != [] && c <= |pattern[0]|
    ensures r.Panic? ==> r.reason == UnwrapNone
  {
    var n := Min(c, |pattern[0]| - c);
    if n == 0 then Ok(PairDiffs([], []))
    else if Reaches(pattern, c + n) then Ok(PairDiffs(LeftColumns(pattern, c, n), RightColumns(pattern, c, n)))
    else Panic(UnwrapNone)
  }

  /** The search passes column `d`: its mismatch is not the budget. */
  predicate Passes(pattern: seq<seq<char>>, allowed: nat, d: nat)
    requires pattern != [] && d <= |pattern[0]|
  {
    ColMismatch(pattern, d).Ok? && ColMismatch(pattern, d).value != allowed
  }

  /** The search from column `c` on: the first whose mismatch is exactly
      `allowed`. */
  function FindColFrom(pattern: seq<seq<char>>, allowed: nat, c: nat): (r: Result<Option<nat>>)
    requires pattern != [] && 1 <= c
    ensures r.Ok? && r.value.Some? ==> c <= r.value.value < |pattern[0]| && ColMismatch(pattern, r.value.value) == Ok(allowed)
    ensures r.Ok? ==> forall d :: c <= d < |pattern[0]| && (r.value.None? || d < r.value.value) ==> Passes(pattern, allowed, d)
    ensures r.Panic? ==> r.reason == UnwrapNone
    decreases |pattern[0]| - c
  {
    if c >= |pattern[0]| then Ok(None)
    else
      var m := ColMismatch(pattern, c);
      if m.Panic? then Panic(m.reason)
      else if m.value == allowed then Ok(Some(c))
      else FindColFrom(pattern, allowed, c + 1)
  }

  /** `find_reflect_col`: columns 1 to width - 1 of the first row; an empty
      pattern panics on `pattern[0]`, a row too short on `unwrap`. */
  function ReflectCol(pattern: seq<seq<char>>, allowed: nat): (r: Result<Option<nat>>)
    ensures pattern == [] ==> r == Panic(IndexOutOfBounds)
    ensures r.Ok? && r.value.Some? ==> 1 <= r.value.value < |pattern[0]| && ColMismatch(pattern, r.value.value) == Ok(allowed)
    ensures r.Ok? ==> forall d :: 1 <= d < |pattern[0]| && (r.value.None? || d < r.value.value) ==> Passes(pattern, allowed, d)
  {
    if pattern == [] then Panic(IndexOutOfBounds)
    else
      FindColFrom(pattern, allowed, 1)
  }

  /** On a rectangular pattern every column the search needs exists: the
      search never panics. */
  lemma {:induction false} RectangularNoPanic(pattern: seq<seq<char>>, allowed: nat, c: nat)
    requires pattern != [] && Rectangular(pattern) && 1 <= c
    ensures FindColFrom(pattern, allowed, c).Ok?
    decreases |pattern[0]| - c
  {
    if c < |pattern[0]| {
      ColMismatchOk(pattern, c);
      RectangularNoPanic(pattern, allowed, c + 1);
    }
  }

  lemma ColMismatchOk(pattern: seq<seq<char>>, c: nat)
    requires pattern != [] && Rectangular(pattern) && c <= |pattern[0]|
    ensures ColMismatch(pattern, c).Ok?
  {
    assert Reaches(pattern, |pattern[0]|);
  }

  /** The mirror holds exactly: no mismatch means every row reads the same
      leftwards and rightwards from column `c` over the compared width. */
  lemma PerfectMirror(pattern: seq<seq<char>>, c: nat)
    requires pattern != [] && Rectangular(pattern) && c <= |pattern[0]|
    ensures ColMismatch(pattern, c).Ok?
    ensures ColMismatch(pattern, c).value == 0 <==>
      forall i, a :: 0 <= i < |pattern| && c - Min(c, |pattern[0]| - c) <= a < c ==> pattern[i][a] == pattern[i][2 * c - 1 - a]
  {
    ColMismatchOk(pattern, c);
    var n := Min(c, |pattern[0]| - c);
    if n > 0 {
      assert Reaches(pattern, c + n);
      var lefts := LeftColumns(pattern, c, n);
      var rights := RightColumns(pattern, c, n);
      PairDiffsZero(lefts, rights);
      if ColMismatch(pattern, c).value == 0 {
        forall i, a | 0 <= i < |pattern| && c - n <= a < c ensures pattern[i][a] == pattern[i][2 * c - 1 - a] {
          var k := c - 1 - a;
          assert lefts[k] == Column(pattern, a) && rights[k] == Column(pattern, 2 * c - 1 - a);
          assert CountDiff(lefts[k], rights[k]) == 0;
          CountDiffZero(lefts[k], rights[k]);
          assert Column(pattern, a)[i] == pattern[i][a];
          assert lefts[k][i] == rights[k][i];
        }
      } else {
        var k :| 0 <= k < n && CountDiff(lefts[k], rights[k]) != 0;
        assert lefts[k] == Column(pattern, c - k - 1) && rights[k] == Column(pattern, c + k);
        CountDiffZero(lefts[k], rights[k]);
        var i :| 0 <= i < |pattern| && lefts[k][i] != rights[k][i];
        assert pattern[i][c - k - 1] != pattern[i][c + k];
      }
    }
  }

  // -------------------------------------------------------------------- rows

  function Reverse<T>(s: seq<T>): (r: seq<T>)
    ensures |r| == |s| && forall k :: 0 <= k < |s| ==> r[k] == s[|s| - 1 - k]
  {
    seq(|s|, k requires 0 <= k < |s| => s[|s| - 1 - k])
  }

  /** The differences across a horizontal mirror after row `r`: the rows
      above reversed, paired with the rows below. */
  function RowMismatch(pattern: seq<seq<char>>, r: nat): (m: nat)
    requires r <= |pattern|
  {
    var n := Min(r, |pattern| - r);
    PairDiffs(Reverse(pattern[r - n..r]), pattern[r..r + n])
  }

  function FindRowFrom(pattern: seq<seq<char>>, allowed: nat, r: nat): (res: Option<nat>)
    requires 1 <= r
    ensures res.Some? ==> r <= res.value < |pattern| && RowMismatch(pattern, res.value) == allowed
    ensures forall d :: r <= d < |pattern| && (res.None? || d < res.value) ==> RowMismatch(pattern, d) != allowed
    decreases |pattern| - r
  {
    if r >= |pattern| then None
    else if RowMismatch(pattern, r) == allowed then Some(r)
    else FindRowFrom(pattern, allowed, r + 1)
  }

  /** `find_reflect_row`: rows 1 to height - 1; it cannot panic, and rows of
      different lengths are compared over their common length. */
  function ReflectRow(pattern: seq<seq<char>>, allowed: nat): (res: Option<nat>)
    ensures res.Some? ==> 1 <= res.value < |pattern| && RowMismatch(pattern, res.value) == allowed
    ensures forall d :: 1 <= d < |pattern| && (res.None? || d < res.value) ==> RowMismatch(pattern, d) != allowed
  {
    FindRowFrom(pattern, allowed, 1)
  }

  /** Pair `k` across the mirror after row `r` is rows `r - k - 1` and `r + k`. */
  lemma MirroredRows(pattern: seq<seq<char>>, r: nat, k: nat)
    requires r <= |pattern| && k < Min(r, |pattern| - r)
    ensures var n := Min(r, |pattern| - r);
      Reverse(pattern[r - n..r])[k] == pattern[r - k - 1] && pattern[r..r + n][k] == pattern[r + k]
  {
  }

  /** The row mirror holds exactly when each row above matches its mirror
      image below over their common length. */
  lemma PerfectRowMirror(pattern: seq<seq<char>>, r: nat)
    requires r <= |pattern|
    ensures RowMismatch(pattern, r) == 0 <==>
      forall a :: r - Min(r, |pattern| - r) <= a < r ==> CountDiff(pattern[a], pattern[2 * r - 1 - a]) == 0
  {
    var n := Min(r, |pattern| - r);
    var above, below := Reverse(pattern[r - n..r]), pattern[r..r + n];
    PairDiffsZero(above, below);
    assert |above| == |below| == n;
    if RowMismatch(pattern, r) == 0 {
      forall a | r - n <= a < r ensures CountDiff(pattern[a], pattern[2 * r - 1 - a]) == 0 {
        MirroredRows(pattern, r, r - 1 - a);
      }
    } else {
      var k :| 0 <= k < n && CountDiff(above[k], below[k]) != 0;
      MirroredRows(pattern, r, k);
    }
  }

  // --------------------------------------------------------------- analogue

  /** A column of a rectangular pattern is a row of its transpose. */
  lemma ColumnOfTranspose(pattern: seq<seq<char>>, j: nat)
    requires pattern != [] && Rectangular(pattern) && j < |pattern[0]|
    ensures Reaches(pattern, j + 1) && Column(pattern, j) == Transpose(pattern)[j]
  {
  }

  /** The row search is the column search on the transposed pattern: the
      mismatch after a column is the mismatch after the same row of the
      transpose. */
  lemma ColIsRowOfTranspose(pattern: seq<seq<char>>, c: nat)
    requires pattern != [] && Rectangular(pattern) && c <= |pattern[0]|
    ensures ColMismatch(pattern, c) == Ok(RowMismatch(Transpose(pattern), c))
  {
    var t := Transpose(pattern);
    var n := Min(c, |pattern[0]| - c);
    if n > 0 {
      assert Reaches(pattern, c + n);
      LeftsAbove(pattern, c, n);
      RightsBelow(pattern, c, n);
    }
  }

  lemma LeftsAbove(pattern: seq<seq<char>>, c: nat, n: nat)
    requires pattern != [] && Rectangular(pattern) && n <= c <= |pattern[0]|
    ensures Reaches(pattern, c) && LeftColumns(pattern, c, n) == Reverse(Transpose(pattern)[c - n..c])
  {
    assert Reaches(pattern, c);
    var t := Transpose(pattern);
    var lefts, above := LeftColumns(pattern, c, n), Reverse(t[c - n..c]);
    forall k | 0 <= k < n ensures lefts[k] == above[k] {
      ColumnOfTranspose(pattern, c - k - 1);
    }
  }

  lemma RightsBelow(pattern: seq<seq<char>>, c: nat, n: nat)
    requires pattern != [] && Rectangular(pattern) && c + n <= |pattern[0]|
    ensures Reaches(pattern, c + n) && RightColumns(pattern, c, n) == Transpose(pattern)[c..c + n]
  {
    assert Reaches(pattern, c + n);
    var t := Transpose(pattern);
    var rights, below := RightColumns(pattern, c, n), t[c..c + n];
    forall k | 0 <= k < n ensures rights[k] == below[k] {
      ColumnOfTranspose(pattern, c + k);
    }
  }

  lemma {:induction false} FindColIsFindRow(pattern: seq<seq<char>>, allowed: nat, c: nat)
    requires pattern != [] && Rectangular(pattern) && 1 <= c
    ensures FindColFrom(pattern, allowed, c) == Ok(FindRowFrom(Transpose(pattern), allowed, c))
    decreases |pattern[0]| - c
  {
    if c < |pattern[0]| {
      ColIsRowOfTranspose(pattern, c);
      FindColIsFindRow(pattern, allowed, c + 1);
    }
  }

  /** `find_reflect_row` is the row analogue of `find_reflect_col`. */
  lemma ReflectColIsReflectRow(pattern: seq<seq<char>>, allowed: nat)
    requires pattern != [] && Rectangular(pattern)
    ensures ReflectCol(pattern, allowed) == Ok(ReflectRow(Transpose(pattern), allowed))
  {
    FindColIsFindRow(pattern, allowed, 1);
  }

  // ------------------------------------------------------------------ scores

  function OrZero(o: Option<nat>): nat {
    if o.Some? then o.value else 0
  }

  /** A pattern's score: the mirror column plus 100 times the mirror row,
      each 0 when there is none. */
  function Score(pattern: seq<seq<char>>, allowed: nat): (r: Result<nat>)
    ensures r.Panic? <==> ReflectCol(pattern, allowed).Panic?
    ensures r.Ok? ==> r.value - 100 * OrZero(ReflectRow(pattern, allowed)) == OrZero(ReflectCol(pattern, allowed).value)
  {
    var col :- ReflectCol(pattern, allowed);
    Ok(OrZero(col) + 100 * OrZero(ReflectRow(pattern, allowed)))
  }

  /** The budget is exact: the two-column pattern "##" mirrors perfectly, so
      allowing one difference finds no mirror. */
  lemma ExactBudget()
    ensures ReflectCol(["##"], 0) == Ok(Some(1))
    ensures ReflectCol(["##"], 1) == Ok(None)
  {
    var p: seq<seq<char>> := ["##"];
    PerfectMirror(p, 1);
    assert FindColFrom(p, 1, 2) == Ok(None);
  }
}
