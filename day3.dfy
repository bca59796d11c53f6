/** Day 3: the numbers of an engine schematic. Every maximal run of decimal
    digits in a row is one number, keyed by its row and start column; a number
    is a part number when a cell next to one of its digits holds something
    other than '.'. The length of a number is computed from its value
    (`checked_ilog10() + 1`), which the README's findings discuss;
    `IsPartNumber` with the run's own length is the corrected rule. */
module Day3 {
  import opened Wrappers
  import opened Strings
  import opened Grids

  // --------------------------------------------------- numbers in the grid

  /** A number starts at column `s` of `row`: a digit not preceded by one. */
  predicate RunStart(row: seq<char>, s: int) {
    0 <= s < |row| && IsDigit(row[s]) && (s == 0 || !IsDigit(row[s - 1]))
  }

  /** The end (exclusive) of the digits starting at `i`. */
  function RunEnd(row: seq<char>, i: nat): (e: nat)
    requires i <= |row|
    ensures i <= e <= |row|
    ensures forall k :: i <= k < e ==> IsDigit(row[k])
    ensures e == |row| || !IsDigit(row[e])
    ensures i < |row| && IsDigit(row[i]) ==> i < e
    decreases |row| - i
  {
    if i < |row| && IsDigit(row[i]) then RunEnd(row, i + 1) else i
  }

  /** The digits of the number starting at `s`. */
  function RunDigits(row: seq<char>, s: nat): (d: string)
    requires s <= |row|
    ensures AllDigits(d)
  {
    row[s..RunEnd(row, s)]
  }

  /** A regex match `m`: `m.start()` and `m.as_str()`. */
  datatype Run = Run(start: nat, digits: string)

  /** Position `i` is not in the middle of a run of digits, so a scan may
      resume there. */
  predicate Boundary(row: seq<char>, i: nat) {
    i == 0 || i >= |row| || !IsDigit(row[i - 1]) || !IsDigit(row[i])
  }

  /** `Regex::new("[0-9]+").find_iter(row)` from position `i`: the leftmost,
      longest runs of digits in order. Every match is a whole number of the
      row, and the matches are in increasing column order. */
  function RunsFrom(row: seq<char>, i: nat): (r: seq<Run>)
    requires i <= |row| && Boundary(row, i)
    ensures forall k :: 0 <= k < |r| ==>
      i <= r[k].start && RunStart(row, r[k].start) && r[k].digits == RunDigits(row, r[k].start)
    ensures forall a, b :: 0 <= a < b < |r| ==> r[a].start < r[b].start
    decreases |row| - i
  {
    if i == |row| then []
    else if IsDigit(row[i]) then
      var e := RunEnd(row, i);
      [Run(i, row[i..e])] + RunsFrom(row, e)
    else RunsFrom(row, i + 1)
  }

  /** Conversely, every number of the row at or after `i` is matched. */
  lemma {:induction false} RunsFromComplete(row: seq<char>, i: nat, s: nat)
    requires i <= |row| && Boundary(row, i) && i <= s && RunStart(row, s)
    ensures exists k :: 0 <= k < |RunsFrom(row, i)| && RunsFrom(row, i)[k].start == s
    decreases |row| - i
  {
    var r := RunsFrom(row, i);
    if IsDigit(row[i]) {
      var e := RunEnd(row, i);
      if s == i {
        assert r[0].start == s;
      } else {
        assert s >= e;
        RunsFromComplete(row, e, s);
        var k :| 0 <= k < |RunsFrom(row, e)| && RunsFrom(row, e)[k].start == s;
        assert r[k + 1] == RunsFrom(row, e)[k];
      }
    } else {
      RunsFromComplete(row, i + 1, s);
    }
  }

  /** The value of the number starting at `s` (the `parse::<u32>()` of its
      digits). */
  function RunValue(row: seq<char>, s: nat): nat
    requires s <= |row|
  {
    DecimalValue(RunDigits(row, s))
  }

  type Key = (nat, nat)

  /** The entries contributed by row `i`: ((row, start), value) per match. */
  function RowEntries(i: nat, row: seq<char>): (r: seq<(Key, nat)>)
    ensures forall k :: 0 <= k < |r| ==>
      r[k].0.0 == i && RunStart(row, r[k].0.1) && r[k].1 == RunValue(row, r[k].0.1)
    ensures forall a, b :: 0 <= a < b < |r| ==> r[a].0.1 < r[b].0.1
  {
    var runs := RunsFrom(row, 0);
    seq(|runs|, k requires 0 <= k < |runs| => ((i, runs[k].start), DecimalValue(runs[k].digits)))
  }

  /** The keys of `es` are pairwise distinct. */
  predicate DistinctKeys(es: seq<(Key, nat)>) {
    forall a, b :: 0 <= a < b < |es| ==> es[a].0 != es[b].0
  }

  /** The `flatten`ed entries of all rows, in row order. */
  function GridEntries(grid: Grid): (r: seq<(Key, nat)>)
    ensures forall k :: 0 <= k < |r| ==>
      r[k].0.0 < |grid| && RunStart(grid[r[k].0.0], r[k].0.1) &&
      r[k].1 == RunValue(grid[r[k].0.0], r[k].0.1)
    ensures DistinctKeys(r)
    decreases |grid|
  {
    if grid == [] then []
    else
      var init := grid[..|grid| - 1];
      assert forall i :: 0 <= i < |init| ==> init[i] == grid[i];
      GridEntries(init) + RowEntries(|grid| - 1, grid[|grid| - 1])
  }

  /** `.collect::<HashMap<_, _>>()`: entries inserted in order, a later one
      overwriting an earlier one with the same key. */
  function ToMap(es: seq<(Key, nat)>): (m: map<Key, nat>)
    ensures forall key :: key in m <==> exists k :: 0 <= k < |es| && es[k].0 == key
  {
    if es == [] then map[] else ToMap(es[..|es| - 1])[es[|es| - 1].0 := es[|es| - 1].1]
  }

  /** With distinct keys nothing is overwritten: every entry is in the map. */
  lemma {:induction false} ToMapDistinct(es: seq<(Key, nat)>, k: nat)
    requires DistinctKeys(es) && k < |es|
    ensures ToMap(es)[es[k].0] == es[k].1
    decreases |es|
  {
    if k < |es| - 1 {
      var init := es[..|es| - 1];
      assert init[k] == es[k];
      ToMapDistinct(init, k);
    }
  }

  /** `find_numbers_in_grid`. */
  function NumbersInGrid(grid: Grid): map<Key, nat> {
    ToMap(GridEntries(grid))
  }

  /** The map holds exactly one entry per number of the schematic, keyed by
      its row and start column and mapped to its decimal value. */
  lemma NumbersInGridSpec(grid: Grid, i: nat, s: nat)
    ensures (i, s) in NumbersInGrid(grid) <==> i < |grid| && RunStart(grid[i], s)
    ensures (i, s) in NumbersInGrid(grid) ==> NumbersInGrid(grid)[(i, s)] == RunValue(grid[i], s)
  {
    var es := GridEntries(grid);
    if i < |grid| && RunStart(grid[i], s) {
      EntryOfRun(grid, i, s);
    }
    if (i, s) in NumbersInGrid(grid) {
      var k :| 0 <= k < |es| && es[k].0 == (i, s);
      ToMapDistinct(es, k);
    }
  }

  lemma {:induction false} EntryOfRun(grid: Grid, i: nat, s: nat)
    requires i < |grid| && RunStart(grid[i], s)
    ensures exists k :: 0 <= k < |GridEntries(grid)| && GridEntries(grid)[k].0 == (i, s)
    decreases |grid|
  {
    var es := GridEntries(grid);
    var init := grid[..|grid| - 1];
    var n := |GridEntries(init)|;
    if i < |grid| - 1 {
      assert init[i] == grid[i];
      EntryOfRun(init, i, s);
      var k :| 0 <= k < n && GridEntries(init)[k].0 == (i, s);
      assert es[k] == GridEntries(init)[k];
    } else {
      RunsFromComplete(grid[i], 0, s);
      var runs := RunsFrom(grid[i], 0);
      var k :| 0 <= k < |runs| && runs[k].start == s;
      assert es[n + k] == RowEntries(i, grid[i])[k];
    }
  }

  // ------------------------------------------------------ number length

  /** `n.checked_ilog10()`: None for 0, otherwise the number of times `n` can
      be divided by ten before it drops below ten. */
  function CheckedIlog10(n: nat): (r: Option<nat>)
    ensures r.None? <==> n == 0
    decreases n
  {
    if n == 0 then None
    else if n < 10 then Some(0)
    else Some(CheckedIlog10(n / 10).value + 1)
  }

  /** `checked_ilog10().unwrap_or(0) + 1`. */
  function NumLen(n: nat): (len: nat)
    ensures len >= 1
  {
    match CheckedIlog10(n)
    case Some(l) => l + 1
    case None => 1
  }

  /** The length is the number of decimal digits `n` is printed with. */
  lemma {:induction false} NumLenDigits(n: nat)
    ensures NumLen(n) == |NatToString(n)|
    decreases n
  {
    if n >= 10 {
      NumLenDigits(n / 10);
    }
  }

  lemma {:induction false} DecimalValuePositive(d: string)
    requires AllDigits(d) && |d| > 0 && d[0] != '0'
    ensures DecimalValue(d) >= 1
    decreases |d|
  {
    if |d| > 1 {
      DecimalValuePositive(d[..|d| - 1]);
    }
  }

  /** The length recovered from a run's value is the run's length, provided
      the run has no leading zero. */
  lemma {:induction false} NumLenOfDigits(d: string)
    requires AllDigits(d) && |d| > 0 && (d[0] != '0' || |d| == 1)
    ensures NumLen(DecimalValue(d)) == |d|
    decreases |d|
  {
    if |d| > 1 {
      var p := d[..|d| - 1];
      DecimalValuePositive(p);
      NumLenOfDigits(p);
      var v := DecimalValue(p);
      assert (10 * v + DigitValue(d[|d| - 1])) / 10 == v;
    } else {
      assert DecimalValue(d) == DigitValue(d[0]);
    }
  }

  // ------------------------------------------------------ the part rule

  /** The neighbours of digit `off` of a number of `len` digits at (i, s),
      with the west neighbour masked after the first digit and the east one
      before the last (they are the number's own digits). */
  function MaskedNeighbours(grid: Grid, i: int, s: int, len: nat, off: nat): seq<Option<char>> {
    var nb := NeighboursOf(grid, i, s + off);
    var nb1 := if off > 0 then nb.(w := None) else nb;
    var nb2 := if off < len - 1 then nb1.(e := None) else nb1;
    nb2.AsSeq()
  }

  /** `.any(|x| x.unwrap_or('.') != '.')`. */
  predicate AnySymbol(cells: seq<Option<char>>) {
    exists k :: 0 <= k < |cells| && cells[k].Some? && cells[k].value != '.'
  }

  /** `is_part_number` for a number of `len` digits starting at (i, s). */
  predicate IsPartNumber(grid: Grid, i: int, s: int, len: nat) {
    exists off :: 0 <= off < len && AnySymbol(MaskedNeighbours(grid, i, s, len, off))
  }

  /** (a, b) is orthogonally next to the number of `len` digits at (i, s)
      without being one of its cells. */
  predicate Adjacent(a: int, b: int, i: int, s: int, len: nat) {
    ((a == i - 1 || a == i + 1) && s <= b < s + len) ||
    (a == i && (b == s - 1 || b == s + len))
  }

  ghost predicate TouchesSymbol(grid: Grid, i: int, s: int, len: nat) {
    exists a, b :: Adjacent(a, b, i, s, len) && InGrid(grid, a, b) && grid[a][b] != '.'
  }

  /** The four cells `MaskedNeighbours` hands over for digit `off`. */
  lemma MaskedCells(grid: Grid, i: int, s: int, len: nat, off: nat)
    requires off < len
    ensures var c := MaskedNeighbours(grid, i, s, len, off);
      && |c| == 4
      && c[0] == Cell(grid, i - 1, s + off) && c[2] == Cell(grid, i + 1, s + off)
      && c[1] == (if off < len - 1 then None else Cell(grid, i, s + off + 1))
      && c[3] == (if off > 0 then None else Cell(grid, i, s + off - 1))
  {
  }

  /** The masking rule means what it is for: a number is a part number exactly
      when some cell next to it, and not part of it, is in the grid and is not
      '.'. */
  lemma PartNumberIffTouches(grid: Grid, i: int, s: int, len: nat)
    requires len >= 1
    ensures IsPartNumber(grid, i, s, len) <==> TouchesSymbol(grid, i, s, len)
  {
    if IsPartNumber(grid, i, s, len) {
      PartNumberTouches(grid, i, s, len);
    }
    if TouchesSymbol(grid, i, s, len) {
      TouchesPartNumber(grid, i, s, len);
    }
  }

  lemma PartNumberTouches(grid: Grid, i: int, s: int, len: nat)
    requires IsPartNumber(grid, i, s, len)
    ensures TouchesSymbol(grid, i, s, len)
  {
    var off :| 0 <= off < len && AnySymbol(MaskedNeighbours(grid, i, s, len, off));
    var cells := MaskedNeighbours(grid, i, s, len, off);
    var k :| 0 <= k < |cells| && cells[k].Some? && cells[k].value != '.';
    MaskedCells(grid, i, s, len, off);
    var b := s + off;
    if k == 0 {
      assert Adjacent(i - 1, b, i, s, len) && InGrid(grid, i - 1, b);
    } else if k == 1 {
      assert Adjacent(i, b + 1, i, s, len) && InGrid(grid, i, b + 1);
    } else if k == 2 {
      assert Adjacent(i + 1, b, i, s, len) && InGrid(grid, i + 1, b);
    } else {
      assert Adjacent(i, b - 1, i, s, len) && InGrid(grid, i, b - 1);
    }
  }

  lemma TouchesPartNumber(grid: Grid, i: int, s: int, len: nat)
    requires len >= 1 && TouchesSymbol(grid, i, s, len)
    ensures IsPartNumber(grid, i, s, len)
  {
    var a, b :| Adjacent(a, b, i, s, len) && InGrid(grid, a, b) && grid[a][b] != '.';
    var off: nat, k;
    if a == i - 1 {
      off, k := b - s, 0;
    } else if a == i + 1 {
      off, k := b - s, 2;
    } else if b == s - 1 {
      off, k := 0, 3;
    } else {
      off, k := len - 1, 1;
    }
    MaskedCells(grid, i, s, len, off);
    var cells := MaskedNeighbours(grid, i, s, len, off);
    assert cells[k] == Some(grid[a][b]);
  }

  // ------------------------------------------------------------ the answer

  /** The length of the number at (i, s) as the schematic shows it. */
  function RunLength(grid: Grid, i: nat, s: nat): nat {
    if i < |grid| && s <= |grid[i]| then RunEnd(grid[i], s) - s else 0
  }

  /** The part-one sum as written: each number's length is taken from its
      value. */
  function PartSumAsWritten(grid: Grid, es: seq<(Key, nat)>): int {
    if es == [] then 0
    else
      var e := es[|es| - 1];
      PartSumAsWritten(grid, es[..|es| - 1]) +
        (if IsPartNumber(grid, e.0.0, e.0.1, NumLen(e.1)) then e.1 else 0)
  }

  /** The part-one sum with each number's length taken from the schematic. */
  function PartSum(grid: Grid, es: seq<(Key, nat)>): int {
    if es == [] then 0
    else
      var e := es[|es| - 1];
      PartSum(grid, es[..|es| - 1]) +
        (if IsPartNumber(grid, e.0.0, e.0.1, RunLength(grid, e.0.0, e.0.1)) then e.1 else 0)
  }

  /** The answer: the sum over the entries of the map, one per number. */
  function PartNumberSum(grid: Grid): (r: int)
    ensures 0 <= r <= TotalOf(GridEntries(grid))
  {
    PartSumBounds(grid, GridEntries(grid));
    PartSum(grid, GridEntries(grid))
  }

  /** The answer as written, with each number's length taken from its value. */
  function PartNumberSumAsWritten(grid: Grid): (r: int)
    ensures 0 <= r <= TotalOf(GridEntries(grid))
  {
    PartSumAsWrittenBounds(grid, GridEntries(grid));
    PartSumAsWritten(grid, GridEntries(grid))
  }

  /** No number of the schematic has a leading zero. */
  ghost predicate NoLeadingZeros(grid: Grid) {
    forall i, s :: 0 <= i < |grid| && RunStart(grid[i], s) ==>
      grid[i][s] != '0' || RunEnd(grid[i], s) == s + 1
  }

  /** The part sum lies between 0 and the sum of all numbers. */
  lemma {:induction false} PartSumBounds(grid: Grid, es: seq<(Key, nat)>)
    ensures 0 <= PartSum(grid, es) <= TotalOf(es)
    decreases |es|
  {
    if es != [] {
      PartSumBounds(grid, es[..|es| - 1]);
    }
  }

  /** So does the part sum as written. */
  lemma {:induction false} PartSumAsWrittenBounds(grid: Grid, es: seq<(Key, nat)>)
    ensures 0 <= PartSumAsWritten(grid, es) <= TotalOf(es)
    decreases |es|
  {
    if es != [] {
      PartSumAsWrittenBounds(grid, es[..|es| - 1]);
    }
  }

  function TotalOf(es: seq<(Key, nat)>): nat {
    if es == [] then 0 else TotalOf(es[..|es| - 1]) + es[|es| - 1].1
  }

  lemma {:induction false} SumsAgree(grid: Grid, es: seq<(Key, nat)>)
    requires NoLeadingZeros(grid)
    requires forall k :: 0 <= k < |es| ==>
      es[k].0.0 < |grid| && RunStart(grid[es[k].0.0], es[k].0.1) &&
      es[k].1 == RunValue(grid[es[k].0.0], es[k].0.1)
    ensures PartSumAsWritten(grid, es) == PartSum(grid, es)
    decreases |es|
  {
    if es != [] {
      var e := es[|es| - 1];
      var pre := es[..|es| - 1];
      assert forall k :: 0 <= k < |pre| ==> pre[k] == es[k];
      SumsAgree(grid, pre);
      RunLengthOfValue(grid, e.0.0, e.0.1);
    }
  }

  /** Without leading zeros a number's value has as many digits as its run. */
  lemma RunLengthOfValue(grid: Grid, i: nat, s: nat)
    requires NoLeadingZeros(grid)
    requires i < |grid| && RunStart(grid[i], s)
    ensures NumLen(RunValue(grid[i], s)) == RunLength(grid, i, s)
  {
    var d := RunDigits(grid[i], s);
    assert d[0] == grid[i][s];
    NumLenOfDigits(d);
  }

  /** Without leading zeros the length from the value is the run's length,
      and the written answer is the intended one. */
  lemma NoLeadingZerosAgree(grid: Grid)
    requires NoLeadingZeros(grid)
    ensures PartNumberSumAsWritten(grid) == PartNumberSum(grid)
  {
    SumsAgree(grid, GridEntries(grid));
  }

  /** The row "07" holds the number 7, with no symbol anywhere. The written
      rule takes its length to be 1, finds the digit '7' east of the '0'
      unmasked, and counts it; the corrected rule does not. */
  lemma LeadingZeroCounted()
    ensures GridEntries(["07"]) == [((0, 0), 7)]
    ensures PartNumberSumAsWritten(["07"]) == 7
    ensures PartNumberSum(["07"]) == 0
  {
    var grid: Grid := ["07"];
    var row := grid[0];
    assert RunEnd(row, 2) == 2;
    assert RunEnd(row, 0) == 2;
    assert RunsFrom(row, 2) == [];
    assert row[0..2] == "07";
    assert DecimalValue("07") == 7 by {
      assert "07"[..1] == "0";
      assert "0"[..0] == "";
    }
    assert RunsFrom(row, 0) == [Run(0, "07")];
    assert grid[..0] == [];
    assert GridEntries(grid) == [((0, 0), 7)];
    var es := GridEntries(grid);
    assert es[..0] == [];
    assert NumLen(7) == 1;
    assert MaskedNeighbours(grid, 0, 0, 1, 0)[1] == Some('7');
    assert IsPartNumber(grid, 0, 0, 1);
    assert RunLength(grid, 0, 0) == 2;
    PartNumberIffTouches(grid, 0, 0, 2);
    assert !TouchesSymbol(grid, 0, 0, 2);
  }
}
