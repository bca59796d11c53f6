/** Day 16: a beam of light bouncing through a grid of mirrors ('\' and '/')
    and splitters ('|' and '-'). Every cell a beam passes through gains one
    unit of energy; the answer counts the cells with any energy. A splitter
    hit across its axis sends one beam on and parks the other on a stack;
    a splitter position already split stops any later beam that reaches it
    across its axis. */
module Day16 {
  import opened Wrappers

  const InvalidCell := "Invalid cell. "

  type Pos = (int, int)

  /** `Beam { pos, dir }`: a position (row, column) and a direction. */
  datatype Beam = Beam(pos: Pos, dir: Pos)

  /** `Beam::new()`: the top-left cell, heading right. */
  const Start := Beam((0, 0), (0, 1))

  /** The position lies inside the `rows` × `cols` frame taken from the
      grid's height and its first row. */
  predicate Inside(rows: nat, cols: nat, p: Pos) {
    0 <= p.0 < rows && 0 <= p.1 < cols
  }

  /** A direction of one step along a row or a column. */
  predicate Unit(d: Pos) {
    (d.0 == 0 && (d.1 == 1 || d.1 == -1)) || (d.1 == 0 && (d.0 == 1 || d.0 == -1))
  }

  // ------------------------------------------------------------- deflection

  /** The direction after a mirror: '\' swaps the components, '/' swaps and
      negates them. */
  function Mirror(cell: char, d: Pos): (r: Pos)
    requires cell == '\\' || cell == '/'
  {
    if cell == '\\' then (d.1, d.0) else (-d.1, -d.0)
  }

  /** A mirror reflects a beam straight back onto its way in: reflecting twice
      restores the direction, and a unit step stays a unit step. */
  lemma MirrorInvolution(cell: char, d: Pos)
    requires cell == '\\' || cell == '/'
    ensures Mirror(cell, Mirror(cell, d)) == d
    ensures Unit(d) ==> Unit(Mirror(cell, d)) && Mirror(cell, d) != d && Mirror(cell, d) != (-d.0, -d.1)
  {
  }

  /** The splitter is hit across its axis: '|' by a beam moving along a row,
      '-' by a beam moving along a column. */
  predicate Across(cell: char, d: Pos) {
    (cell == '|' && d.1 != 0) || (cell == '-' && d.0 != 0)
  }

  /** A split sends the two beams out along the splitter's axis in opposite
      directions, both at right angles to the incoming beam; a beam along
      the axis is not split. */
  lemma SplitDirections(cell: char, d: Pos)
    requires (cell == '|' || cell == '-') && Unit(d)
    ensures var kept, other := (d.1, d.0), (-d.1, -d.0);
      Across(cell, d) ==>
        Unit(kept) && other == (-kept.0, -kept.1) && kept.0 * d.0 + kept.1 * d.1 == 0 &&
        (if cell == '|' then kept.1 == 0 && other.1 == 0 else kept.0 == 0 && other.0 == 0)
    ensures !Across(cell, d) <==> (if cell == '|' then d.1 == 0 else d.0 == 0)
  {
  }

  function Move(b: Beam): Beam {
    Beam((b.pos.0 + b.dir.0, b.pos.1 + b.dir.1), b.dir)
  }

  // ------------------------------------------------------------------ energy

  /** `energy` has the grid's shape. */
  predicate Shaped(energy: seq<seq<nat>>, rows: nat, cols: nat) {
    |energy| == rows && forall i :: 0 <= i < rows ==> |energy[i]| == cols
  }

  /** `grid::new_grid(rows, cols)`: all zero. */
  function Zeros(rows: nat, cols: nat): (e: seq<seq<nat>>)
    ensures Shaped(e, rows, cols)
    ensures forall i, j :: 0 <= i < rows && 0 <= j < cols ==> e[i][j] == 0
  {
    seq(rows, _ => seq(cols, _ => 0))
  }

  /** The energy cell at `p` exists. */
  predicate HasCell(energy: seq<seq<nat>>, p: Pos) {
    0 <= p.0 < |energy| && 0 <= p.1 < |energy[p.0]|
  }

  /** `energy[p.0][p.1] += 1`. */
  function Energise(energy: seq<seq<nat>>, p: Pos): seq<seq<nat>>
    requires HasCell(energy, p)
  {
    energy[p.0 := energy[p.0][p.1 := energy[p.0][p.1] + 1]]
  }

  /** Energising keeps the shape, adds one at `p` and changes no other cell. */
  lemma EnergiseCell(energy: seq<seq<nat>>, rows: nat, cols: nat, p: Pos)
    requires Shaped(energy, rows, cols) && Inside(rows, cols, p)
    ensures var r := Energise(energy, p);
      Shaped(r, rows, cols) && r[p.0][p.1] == energy[p.0][p.1] + 1 &&
      forall i, j :: 0 <= i < rows && 0 <= j < cols && (i, j) != p ==> r[i][j] == energy[i][j]
  {
  }

  /** Energy only grows: `e` is pointwise at most `f`. */
  predicate Below(e: seq<seq<nat>>, f: seq<seq<nat>>, rows: nat, cols: nat)
    requires Shaped(e, rows, cols) && Shaped(f, rows, cols)
  {
    forall i, j :: 0 <= i < rows && 0 <= j < cols ==> e[i][j] <= f[i][j]
  }

  // ------------------------------------------------------------------- steps

  /** The state of `get_tile_energies` between two steps: the energy grid, the
      recorded split positions, the stack of waiting beams, and the beam in
      flight (None between two pops). */
  datatype Tracer = Tracer(energy: seq<seq<nat>>, splits: seq<Pos>, stack: seq<Beam>, beam: Option<Beam>)

  /** The beam still in flight, or None once it has left the frame. */
  function Entering(rows: nat, cols: nat, b: Beam): Option<Beam> {
    if Inside(rows, cols, b.pos) then Some(b) else None
  }

  predicate Valid(t: Tracer, rows: nat, cols: nat) {
    Shaped(t.energy, rows, cols) && (t.beam.Some? ==> Inside(rows, cols, t.beam.value.pos))
  }

  /** Nothing is in flight and nothing waits. */
  predicate Done(t: Tracer) {
    t.stack == [] && t.beam.None?
  }

  function Initial(grid: seq<seq<char>>, inBeam: Beam): (t: Tracer)
    requires grid != []
  {
    Tracer(Zeros(|grid|, |grid[0]|), [], [inBeam], None)
  }

  /** One step: either pop the next beam, or energise the beam's cell, turn
      it as the cell says and move it one cell on. Indexing outside the
      energy grid or the grid panics (a row shorter than the first does);
      an unknown cell panics. */
  function Step(grid: seq<seq<char>>, t: Tracer): (r: Result<Tracer>)
    requires grid != []
  {
    var rows, cols := |grid|, |grid[0]|;
    match t.beam
    case None =>
      if t.stack == [] then Ok(t)
      else
        var n := |t.stack| - 1;
        Ok(t.(stack := t.stack[..n], beam := Entering(rows, cols, t.stack[n])))
    case Some(b) =>
      var (i, j) := b.pos;
      if !HasCell(t.energy, b.pos) || !(0 <= i < |grid| && j < |grid[i]|) then Panic(IndexOutOfBounds)
      else
        var energy := Energise(t.energy, b.pos);
        var cell := grid[i][j];
        if cell == '.' then
          Ok(t.(energy := energy, beam := Entering(rows, cols, Move(b))))
        else if cell == '\\' || cell == '/' then
          Ok(t.(energy := energy, beam := Entering(rows, cols, Move(b.(dir := Mirror(cell, b.dir))))))
        else if cell == '|' || cell == '-' then
          if !Across(cell, b.dir) then
            Ok(t.(energy := energy, beam := Entering(rows, cols, Move(b))))
          else if b.pos in t.splits then
            Ok(t.(energy := energy, beam := None))
          else
            var kept := b.(dir := (b.dir.1, b.dir.0));
            var other := b.(dir := (-b.dir.1, -b.dir.0));
            Ok(Tracer(energy, t.splits + [b.pos], t.stack + [kept], Entering(rows, cols, Move(other))))
        else Panic(InvalidCell)
  }

  /** The state after `n` steps from a single waiting beam. */
  function Trace(grid: seq<seq<char>>, inBeam: Beam, n: nat): Result<Tracer>
    requires grid != []
  {
    if n == 0 then Ok(Initial(grid, inBeam))
    else
      var t :- Trace(grid, inBeam, n - 1);
      Step(grid, t)
  }

  // -------------------------------------------------------------- invariants

  /** A step keeps the energy grid in the input's shape and the beam in
      flight inside it. */
  lemma StepValid(grid: seq<seq<char>>, t: Tracer)
    requires grid != [] && Valid(t, |grid|, |grid[0]|) && Step(grid, t).Ok?
    ensures Valid(Step(grid, t).value, |grid|, |grid[0]|)
  {
    if t.beam.Some? {
      EnergiseCell(t.energy, |grid|, |grid[0]|, t.beam.value.pos);
    }
  }

  lemma {:induction false} TraceValid(grid: seq<seq<char>>, inBeam: Beam, n: nat)
    requires grid != [] && Trace(grid, inBeam, n).Ok?
    ensures Valid(Trace(grid, inBeam, n).value, |grid|, |grid[0]|)
  {
    if n > 0 {
      TraceValid(grid, inBeam, n - 1);
      StepValid(grid, Trace(grid, inBeam, n - 1).value);
    }
  }

  /** A step never takes energy away. */
  lemma StepGrows(grid: seq<seq<char>>, t: Tracer)
    requires grid != [] && Valid(t, |grid|, |grid[0]|) && Step(grid, t).Ok?
    ensures Below(t.energy, Step(grid, t).value.energy, |grid|, |grid[0]|)
  {
    if t.beam.Some? {
      EnergiseCell(t.energy, |grid|, |grid[0]|, t.beam.value.pos);
    }
  }

  /** The energy grid keeps the input's shape, and its entries only
      increase over the run. */
  lemma {:induction false} TraceGrows(grid: seq<seq<char>>, inBeam: Beam, m: nat, n: nat)
    requires grid != [] && m <= n && Trace(grid, inBeam, n).Ok?
    ensures Trace(grid, inBeam, m).Ok?
    ensures Shaped(Trace(grid, inBeam, m).value.energy, |grid|, |grid[0]|)
    ensures Shaped(Trace(grid, inBeam, n).value.energy, |grid|, |grid[0]|)
    ensures Below(Trace(grid, inBeam, m).value.energy, Trace(grid, inBeam, n).value.energy, |grid|, |grid[0]|)
    decreases n - m
  {
    TraceValid(grid, inBeam, n);
    if m == n {
      TraceValid(grid, inBeam, m);
    } else {
      var t := Trace(grid, inBeam, n - 1);
      assert t.Ok?;
      TraceValid(grid, inBeam, n - 1);
      StepGrows(grid, t.value);
      TraceGrows(grid, inBeam, m, n - 1);
    }
  }

  /** The top-left tile, where `Beam::new()` enters, is energised by the
      first move and stays energised. */
  lemma StartEnergised(grid: seq<seq<char>>, n: nat)
    requires grid != [] && |grid[0]| > 0 && 2 <= n && Trace(grid, Start, n).Ok?
    ensures Shaped(Trace(grid, Start, n).value.energy, |grid|, |grid[0]|)
    ensures Trace(grid, Start, n).value.energy[0][0] > 0
  {
    TraceGrows(grid, Start, 2, n);
    assert Trace(grid, Start, 0) == Ok(Initial(grid, Start));
    assert Trace(grid, Start, 1) == Step(grid, Initial(grid, Start));
    var t := Trace(grid, Start, 1).value;
    assert t.beam == Some(Start) && t.energy == Zeros(|grid|, |grid[0]|);
    EnergiseCell(t.energy, |grid|, |grid[0]|, (0, 0));
  }

  /** Every recorded split is a splitter cell of the grid, and no position
      is recorded twice: each splitter is split at most once. */
  predicate SplitsWellFormed(grid: seq<seq<char>>, splits: seq<Pos>) {
    (forall k :: 0 <= k < |splits| ==>
      0 <= splits[k].0 < |grid| && 0 <= splits[k].1 < |grid[splits[k].0]| &&
      (grid[splits[k].0][splits[k].1] == '|' || grid[splits[k].0][splits[k].1] == '-')) &&
    (forall k, l :: 0 <= k < l < |splits| ==> splits[k] != splits[l])
  }

  lemma {:induction false} TraceSplits(grid: seq<seq<char>>, inBeam: Beam, n: nat)
    requires grid != [] && Trace(grid, inBeam, n).Ok?
    ensures SplitsWellFormed(grid, Trace(grid, inBeam, n).value.splits)
  {
    if n > 0 {
      TraceSplits(grid, inBeam, n - 1);
      var t := Trace(grid, inBeam, n - 1).value;
      var u := Trace(grid, inBeam, n).value;
      if u.splits != t.splits {
        var b := t.beam.value;
        assert u.splits == t.splits + [b.pos] && b.pos !in t.splits;
        forall k, l | 0 <= k < l < |u.splits| ensures u.splits[k] != u.splits[l] {
          if l < |t.splits| {
            assert u.splits[k] == t.splits[k] && u.splits[l] == t.splits[l];
          } else {
            assert u.splits[k] == t.splits[k];
          }
        }
      }
    }
  }

  /** The cell under a beam in flight can be read. */
  predicate Readable(grid: seq<seq<char>>, b: Beam) {
    0 <= b.pos.0 < |grid| && 0 <= b.pos.1 < |grid[b.pos.0]|
  }

  /** Through an empty cell, or along a splitter's axis, the beam keeps its
      direction and moves one cell on. */
  lemma StepStraight(grid: seq<seq<char>>, inBeam: Beam, n: nat, t: Tracer, b: Beam)
    requires grid != [] && Trace(grid, inBeam, n) == Ok(t) && Valid(t, |grid|, |grid[0]|) && t.beam == Some(b) && Readable(grid, b)
    requires var cell := grid[b.pos.0][b.pos.1]; cell == '.' || ((cell == '|' || cell == '-') && !Across(cell, b.dir))
    ensures Trace(grid, inBeam, n + 1) == Ok(t.(energy := Energise(t.energy, b.pos), beam := Entering(|grid|, |grid[0]|, Move(b))))
  {
  }

  /** At a mirror the beam turns, then moves one cell on. */
  lemma StepMirror(grid: seq<seq<char>>, inBeam: Beam, n: nat, t: Tracer, b: Beam)
    requires grid != [] && Trace(grid, inBeam, n) == Ok(t) && Valid(t, |grid|, |grid[0]|) && t.beam == Some(b) && Readable(grid, b)
    requires var cell := grid[b.pos.0][b.pos.1]; cell == '\\' || cell == '/'
    ensures var turned := b.(dir := Mirror(grid[b.pos.0][b.pos.1], b.dir));
      Trace(grid, inBeam, n + 1) == Ok(t.(energy := Energise(t.energy, b.pos), beam := Entering(|grid|, |grid[0]|, Move(turned))))
  {
  }

  /** A beam that reaches a recorded splitter across its axis stops there:
      the cell is energised, and no beam is added or moved on. */
  lemma StopAtRecordedSplit(grid: seq<seq<char>>, inBeam: Beam, n: nat, t: Tracer, b: Beam)
    requires grid != [] && Trace(grid, inBeam, n) == Ok(t) && Valid(t, |grid|, |grid[0]|) && t.beam == Some(b) && Readable(grid, b)
    requires b.pos in t.splits && Across(grid[b.pos.0][b.pos.1], b.dir)
    ensures Trace(grid, inBeam, n + 1) == Ok(t.(energy := Energise(t.energy, b.pos), beam := None))
  {
  }

  /** A fresh split records the position, parks the beam turned one way on
      the stack at the splitter, and sends the beam turned the other way on. */
  lemma StepSplit(grid: seq<seq<char>>, inBeam: Beam, n: nat, t: Tracer, b: Beam)
    requires grid != [] && Trace(grid, inBeam, n) == Ok(t) && Valid(t, |grid|, |grid[0]|) && t.beam == Some(b) && Readable(grid, b)
    requires var cell := grid[b.pos.0][b.pos.1]; (cell == '|' || cell == '-') && Across(cell, b.dir) && b.pos !in t.splits
    ensures var kept, other := b.(dir := (b.dir.1, b.dir.0)), b.(dir := (-b.dir.1, -b.dir.0));
      Trace(grid, inBeam, n + 1) == Ok(Tracer(Energise(t.energy, b.pos), t.splits + [b.pos], t.stack + [kept],
        Entering(|grid|, |grid[0]|, Move(other))))
  {
  }

  /** The only failures are a short row and an unknown cell, each met when
      the beam in flight reads it. */
  lemma StepPanics(grid: seq<seq<char>>, t: Tracer)
    requires grid != [] && Valid(t, |grid|, |grid[0]|)
    ensures Step(grid, t).Panic? <==>
      t.beam.Some? && (t.beam.value.pos.1 >= |grid[t.beam.value.pos.0]| ||
        grid[t.beam.value.pos.0][t.beam.value.pos.1] !in ['.', '\\', '/', '|', '-'])
  {
  }

  // ------------------------------------------------------------------ method

  /** `get_tile_energies`: run the beams until none is left. The loops have
      no bound of their own, so `fuel` caps the number of steps; `Ok(None)`
      means the fuel ran out first. An empty grid panics on `grid[0]`. */
  method TileEnergies(grid: seq<seq<char>>, inBeam: Beam, fuel: nat) returns (r: Result<Option<seq<seq<nat>>>>, steps: nat)
    ensures grid == [] ==> r == Panic(IndexOutOfBounds)
    ensures steps <= fuel
    ensures grid != [] && r.Panic? ==> Trace(grid, inBeam, steps) == Panic(r.reason)
    ensures grid != [] && r.Ok? && r.value.Some? ==>
      Trace(grid, inBeam, steps).Ok? && Done(Trace(grid, inBeam, steps).value) &&
      Trace(grid, inBeam, steps).value.energy == r.value.value
    ensures grid != [] && r == Ok(None) ==>
      steps == fuel && Trace(grid, inBeam, steps).Ok? && !Done(Trace(grid, inBeam, steps).value)
  {
    if grid == [] {
      return Panic(IndexOutOfBounds), 0;
    }
    var rows, cols := |grid|, |grid[0]|;
    var energy := Zeros(rows, cols);
    var splits: seq<Pos> := [];
    var stack := [inBeam];
    steps := 0;
    while stack != []
      invariant steps <= fuel
      invariant Trace(grid, inBeam, steps) == Ok(Tracer(energy, splits, stack, None))
      decreases fuel - steps
    {
      if steps == fuel {
        return Ok(None), steps;
      }
      var beam := stack[|stack| - 1];
      stack := stack[..|stack| - 1];
      steps := steps + 1;
      while 0 <= beam.pos.0 < rows && 0 <= beam.pos.1 < cols
        invariant steps <= fuel
        invariant Trace(grid, inBeam, steps) == Ok(Tracer(energy, splits, stack, Entering(rows, cols, beam)))
        decreases fuel - steps
      {
        if steps == fuel {
          return Ok(None), steps;
        }
        var moving;
        moving, energy, splits, stack, beam := Advance(grid, inBeam, steps, energy, splits, stack, beam);
        steps := steps + 1;
        if moving.Panic? {
          return Panic(moving.reason), steps;
        } else if !moving.value {
          break;
        }
      }
    }
    return Ok(Some(energy)), steps;
  }

  /** The body of the inner loop: energise the beam's cell, turn the beam as
      the cell says (splitting it or stopping it at a splitter), and move it
      one cell on. `Ok(false)` when the beam stopped at a recorded split. */
  method Advance(grid: seq<seq<char>>, ghost inBeam: Beam, ghost n: nat, energy0: seq<seq<nat>>,
                 splits0: seq<Pos>, stack0: seq<Beam>, beam0: Beam)
    returns (r: Result<bool>, energy: seq<seq<nat>>, splits: seq<Pos>, stack: seq<Beam>, beam: Beam)
    requires grid != [] && Inside(|grid|, |grid[0]|, beam0.pos)
    requires Trace(grid, inBeam, n) == Ok(Tracer(energy0, splits0, stack0, Some(beam0)))
    ensures r == Ok(true) ==> Trace(grid, inBeam, n + 1) == Ok(Tracer(energy, splits, stack, Entering(|grid|, |grid[0]|, beam)))
    ensures r == Ok(false) ==> Trace(grid, inBeam, n + 1) == Ok(Tracer(energy, splits, stack, None))
    ensures r.Panic? ==> Trace(grid, inBeam, n + 1) == Panic(r.reason)
  {
    ghost var t := Tracer(energy0, splits0, stack0, Some(beam0));
    TraceValid(grid, inBeam, n);
    energy, splits, stack, beam := energy0, splits0, stack0, beam0;
    var (i, j) := beam.pos;
    energy := energy[i := energy[i][j := energy[i][j] + 1]];
    assert energy == Energise(t.energy, beam.pos);
    if j >= |grid[i]| {
      return Panic(IndexOutOfBounds), energy, splits, stack, beam;
    }
    var cell := grid[i][j];
    if cell == '.' {
      StepStraight(grid, inBeam, n, t, beam);
    } else if cell == '\\' || cell == '/' {
      StepMirror(grid, inBeam, n, t, beam);
      beam := beam.(dir := Mirror(cell, beam.dir));
    } else if cell == '|' || cell == '-' {
      if (cell == '|' && beam.dir.1 != 0) || (cell == '-' && beam.dir.0 != 0) {
        if beam.pos in splits {
          StopAtRecordedSplit(grid, inBeam, n, t, beam);
          return Ok(false), energy, splits, stack, beam;
        }
        StepSplit(grid, inBeam, n, t, beam);
        beam := beam.(dir := (beam.dir.1, beam.dir.0));
        splits := splits + [beam.pos];
        var newBeam := beam.(dir := (-beam.dir.0, -beam.dir.1));
        stack := stack + [beam];
        beam := newBeam;
      } else {
        StepStraight(grid, inBeam, n, t, beam);
      }
    } else {
      return Panic(InvalidCell), energy, splits, stack, beam;
    }
    beam := Move(beam);
    return Ok(true), energy, splits, stack, beam;
  }

  // ------------------------------------------------------------------- count

  function CountPositive(row: seq<nat>): (r: nat)
    ensures r <= |row|
  {
    if row == [] then 0 else CountPositive(row[..|row| - 1]) + (if row[|row| - 1] > 0 then 1 else 0)
  }

  /** The energised tiles: cells with a positive count, summed over rows. */
  function Energised(energy: seq<seq<nat>>): nat {
    if energy == [] then 0 else Energised(energy[..|energy| - 1]) + CountPositive(energy[|energy| - 1])
  }

  lemma {:induction false} CountPositiveZero(row: seq<nat>)
    ensures CountPositive(row) == 0 <==> forall j :: 0 <= j < |row| ==> row[j] == 0
  {
    if row != [] {
      CountPositiveZero(row[..|row| - 1]);
      assert forall j :: 0 <= j < |row| - 1 ==> row[..|row| - 1][j] == row[j];
    }
  }

  /** No tile is energised exactly when every count is zero, and at most
      every tile is. */
  lemma {:induction false} EnergisedBounds(energy: seq<seq<nat>>, rows: nat, cols: nat)
    requires Shaped(energy, rows, cols)
    ensures Energised(energy) <= rows * cols
    ensures Energised(energy) == 0 <==> forall i, j :: 0 <= i < rows && 0 <= j < cols ==> energy[i][j] == 0
  {
    if rows > 0 {
      var init := energy[..rows - 1];
      assert Shaped(init, rows - 1, cols);
      EnergisedBounds(init, rows - 1, cols);
      CountPositiveZero(energy[rows - 1]);
      assert energy == init + [energy[rows - 1]];
      assert (rows - 1) * cols + cols == rows * cols;
      assert forall i :: 0 <= i < rows - 1 ==> init[i] == energy[i];
    }
  }

  /** Part 1: the energised tiles for a beam entering at the top left. A
      panic is the run's panic within `fuel` steps, and `Ok(None)` means the
      run is still going after `fuel` steps. */
  method Part1(grid: seq<seq<char>>, fuel: nat) returns (r: Result<Option<nat>>)
    ensures grid == [] ==> r == Panic(IndexOutOfBounds)
    ensures grid != [] && r.Ok? && r.value.Some? ==>
      exists n: nat :: n <= fuel && Trace(grid, Start, n).Ok? && Done(Trace(grid, Start, n).value) &&
        r.value.value == Energised(Trace(grid, Start, n).value.energy)
    ensures grid != [] && r.Panic? ==> exists n: nat :: n <= fuel && Trace(grid, Start, n) == Panic(r.reason)
    ensures grid != [] && r == Ok(None) ==> Trace(grid, Start, fuel).Ok? && !Done(Trace(grid, Start, fuel).value)
  {
    var e, steps := TileEnergies(grid, Start, fuel);
    match e
    case Panic(reason) => return Panic(reason);
    case Ok(None) => return Ok(None);
    case Ok(Some(energy)) => return Ok(Some(Energised(energy)));
  }
}
