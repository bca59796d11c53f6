/** Character grids (`Vec<Vec<char>>`) and the two grid helpers of the
    puzzle toolkit whose source is not part of this model. They are given the
    simplest specification consistent with their use:
    - `GridNeighbours::get_neighbours_for_coord(grid, i, j)`: the four
      orthogonal neighbours n, e, s, w, each `None` when it lies outside the
      grid;
    - `grid::transpose`: the transpose of a rectangular grid. */
module Grids {
  import opened Wrappers

  type Grid = seq<seq<char>>

  /** Every row is as long as the first. */
  predicate Rectangular<T>(g: seq<seq<T>>) {
    forall i :: 0 <= i < |g| ==> |g[i]| == |g[0]|
  }

  function Width<T>(g: seq<seq<T>>): nat {
    if g == [] then 0 else |g[0]|
  }

  predicate InGrid<T>(g: seq<seq<T>>, i: int, j: int) {
    0 <= i < |g| && 0 <= j < |g[i]|
  }

  /** The cell at (i, j), or None outside the grid. */
  function Cell(g: Grid, i: int, j: int): (r: Option<char>)
    ensures r.Some? <==> InGrid(g, i, j)
    ensures r.Some? ==> r.value == g[i][j]
  {
    if InGrid(g, i, j) then Some(g[i][j]) else None
  }

  datatype Neighbours = Neighbours(n: Option<char>, e: Option<char>, s: Option<char>, w: Option<char>) {
    /** `Into::<Vec<_>>::into(neighbours)`. */
    function AsSeq(): seq<Option<char>> {
      [n, e, s, w]
    }
  }

  /** The assumed specification of `get_neighbours_for_coord`. */
  function NeighboursOf(g: Grid, i: int, j: int): (r: Neighbours)
    ensures r.n == Cell(g, i - 1, j) && r.e == Cell(g, i, j + 1)
    ensures r.s == Cell(g, i + 1, j) && r.w == Cell(g, i, j - 1)
  {
    Neighbours(Cell(g, i - 1, j), Cell(g, i, j + 1), Cell(g, i + 1, j), Cell(g, i, j - 1))
  }

  /** The assumed specification of `grid::transpose` on a rectangular grid. */
  function Transpose<T>(g: seq<seq<T>>): (t: seq<seq<T>>)
    requires Rectangular(g)
    ensures |t| == Width(g) && Rectangular(t)
    ensures forall j :: 0 <= j < |t| ==> |t[j]| == |g|
    ensures forall j, i :: 0 <= j < |t| && 0 <= i < |g| ==> t[j][i] == g[i][j]
  {
    seq(Width(g), j requires 0 <= j < Width(g) => seq(|g|, i requires 0 <= i < |g| => g[i][j]))
  }

  /** Transposing twice gives back a rectangular grid with at least one column. */
  lemma TransposeTwice<T>(g: seq<seq<T>>)
    requires Rectangular(g) && Width(g) > 0
    ensures Transpose(Transpose(g)) == g
  {
    var t := Transpose(Transpose(g));
    assert |t| == |g|;
    forall i | 0 <= i < |g| ensures t[i] == g[i] {
      assert |t[i]| == |g[i]|;
    }
  }
}
