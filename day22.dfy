/** Day 22: falling bricks of sand. A brick is two corners `x,y,z~x,y,z`.
    The bricks are sorted by their lowest z (stably) and then dropped one by
    one: each comes to rest one above the highest top of the earlier bricks it
    overlaps in x and y, or on the floor at height 1. A brick can be removed
    safely when every brick resting on it also rests on another brick. */
module Day22 {
  import opened Wrappers
  import Strings

  datatype Point = Point(x: int, y: int, z: int)

  datatype Brick = Brick(c1: Point, c2: Point)

  /** The lowest and highest z of a brick. */
  function Low(b: Brick): int {
    if b.c1.z <= b.c2.z then b.c1.z else b.c2.z
  }

  function Top(b: Brick): int {
    if b.c1.z >= b.c2.z then b.c1.z else b.c2.z
  }

  // ---------------------------------------------------------------- parsing

  /** Each piece parsed as an `i64` with `unwrap`. */
  function IntFields(pieces: seq<string>): (r: seq<Result<int>>)
    ensures |r| == |pieces|
    ensures forall k :: 0 <= k < |r| ==> r[k] == Unwrap(Strings.ParseInt(pieces[k]), UnwrapErr)
  {
    seq(|pieces|, k requires 0 <= k < |pieces| => Unwrap(Strings.ParseInt(pieces[k]), UnwrapErr))
  }

  /** One corner: the comma-separated fields all parse, and there are at
      least three of them; more are ignored. */
  function ParseCorner(s: string): (r: Result<Point>)
  {
    var coords :- Collect(IntFields(Strings.Split(s, ",")));
    if |coords| < 3 then Panic(IndexOutOfBounds)
    else Ok(Point(coords[0], coords[1], coords[2]))
  }

  /** `Brick::parse`. */
  function ParseBrick(line: string): (r: Result<Brick>)
  {
    var halves :- Unwrap(Strings.SplitOnce(line, "~"), UnwrapNone);
    var c1 :- ParseCorner(halves.0);
    var c2 :- ParseCorner(halves.1);
    Ok(Brick(c1, c2))
  }

  function CornerText(p: Point): string {
    Strings.Join([Strings.IntToString(p.x), Strings.IntToString(p.y), Strings.IntToString(p.z)], ",")
  }

  /** A brick as the puzzle input writes it. */
  function BrickText(b: Brick): string {
    CornerText(b.c1) + "~" + CornerText(b.c2)
  }

  /** A numeral holds no character other than digits and '-'. */
  lemma IntAvoids(i: int, c: char)
    requires !Strings.IsDigit(c) && c != '-'
    ensures c !in Strings.IntToString(i)
  {
    if i < 0 {
      Strings.NumeralAvoids(-i, c);
    } else {
      Strings.NumeralAvoids(i, c);
    }
  }

  lemma ParseCornerText(p: Point)
    ensures ParseCorner(CornerText(p)) == Ok(p)
    ensures '~' !in CornerText(p)
  {
    CornerFields(p);
    CornerAvoidsTilde(p);
  }

  lemma CornerFields(p: Point)
    ensures ParseCorner(CornerText(p)) == Ok(p)
  {
    var ws := [Strings.IntToString(p.x), Strings.IntToString(p.y), Strings.IntToString(p.z)];
    IntAvoids(p.x, ',');
    IntAvoids(p.y, ',');
    IntAvoids(p.z, ',');
    Strings.SplitJoinChar(ws, ',');
    Strings.ParseIntToString(p.x);
    Strings.ParseIntToString(p.y);
    Strings.ParseIntToString(p.z);
    var fs, vs := IntFields(ws), [p.x, p.y, p.z];
    assert fs[0] == Ok(vs[0]) && fs[1] == Ok(vs[1]) && fs[2] == Ok(vs[2]);
    CollectAllOk(fs, vs);
  }

  lemma CornerAvoidsTilde(p: Point)
    ensures '~' !in CornerText(p)
  {
    var ws := [Strings.IntToString(p.x), Strings.IntToString(p.y), Strings.IntToString(p.z)];
    IntAvoids(p.x, '~');
    IntAvoids(p.y, '~');
    IntAvoids(p.z, '~');
    Strings.JoinAvoids(ws, ",", '~');
  }

  /** Parsing the text of a brick gives the brick back. */
  lemma ParseBrickText(b: Brick)
    ensures ParseBrick(BrickText(b)) == Ok(b)
  {
    ParseCornerText(b.c1);
    ParseCornerText(b.c2);
    Strings.SplitOnceChar(CornerText(b.c1), '~', CornerText(b.c2));
  }

  /** A line without `~` panics in `unwrap`. */
  lemma ParseBrickNoTilde(line: string)
    requires '~' !in line
    ensures ParseBrick(line) == Panic(UnwrapNone)
  {
    Strings.NotContainsChar(line, '~');
  }

  // ---------------------------------------------------------------- overlap

  /** `bricks_intersect`: the closed x ranges overlap and so do the y ranges. */
  predicate Intersect(b1: Brick, b2: Brick) {
    var loX := if b1.c1.x >= b2.c1.x then b1.c1.x else b2.c1.x;
    var hiX := if b1.c2.x <= b2.c2.x then b1.c2.x else b2.c2.x;
    var loY := if b1.c1.y >= b2.c1.y then b1.c1.y else b2.c1.y;
    var hiY := if b1.c2.y <= b2.c2.y then b1.c2.y else b2.c2.y;
    loX <= hiX && loY <= hiY
  }

  /** The column (x, y) lies under the brick. */
  predicate Covers(b: Brick, x: int, y: int) {
    b.c1.x <= x <= b.c2.x && b.c1.y <= y <= b.c2.y
  }

  lemma IntersectSymmetric(b1: Brick, b2: Brick)
    ensures Intersect(b1, b2) <==> Intersect(b2, b1)
  {
  }

  /** Two bricks intersect exactly when some column lies under both; z plays
      no part. */
  lemma IntersectCommonColumn(b1: Brick, b2: Brick)
    ensures Intersect(b1, b2) <==> exists x, y :: Covers(b1, x, y) && Covers(b2, x, y)
  {
    if Intersect(b1, b2) {
      var x := if b1.c1.x >= b2.c1.x then b1.c1.x else b2.c1.x;
      var y := if b1.c1.y >= b2.c1.y then b1.c1.y else b2.c1.y;
      assert Covers(b1, x, y) && Covers(b2, x, y);
    }
  }

  // ---------------------------------------------------------------- sorting

  /** `sort_by` on the lowest z, which is stable: an insertion sort that puts
      each brick after all bricks whose key is not larger. */
  function SortByLow(bs: seq<Brick>): (r: seq<Brick>)
    decreases |bs|
  {
    if bs == [] then [] else Insert(SortByLow(bs[..|bs| - 1]), bs[|bs| - 1])
  }

  function Insert(s: seq<Brick>, b: Brick): (r: seq<Brick>)
    decreases |s|
  {
    if s == [] then [b]
    else if Low(s[|s| - 1]) <= Low(b) then s + [b]
    else Insert(s[..|s| - 1], b) + [s[|s| - 1]]
  }

  predicate SortedByLow(s: seq<Brick>) {
    forall i, j :: 0 <= i < j < |s| ==> Low(s[i]) <= Low(s[j])
  }

  /** The bricks with lowest z equal to `z`, in order. */
  function WithLow(s: seq<Brick>, z: int): (r: seq<Brick>)
    decreases |s|
  {
    if s == [] then []
    else WithLow(s[..|s| - 1], z) + if Low(s[|s| - 1]) == z then [s[|s| - 1]] else []
  }

  lemma {:induction false} WithLowAppend(a: seq<Brick>, b: seq<Brick>, z: int)
    ensures WithLow(a + b, z) == WithLow(a, z) + WithLow(b, z)
    decreases |b|
  {
    if b == [] {
      assert a + b == a;
    } else {
      assert (a + b)[..|a + b| - 1] == a + b[..|b| - 1];
      WithLowAppend(a, b[..|b| - 1], z);
    }
  }

  lemma {:induction false} InsertElements(s: seq<Brick>, b: Brick)
    ensures multiset(Insert(s, b)) == multiset(s) + multiset{b}
    decreases |s|
  {
    if s != [] {
      var init, last := s[..|s| - 1], s[|s| - 1];
      assert s == init + [last];
      InsertElements(init, b);
    }
  }

  lemma {:induction false} InsertSorted(s: seq<Brick>, b: Brick)
    requires SortedByLow(s)
    ensures SortedByLow(Insert(s, b))
    decreases |s|
  {
    if s != [] {
      var init, last := s[..|s| - 1], s[|s| - 1];
      if Low(last) > Low(b) {
        InsertSorted(init, b);
        InsertElements(init, b);
        var r := Insert(init, b);
        forall i | 0 <= i < |r|
          ensures Low(r[i]) <= Low(last)
        {
          assert r[i] in multiset(r);
          if r[i] != b {
            var j :| 0 <= j < |init| && init[j] == r[i];
          }
        }
      }
    }
  }

  /** Inserting puts `b` after every brick with its lowest z. */
  lemma {:induction false} InsertWithLow(s: seq<Brick>, b: Brick, z: int)
    ensures WithLow(Insert(s, b), z) == WithLow(s, z) + WithLow([b], z)
    decreases |s|
  {
    if s != [] {
      var init, last := s[..|s| - 1], s[|s| - 1];
      assert s == init + [last];
      if Low(last) <= Low(b) {
        WithLowAppend(s, [b], z);
      } else {
        InsertWithLow(init, b, z);
        var r := Insert(init, b);
        assert Insert(s, b) == r + [last];
        WithLowAppend(r, [last], z);
        WithLowAppend(init, [last], z);
        var wb, wl := WithLow([b], z), WithLow([last], z);
        assert wb == [] || wl == [] by {
          assert [b][..0] == [] && [last][..0] == [];
        }
        calc {
          WithLow(Insert(s, b), z);
          WithLow(r, z) + wl;
          (WithLow(init, z) + wb) + wl;
          { assert wb + wl == wl + wb; }
          (WithLow(init, z) + wl) + wb;
          WithLow(s, z) + wb;
        }
      }
    } else {
      assert Insert(s, b) == [b];
      assert [b] == [] + [b];
      WithLowAppend([], [b], z);
    }
  }

  /** The sort keeps the bricks, orders them by lowest z, and keeps bricks
      with the same lowest z in their input order. */
  lemma {:induction false} SortByLowSpec(bs: seq<Brick>)
    ensures SortedByLow(SortByLow(bs))
    ensures multiset(SortByLow(bs)) == multiset(bs)
    ensures forall z :: WithLow(SortByLow(bs), z) == WithLow(bs, z)
    decreases |bs|
  {
    if bs != [] {
      var init, last := bs[..|bs| - 1], bs[|bs| - 1];
      assert bs == init + [last];
      SortByLowSpec(init);
      InsertSorted(SortByLow(init), last);
      InsertElements(SortByLow(init), last);
      forall z: int
        ensures WithLow(SortByLow(bs), z) == WithLow(bs, z)
      {
        InsertWithLow(SortByLow(init), last, z);
        WithLowAppend(init, [last], z);
      }
    }
  }

  // ---------------------------------------------------------------- falling

  /** The highest top among the bricks of `below` that overlap `b`, plus
      one; `None` when none overlaps. */
  function MaxTop(below: seq<Brick>, b: Brick): (r: Option<int>)
    ensures r.None? <==> forall k :: 0 <= k < |below| ==> !Intersect(b, below[k])
    ensures r.Some? ==> forall k :: 0 <= k < |below| && Intersect(b, below[k]) ==> Top(below[k]) + 1 <= r.value
    ensures r.Some? ==> exists k :: 0 <= k < |below| && Intersect(b, below[k]) && r.value == Top(below[k]) + 1
    decreases |below|
  {
    if below == [] then None
    else
      var last := below[|below| - 1];
      var rest := MaxTop(below[..|below| - 1], b);
      assert forall k :: 0 <= k < |below| - 1 ==> below[..|below| - 1][k] == below[k];
      if !Intersect(b, last) then rest
      else if rest.None? || rest.value < Top(last) + 1 then Some(Top(last) + 1)
      else rest
  }

  /** Where `b` comes to rest above the bricks of `below`: one above the
      highest overlapping top, or the floor at 1. */
  function Floor(below: seq<Brick>, b: Brick): (r: int)
    ensures forall k :: 0 <= k < |below| && Intersect(b, below[k]) ==> Top(below[k]) < r
    ensures r == 1 || exists k :: 0 <= k < |below| && Intersect(b, below[k]) && r == Top(below[k]) + 1
    ensures (forall k :: 0 <= k < |below| ==> !Intersect(b, below[k])) ==> r == 1
  {
    match MaxTop(below, b)
    case Some(z) => z
    case None => 1
  }

  /** `after` is `before` moved along z only, keeping its height. */
  predicate Dropped(before: Brick, after: Brick) {
    && after.c1.x == before.c1.x && after.c1.y == before.c1.y
    && after.c2.x == before.c2.x && after.c2.y == before.c2.y
    && after.c2.z - after.c1.z == before.c2.z - before.c1.z
  }

  /** `settled` is `sorted` with each brick dropped to rest on the bricks
      settled before it. */
  predicate Settled(sorted: seq<Brick>, settled: seq<Brick>) {
    && |settled| == |sorted|
    && forall i :: 0 <= i < |settled| ==>
         Dropped(sorted[i], settled[i]) && settled[i].c1.z == Floor(settled[..i], sorted[i])
  }

  /** `fall`: a sorted copy of the bricks, each brick in turn lowered in
      place. The caller's bricks are values and are not changed. */
  method Fall(bricks: seq<Brick>) returns (settled: seq<Brick>)
    ensures Settled(SortByLow(bricks), settled)
  {
    var sorted := SortByLow(bricks);
    var bs := new Brick[|sorted|](i requires 0 <= i < |sorted| => sorted[i]);
    for idx := 0 to bs.Length
      invariant bs[idx..] == sorted[idx..]
      invariant Settled(sorted[..idx], bs[..idx])
    {
      var b := bs[idx];
      assert b == sorted[idx];
      var maxZ := Floor(bs[..idx], b);
      var offset := b.c1.z;
      ghost var prefix := bs[..idx];
      bs[idx] := Brick(b.c1.(z := maxZ), b.c2.(z := b.c2.z - (offset - maxZ)));
      assert bs[..idx + 1] == prefix + [bs[idx]];
      SettledNext(sorted, idx, prefix, bs[idx]);
    }
    assert sorted[..bs.Length] == sorted && bs[..bs.Length] == bs[..];
    settled := bs[..];
  }

  lemma SettledNext(sorted: seq<Brick>, n: nat, prefix: seq<Brick>, b: Brick)
    requires n < |sorted| && Settled(sorted[..n], prefix)
    requires Dropped(sorted[n], b) && b.c1.z == Floor(prefix, sorted[n])
    ensures Settled(sorted[..n + 1], prefix + [b])
  {
    var s := prefix + [b];
    forall i | 0 <= i < |s|
      ensures Dropped(sorted[..n + 1][i], s[i]) && s[i].c1.z == Floor(s[..i], sorted[..n + 1][i])
    {
      assert s[..i] == prefix[..i] || i == n;
      if i < n {
        assert s[i] == prefix[i] && sorted[..n + 1][i] == sorted[..n][i];
      } else {
        assert s[..i] == prefix;
      }
    }
  }

  /** Every brick comes to rest strictly above each earlier settled brick it
      overlaps, and exactly on top of one of them unless it is on the floor. */
  lemma Resting(sorted: seq<Brick>, settled: seq<Brick>, i: nat)
    requires Settled(sorted, settled) && i < |settled|
    ensures forall k :: 0 <= k < i && Intersect(settled[i], settled[k]) ==> Top(settled[k]) < settled[i].c1.z
    ensures settled[i].c1.z == 1 || exists k :: 0 <= k < i && Intersect(settled[i], settled[k]) && Top(settled[k]) + 1 == settled[i].c1.z
  {
    var below := settled[..i];
    assert forall k :: 0 <= k < i ==> below[k] == settled[k];
    forall k | 0 <= k < i && Intersect(settled[i], settled[k])
      ensures Intersect(sorted[i], below[k])
    {
    }
    if MaxTop(below, sorted[i]).Some? {
      var k :| 0 <= k < |below| && Intersect(sorted[i], below[k]) && Floor(below, sorted[i]) == Top(below[k]) + 1;
      assert Intersect(settled[i], settled[k]);
    }
  }

  // ---------------------------------------------------------------- support

  /** `below` holds `above` up: its top is just under the other's bottom and
      they overlap in x and y. */
  predicate Supports(below: Brick, above: Brick) {
    Top(below) == Low(above) - 1 && Intersect(above, below)
  }

  /** Strictly increasing indices, as an enumeration yields them. */
  predicate Increasing(r: seq<nat>) {
    forall i, j :: 0 <= i < j < |r| ==> r[i] < r[j]
  }

  /** `find_supporting_bricks`: the indices of the bricks holding `brick` up. */
  function Supporting(brick: Brick, bricks: seq<Brick>): (r: seq<nat>)
    ensures Increasing(r)
    ensures forall k :: k in r <==> 0 <= k < |bricks| && Supports(bricks[k], brick)
    decreases |bricks|
  {
    if bricks == [] then []
    else
      var n := |bricks| - 1;
      var rest := Supporting(brick, bricks[..n]);
      assert forall k :: 0 <= k < n ==> bricks[..n][k] == bricks[k];
      assert forall i :: 0 <= i < |rest| ==> rest[i] < n by {
        forall i | 0 <= i < |rest| ensures rest[i] < n {
          assert rest[i] in rest;
        }
      }
      if Top(bricks[n]) == Low(brick) - 1 && Intersect(brick, bricks[n]) then rest + [n] else rest
  }

  /** `find_supported_bricks`: the indices of the bricks resting on `brick`. */
  function Supported(brick: Brick, bricks: seq<Brick>): (r: seq<nat>)
    ensures Increasing(r)
    ensures forall k :: k in r <==> 0 <= k < |bricks| && Supports(brick, bricks[k])
    decreases |bricks|
  {
    if bricks == [] then []
    else
      var n := |bricks| - 1;
      var rest := Supported(brick, bricks[..n]);
      assert forall k :: 0 <= k < n ==> bricks[..n][k] == bricks[k];
      assert forall i :: 0 <= i < |rest| ==> rest[i] < n by {
        forall i | 0 <= i < |rest| ensures rest[i] < n {
          assert rest[i] in rest;
        }
      }
      IntersectSymmetric(brick, bricks[n]);
      if Low(bricks[n]) == Top(brick) + 1 && Intersect(brick, bricks[n]) then rest + [n] else rest
  }

  /** The two relations mirror each other. */
  lemma SupportMirror(bricks: seq<Brick>, i: nat, j: nat)
    requires i < |bricks| && j < |bricks|
    ensures i in Supporting(bricks[j], bricks) <==> j in Supported(bricks[i], bricks)
  {
  }

  /** No brick holds itself up. */
  lemma NoSelfSupport(b: Brick)
    ensures !Supports(b, b)
  {
  }

  /** Brick `i` is counted: each brick it supports has at least two
      supporters. */
  predicate Removable(bricks: seq<Brick>, i: nat)
    requires i < |bricks|
  {
    forall s :: s in Supported(bricks[i], bricks) ==> |Supporting(bricks[s], bricks)| >= 2
  }

  lemma TwoDistinct(r: seq<nat>, a: nat, b: nat)
    requires a in r && b in r && a != b
    ensures |r| >= 2
  {
  }

  /** The count means what it should: removing brick `i` leaves every brick
      that rested on it still resting on some other brick. */
  lemma RemovableMeaning(bricks: seq<Brick>, i: nat)
    requires i < |bricks|
    ensures Removable(bricks, i) <==>
      forall j :: 0 <= j < |bricks| && Supports(bricks[i], bricks[j]) ==>
        exists k :: 0 <= k < |bricks| && k != i && Supports(bricks[k], bricks[j])
  {
    forall j | 0 <= j < |bricks| && Supports(bricks[i], bricks[j])
      ensures |Supporting(bricks[j], bricks)| >= 2 <==> exists k :: 0 <= k < |bricks| && k != i && Supports(bricks[k], bricks[j])
    {
      var r := Supporting(bricks[j], bricks);
      assert i in r;
      if |r| >= 2 {
        var k := if r[0] != i then r[0] else r[1];
        assert k in r && k != i;
      }
      if exists k :: 0 <= k < |bricks| && k != i && Supports(bricks[k], bricks[j]) {
        var k :| 0 <= k < |bricks| && k != i && Supports(bricks[k], bricks[j]);
        TwoDistinct(r, i, k);
      }
    }
  }

  /** The `filter(...).count()` of part one over the first `n` bricks. */
  function CountRemovable(bricks: seq<Brick>, n: nat): (c: nat)
    requires n <= |bricks|
    ensures c == |set i | 0 <= i < n && Removable(bricks, i)|
  {
    if n == 0 then 0
    else
      var before := set i | 0 <= i < n - 1 && Removable(bricks, i);
      assert (set i | 0 <= i < n && Removable(bricks, i)) == before + if Removable(bricks, n - 1) then {n - 1} else {};
      CountRemovable(bricks, n - 1) + if Removable(bricks, n - 1) then 1 else 0
  }

  /** The parsed lines, panicking at the first bad one. */
  function ParseBricks(lines: seq<string>): Result<seq<Brick>> {
    Collect(seq(|lines|, k requires 0 <= k < |lines| => ParseBrick(lines[k])))
  }

  /** `day22_part1`: parse, let the bricks fall, count the bricks that can
      be removed. */
  method Part1(lines: seq<string>) returns (r: Result<nat>, ghost settled: seq<Brick>)
    ensures r.Panic? <==> ParseBricks(lines).Panic?
    ensures r.Panic? ==> r.reason == ParseBricks(lines).reason
    ensures r.Ok? ==> Settled(SortByLow(ParseBricks(lines).value), settled)
    ensures r.Ok? ==> r.value == |set i | 0 <= i < |settled| && Removable(settled, i)|
  {
    settled := [];
    var bricks :- ParseBricks(lines);
    var fallen := Fall(bricks);
    settled := fallen;
    r := Ok(CountRemovable(fallen, |fallen|));
  }
}
