/** Day 9: extrapolating the next value of a series from its successive
    differences. `ExtrapolateNext` is the function as written; `Extrapolate` is
    the corrected version the rest of the reasoning is about (see the README's
    findings: the written stopping test looks at the sum of the differences
    rather than at whether they are all zero). */
module Day9 {
  import opened Wrappers
  import opened Numbers

  function Last(s: seq<int>): int
    requires s != []
  {
    s[|s| - 1]
  }

  /** `series.windows(2).map(|pair| pair[1] - pair[0])`. */
  function Diffs(s: seq<int>): (r: seq<int>)
    ensures |s| <= 1 ==> r == []
    ensures |s| >= 1 ==> |r| == |s| - 1
    ensures forall k {:trigger r[k]} :: 0 <= k < |r| ==> r[k] == s[k + 1] - s[k]
  {
    DiffsFrom(s, 0)
  }

  /** The differences of `s` from index `i` on. */
  function DiffsFrom(s: seq<int>, i: nat): (r: seq<int>)
    ensures i + 1 <= |s| ==> |r| == |s| - 1 - i
    ensures i + 1 >= |s| ==> r == []
    ensures forall k {:trigger r[k]} :: 0 <= k < |r| ==> r[k] == s[i + k + 1] - s[i + k]
    decreases |s| - i
  {
    if i + 1 >= |s| then [] else [s[i + 1] - s[i]] + DiffsFrom(s, i + 1)
  }

  /** `extrapolate_next` as written: it stops as soon as the differences SUM to
      zero, and panics (`last().unwrap()`) on an empty series. */
  function ExtrapolateNext(s: seq<int>): (r: Result<int>)
    ensures r.Ok? <==> s != []
    ensures Sum(Diffs(s)) == 0 && s != [] ==> r == Ok(Last(s))
    decreases |s|, 1
  {
    if Sum(Diffs(s)) == 0 then
      if s == [] then Panic(UnwrapNone) else Ok(Last(s))
    else
      ExtrapolateNextDeeper(s)
  }

  /** The written recursive case. */
  function ExtrapolateNextDeeper(s: seq<int>): (r: Result<int>)
    requires Sum(Diffs(s)) != 0
    ensures r.Ok?
    decreases |s|, 0
  {
    Ok(ExtrapolateNext(Diffs(s)).value + Last(s))
  }

  /** The differences telescope: they sum to last minus first. */
  lemma {:induction false} SumOfDiffs(s: seq<int>)
    requires s != []
    ensures Sum(Diffs(s)) == Last(s) - s[0]
    decreases |s|
  {
    if |s| >= 2 {
      var p := s[..|s| - 1];
      SumOfDiffs(p);
      assert s == p + [Last(s)];
      DiffsAppend(p, Last(s));
      var ds := Diffs(p) + [Last(s) - Last(p)];
      assert ds[..|ds| - 1] == Diffs(p);
    }
  }

  /** So the written test succeeds exactly when the first and last values are
      equal, and the result is then the last value, whatever lies between. */
  lemma FirstEqualsLast(s: seq<int>)
    requires s != []
    ensures Sum(Diffs(s)) == 0 <==> s[0] == Last(s)
    ensures s[0] == Last(s) ==> ExtrapolateNext(s) == Ok(Last(s))
  {
    SumOfDiffs(s);
  }

  /** A constant series extrapolates to the constant. */
  lemma ConstantSeries(s: seq<int>, c: int)
    requires s != [] && forall k :: 0 <= k < |s| ==> s[k] == c
    ensures ExtrapolateNext(s) == Ok(c)
  {
    FirstEqualsLast(s);
  }

  /** `s` is the arithmetic series a, a + step, a + 2 * step, ... */
  predicate Arithmetic(s: seq<int>, a: int, step: int) {
    forall k :: 0 <= k < |s| ==> s[k] == a + k * step
  }

  lemma ArithmeticDiffs(s: seq<int>, a: int, step: int)
    requires Arithmetic(s, a, step)
    ensures forall k :: 0 <= k < |Diffs(s)| ==> Diffs(s)[k] == step
  {
    forall k | 0 <= k < |Diffs(s)| ensures Diffs(s)[k] == step {
      var x, y := s[k + 1], s[k];
      assert x == a + (k + 1) * step && y == a + k * step;
      assert (k + 1) * step == k * step + step;
    }
  }

  /** An arithmetic series with a non-zero step extrapolates to last + step. */
  lemma ArithmeticSeries(s: seq<int>, a: int, step: int)
    requires |s| >= 2 && step != 0 && Arithmetic(s, a, step)
    ensures ExtrapolateNext(s) == Ok(Last(s) + step)
  {
    ArithmeticEnds(s, a, step);
    WrittenStep(s, step);
    assert ExtrapolateNext(Diffs(s)).value == step by {
      ArithmeticDiffs(s, a, step);
      ConstantSeries(Diffs(s), step);
    }
  }

  /** The differences of an arithmetic series with a non-zero step do not
      sum to zero. */
  lemma ArithmeticEnds(s: seq<int>, a: int, step: int)
    requires |s| >= 2 && step != 0 && Arithmetic(s, a, step)
    ensures Sum(Diffs(s)) != 0
  {
    var n := |s|;
    SumOfDiffs(s);
    assert s[0] == a && Last(s) == s[n - 1] == a + (n - 1) * step;
    NonZeroProduct(n - 1, step);
  }

  /** One step of the written recursion: when the differences do not sum to
      zero, their extrapolation is added to the last value. */
  lemma WrittenStep(s: seq<int>, v: int)
    requires Sum(Diffs(s)) != 0
    ensures s != []
    ensures ExtrapolateNext(Diffs(s)).value == v ==> ExtrapolateNext(s) == Ok(Last(s) + v)
  {
    assert ExtrapolateNext(s) == ExtrapolateNextDeeper(s);
  }

  lemma NonZeroProduct(m: int, step: int)
    requires m >= 1 && step != 0
    ensures m * step != 0
  {
  }

  // ------------------------------------------------ the corrected definition

  predicate AllZero(s: seq<int>) {
    forall k :: 0 <= k < |s| ==> s[k] == 0
  }

  /** The m-th differences of `s`. */
  function Level(s: seq<int>, m: nat): seq<int>
    decreases m, 1
  {
    if m == 0 then s else DeeperLevel(s, m)
  }

  function DeeperLevel(s: seq<int>, m: nat): seq<int>
    requires m > 0
    decreases m, 0
  {
    Level(Diffs(s), m - 1)
  }

  /** The extrapolation as intended: recurse until the differences are all
      zero. It panics on an empty series like the written one. */
  function Extrapolate(s: seq<int>): (r: Result<int>)
    ensures r.Ok? <==> s != []
    decreases |s|, 1
  {
    if AllZero(Diffs(s)) then
      if s == [] then Panic(UnwrapNone) else Ok(Last(s))
    else
      ExtrapolateDeeper(s)
  }

  /** The recursive case: the next value of the differences, plus the last
      value. */
  function ExtrapolateDeeper(s: seq<int>): (r: Result<int>)
    requires !AllZero(Diffs(s))
    ensures r.Ok?
    decreases |s|, 0
  {
    Ok(Extrapolate(Diffs(s)).value + Last(s))
  }

  lemma DiffsAppend(s: seq<int>, x: int)
    requires s != []
    ensures Diffs(s + [x]) == Diffs(s) + [x - Last(s)]
  {
    var t := s + [x];
    var a, b := Diffs(t), Diffs(s) + [x - Last(s)];
    assert |a| == |b|;
    forall k | 0 <= k < |a| ensures a[k] == b[k] {
      assert a[k] == t[k + 1] - t[k];
      if k < |s| - 1 {
        assert t[k + 1] == s[k + 1] && t[k] == s[k];
      }
    }
  }

  lemma {:induction false} LevelOfZero(s: seq<int>, m: nat)
    requires AllZero(s)
    ensures AllZero(Level(s, m))
    decreases m
  {
    if m > 0 {
      LevelOfZero(Diffs(s), m - 1);
    }
  }

  /** The intended property: when the m-th differences of `s` are all zero
      (the values follow a polynomial of degree below m), they stay all zero
      after the extrapolated value is appended. */
  lemma {:induction false} ExtrapolateKeepsZeroLevel(s: seq<int>, m: nat)
    requires s != [] && AllZero(Level(s, m))
    ensures AllZero(Level(s + [Extrapolate(s).value], m))
    decreases |s|
  {
    if m == 0 {
      ZeroSeriesKeepsZero(s);
    } else if AllZero(Diffs(s)) {
      FlatKeepsZeroLevel(s, m);
    } else {
      var d := Diffs(s);
      assert d != [] && AllZero(Level(d, m - 1)) by {
        LevelStep(s, m);
      }
      ExtrapolateKeepsZeroLevel(d, m - 1);
      StepKeepsZeroLevel(s, m);
    }
  }

  /** A series whose differences are all zero extrapolates to its last
      value, and every level of differences stays zero. */
  lemma FlatKeepsZeroLevel(s: seq<int>, m: nat)
    requires s != [] && m > 0 && AllZero(Diffs(s))
    ensures AllZero(Level(s + [Extrapolate(s).value], m))
  {
    var x := Extrapolate(s).value;
    var d' := Diffs(s) + [0];
    assert x == Last(s);
    assert AllZero(Level(d', m - 1)) by {
      assert AllZero(d');
      LevelOfZero(d', m - 1);
    }
    assert Level(s + [x], m) == Level(d', m - 1) by {
      LevelAppendValue(s, m, x, 0);
    }
  }

  /** The recursive case: the differences extend by their own
      extrapolation. */
  lemma StepKeepsZeroLevel(s: seq<int>, m: nat)
    requires s != [] && m > 0 && !AllZero(Diffs(s))
    ensures Level(s + [Extrapolate(s).value], m) == Level(Diffs(s) + [Extrapolate(Diffs(s)).value], m - 1)
  {
    ExtrapolateStep(s);
    LevelAppendValue(s, m, Extrapolate(s).value, Extrapolate(Diffs(s)).value);
  }

  /** Past the stopping test, the extrapolation adds the last value to the
      extrapolation of the differences. */
  lemma ExtrapolateStep(s: seq<int>)
    requires s != [] && !AllZero(Diffs(s))
    ensures Extrapolate(s).value - Last(s) == Extrapolate(Diffs(s)).value
  {
  }

  /** The m-th differences after appending `x` are the (m - 1)-th
      differences of the differences after appending `x - Last(s)`. */
  lemma LevelAppendValue(s: seq<int>, m: nat, x: int, y: int)
    requires s != [] && m > 0 && x - Last(s) == y
    ensures Level(s + [x], m) == Level(Diffs(s) + [y], m - 1)
  {
    DiffsAppendValue(s, x, y);
    LevelStep(s + [x], m);
  }

  lemma DiffsAppendValue(s: seq<int>, x: int, y: int)
    requires s != [] && x - Last(s) == y
    ensures Diffs(s + [x]) == Diffs(s) + [y]
  {
    DiffsAppend(s, x);
  }

  lemma LevelStep(s: seq<int>, m: nat)
    requires m > 0
    ensures Level(s, m) == Level(Diffs(s), m - 1)
  {
  }

  /** A series of zeros extrapolates to zero. */
  lemma ZeroSeriesKeepsZero(s: seq<int>)
    requires s != [] && AllZero(s)
    ensures AllZero(s + [Extrapolate(s).value])
  {
    var x := Extrapolate(s).value;
    assert AllZero(Diffs(s));
    assert x == Last(s) == 0;
  }

  /** The corrected function gives -2 on the series 1, 2, 1, whose second
      differences are the single value -2. */
  lemma ExtrapolateOneTwoOne()
    ensures Extrapolate([1, 2, 1]) == Ok(-2)
  {
    var d1, d2 := Diffs([1, 2, 1]), Diffs([1, -1]);
    assert d1 == [1, -1];
    assert d2 == [-2] && d2[0] != 0;
    assert Extrapolate(d2) == Ok(-2) by {
      assert Diffs([-2]) == [];
    }
    ExtrapolateStep([1, -1]);
    ExtrapolateStep([1, 2, 1]);
  }

  /** The written function stops at once on 1, 2, 1 (its differences 1, -1 sum
      to zero) and answers 1; appending that value breaks the property above
      with m = 3. */
  lemma ExtrapolateNextOneTwoOne()
    ensures ExtrapolateNext([1, 2, 1]) == Ok(1)
    ensures AllZero(Level([1, 2, 1], 3))
    ensures !AllZero(Level([1, 2, 1] + [ExtrapolateNext([1, 2, 1]).value], 3))
  {
    WrittenStopsEarly();
    OneTwoOneLevel();
    OneTwoOneOneLevel();
    assert [1, 2, 1] + [1] == [1, 2, 1, 1];
  }

  lemma WrittenStopsEarly()
    ensures ExtrapolateNext([1, 2, 1]) == Ok(1)
  {
    assert Diffs([1, 2, 1]) == [1, -1];
    assert Sum([1, -1]) == 0 by {
      assert [1, -1][..1] == [1];
      assert [1][..0] == [];
    }
  }

  lemma OneTwoOneLevel()
    ensures AllZero(Level([1, 2, 1], 3))
  {
    assert Diffs([1, 2, 1]) == [1, -1];
    assert Diffs([1, -1]) == [-2];
    assert Diffs([-2]) == [];
  }

  lemma OneTwoOneOneLevel()
    ensures !AllZero(Level([1, 2, 1, 1], 3))
  {
    var d1, d2, d3 := Diffs([1, 2, 1, 1]), Diffs([1, -1, 0]), Diffs([-2, 1]);
    assert d1 == [1, -1, 0];
    assert d2 == [-2, 1];
    assert d3 == [3];
    assert Level([1, 2, 1, 1], 3) == Level(d1, 2) == Level(d2, 1) == Level(d3, 0);
    assert d3[0] != 0;
  }
}
