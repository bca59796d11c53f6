/** Day 1: calibration values. Part one reads the first and last decimal digit
    of a line; part two also accepts the digits 1 to 9 spelled out as words,
    ordered by where they occur in the line. */
module Day1 {
  import opened Wrappers
  import opened Strings

  // ----------------------------------------------------------------- part one

  /** `line.chars().filter_map(|c| c.to_digit(10))`: the values of the decimal
      digit characters, in order. */
  function Digits(s: string): (r: seq<nat>)
    ensures |r| <= |s|
    ensures forall k :: 0 <= k < |r| ==> r[k] < 10
  {
    if s == [] then []
    else (if IsDigit(s[0]) then [DigitValue(s[0])] else []) + Digits(s[1..])
  }

  /** Filtering commutes with concatenation. */
  lemma {:induction false} DigitsAppend(a: string, b: string)
    ensures Digits(a + b) == Digits(a) + Digits(b)
    decreases |a|
  {
    if a == [] {
      assert a + b == b;
    } else {
      assert (a + b)[1..] == a[1..] + b;
      DigitsAppend(a[1..], b);
    }
  }

  /** A line yields no digits exactly when it has no digit character. */
  lemma {:induction false} NoDigits(s: string)
    ensures Digits(s) == [] <==> forall k :: 0 <= k < |s| ==> !IsDigit(s[k])
    decreases |s|
  {
    if s != [] {
      NoDigits(s[1..]);
      assert forall k :: 1 <= k < |s| ==> s[k] == s[1..][k - 1];
    }
  }

  /** The first digit is the value of the first digit character. */
  lemma {:induction false} FirstDigit(s: string, i: int)
    requires 0 <= i < |s| && IsDigit(s[i])
    requires forall k :: 0 <= k < i ==> !IsDigit(s[k])
    ensures Digits(s) != [] && Digits(s)[0] == DigitValue(s[i])
    decreases i
  {
    if i > 0 {
      var t := s[1..];
      assert !IsDigit(s[0]) && Digits(s) == Digits(t);
      assert t[i - 1] == s[i];
      assert forall k :: 0 <= k < i - 1 ==> t[k] == s[k + 1];
      FirstDigit(t, i - 1);
    } else {
      assert Digits(s) == [DigitValue(s[0])] + Digits(s[1..]);
    }
  }

  /** The last digit is the value of the last digit character. */
  lemma LastDigit(s: string, j: int)
    requires 0 <= j < |s| && IsDigit(s[j])
    requires forall k :: j < k < |s| ==> !IsDigit(s[k])
    ensures Digits(s) != [] && Digits(s)[|Digits(s)| - 1] == DigitValue(s[j])
  {
    assert s == s[..j] + s[j..];
    DigitsAppend(s[..j], s[j..]);
    NoDigits(s[j + 1..]);
    assert s[j..][1..] == s[j + 1..];
  }

  /** One line's value: first digit times ten plus last digit; a line without
      a digit panics at `first().unwrap()`. */
  function CalibrationValue(line: string): (r: Result<nat>)
    ensures r.Panic? <==> forall k :: 0 <= k < |line| ==> !IsDigit(line[k])
    ensures r.Ok? ==> r.value <= 99
  {
    var ds := Digits(line);
    NoDigits(line);
    if ds == [] then Panic(UnwrapNone) else Ok(ds[0] * 10 + ds[|ds| - 1])
  }

  /** The value is read off the first digit character i and the last one j. */
  lemma CalibrationValueSpec(line: string, i: int, j: int)
    requires 0 <= i <= j < |line| && IsDigit(line[i]) && IsDigit(line[j])
    requires forall k :: 0 <= k < i ==> !IsDigit(line[k])
    requires forall k :: j < k < |line| ==> !IsDigit(line[k])
    ensures CalibrationValue(line) == Ok(10 * DigitValue(line[i]) + DigitValue(line[j]))
  {
    FirstDigit(line, i);
    LastDigit(line, j);
  }

  /** A line with a single digit d has value 11 * d. */
  lemma SingleDigit(line: string, i: int)
    requires 0 <= i < |line| && IsDigit(line[i])
    requires forall k :: 0 <= k < |line| && k != i ==> !IsDigit(line[k])
    ensures CalibrationValue(line) == Ok(11 * DigitValue(line[i]))
  {
    CalibrationValueSpec(line, i, i);
  }

  /** The part-one answer: the sum of the line values, panicking at the first
      line without a digit. */
  function Part1(lines: seq<string>): (r: Result<nat>)
    ensures r.Ok? <==> forall k :: 0 <= k < |lines| ==> CalibrationValue(lines[k]).Ok?
    ensures r.Ok? ==> r.value <= 99 * |lines|
  {
    if lines == [] then Ok(0)
    else
      var v :- CalibrationValue(lines[0]);
      var rest :- Part1(lines[1..]);
      assert forall k :: 1 <= k < |lines| ==> lines[k] == lines[1..][k - 1];
      Ok(v + rest)
  }

  // ----------------------------------------------------------------- part two

  const Words: seq<string> := ["one", "two", "three", "four", "five", "six", "seven", "eight", "nine"]
  const Numerals: seq<string> := ["1", "2", "3", "4", "5", "6", "7", "8", "9"]

  /** The digit d (1 to 9) is written as `pats[d - 1]` at position i. */
  predicate SpellsIn(pats: seq<string>, line: string, d: int, i: int)
    requires |pats| == 9
  {
    1 <= d <= 9 && OccursAt(line, pats[d - 1], i)
  }

  /** The digit d is spelled, as a word or a numeral, at position i. */
  predicate Spells(line: string, d: int, i: int) {
    SpellsIn(Words, line, d, i) || SpellsIn(Numerals, line, d, i)
  }

  /** The assumed specification of `string::find_instances_of`: every start
      position of the pattern, in increasing order. */
  function FindInstancesOf(s: string, pat: string): (r: seq<nat>)
    requires |pat| > 0
    ensures forall k :: 0 <= k < |r| ==> OccursAt(s, pat, r[k])
    ensures forall j :: OccursAt(s, pat, j) ==> j in r
    ensures forall k, l :: 0 <= k < l < |r| ==> r[k] < r[l]
  {
    InstancesFrom(s, pat, 0)
  }

  function InstancesFrom(s: string, pat: string, from: nat): (r: seq<nat>)
    requires |pat| > 0
    ensures forall k :: 0 <= k < |r| ==> OccursAt(s, pat, r[k]) && r[k] >= from
    ensures forall j :: j >= from && OccursAt(s, pat, j) ==> j in r
    ensures forall k, l :: 0 <= k < l < |r| ==> r[k] < r[l]
    decreases |s| - from
  {
    if from + |pat| > |s| then []
    else (if OccursAt(s, pat, from) then [from] else []) + InstancesFrom(s, pat, from + 1)
  }

  /** Digit d at position i is among the collected pairs. */
  ghost predicate Recorded(digits: seq<nat>, indices: seq<nat>, d: int, i: int) {
    exists k :: 0 <= k < |digits| && k < |indices| && digits[k] == d && indices[k] == i
  }

  /** The part-two digit collection: the loop over the words, then the
      identical loop over the numerals. Every recorded pair is an occurrence
      and every occurrence is recorded. */
  method CollectDigits(line: string) returns (digits: seq<nat>, indices: seq<nat>)
    ensures |digits| == |indices|
    ensures forall k :: 0 <= k < |digits| ==> Spells(line, digits[k], indices[k])
    ensures forall d, i :: Spells(line, d, i) ==> Recorded(digits, indices, d, i)
  {
    digits, indices := CollectFrom(line, Words, [], []);
    ghost var (d0, i0) := (digits, indices);
    digits, indices := CollectFrom(line, Numerals, digits, indices);
    forall d, i | SpellsIn(Words, line, d, i) ensures Recorded(digits, indices, d, i) {
      var k :| 0 <= k < |d0| && k < |i0| && d0[k] == d && i0[k] == i;
      assert digits[k] == d && indices[k] == i;
    }
  }

  /** One of the two loops: for each n in 0..9, append every occurrence of
      `pats[n]` with the digit n + 1, after the pairs already collected. */
  method CollectFrom(line: string, pats: seq<string>, digits: seq<nat>, indices: seq<nat>)
    returns (digits': seq<nat>, indices': seq<nat>)
    requires |pats| == 9 && forall n :: 0 <= n < 9 ==> |pats[n]| > 0
    requires |digits| == |indices|
    ensures |digits'| == |indices'| >= |digits|
    ensures digits'[..|digits|] == digits && indices'[..|indices|] == indices
    ensures forall k :: |digits| <= k < |digits'| ==> SpellsIn(pats, line, digits'[k], indices'[k])
    ensures forall d, i :: SpellsIn(pats, line, d, i) ==> Recorded(digits', indices', d, i)
  {
    digits', indices' := digits, indices;
    for n := 0 to 9
      invariant |digits'| == |indices'| >= |digits|
      invariant digits'[..|digits|] == digits && indices'[..|indices|] == indices
      invariant forall k :: |digits| <= k < |digits'| ==> SpellsIn(pats, line, digits'[k], indices'[k])
      invariant forall d, i :: SpellsIn(pats, line, d, i) && d <= n ==> Recorded(digits', indices', d, i)
    {
      digits', indices' := CollectOne(line, pats, n, digits, indices, digits', indices');
    }
  }

  /** One pass of that loop: the occurrences of `pats[n]`, if any, appended. */
  method CollectOne(line: string, pats: seq<string>, n: nat, digits: seq<nat>, indices: seq<nat>,
                    d0: seq<nat>, i0: seq<nat>)
    returns (digits': seq<nat>, indices': seq<nat>)
    requires |pats| == 9 && n < 9 && |pats[n]| > 0
    requires |d0| == |i0| >= |digits| == |indices|
    requires d0[..|digits|] == digits && i0[..|indices|] == indices
    requires forall k :: |digits| <= k < |d0| ==> SpellsIn(pats, line, d0[k], i0[k])
    requires forall d, i :: SpellsIn(pats, line, d, i) && d <= n ==> Recorded(d0, i0, d, i)
    ensures |digits'| == |indices'| >= |digits|
    ensures digits'[..|digits|] == digits && indices'[..|indices|] == indices
    ensures forall k :: |digits| <= k < |digits'| ==> SpellsIn(pats, line, digits'[k], indices'[k])
    ensures forall d, i :: SpellsIn(pats, line, d, i) && d <= n + 1 ==> Recorded(digits', indices', d, i)
  {
    var found := FindInstancesOf(line, pats[n]);
    digits', indices' := d0, i0;
    if |found| > 0 {
      digits', indices' := Extend(d0, i0, found, n + 1);
      assert digits'[..|digits|] == d0[..|digits|];
      assert indices'[..|indices|] == i0[..|indices|];
      forall k | |d0| <= k < |digits'| ensures SpellsIn(pats, line, digits'[k], indices'[k]) {
        assert OccursAt(line, pats[n], found[k - |d0|]);
      }
      forall d, i | SpellsIn(pats, line, d, i) && d <= n + 1 ensures Recorded(digits', indices', d, i) {
        if d <= n {
          var k :| 0 <= k < |d0| && k < |i0| && d0[k] == d && i0[k] == i;
          assert digits'[k] == d && indices'[k] == i;
        }
      }
    }
  }

  /** `digit_indices.extend(indices)` and `digits.extend(vec![d; indices.len()])`. */
  method Extend(digits: seq<nat>, indices: seq<nat>, found: seq<nat>, d: nat) returns (digits': seq<nat>, indices': seq<nat>)
    requires |digits| == |indices|
    ensures |digits'| == |indices'| == |digits| + |found|
    ensures forall k :: 0 <= k < |digits| ==> digits'[k] == digits[k] && indices'[k] == indices[k]
    ensures forall k :: 0 <= k < |found| ==> digits'[|digits| + k] == d && indices'[|digits| + k] == found[k]
    ensures forall i :: i in found ==> Recorded(digits', indices', d, i)
  {
    digits' := digits + seq(|found|, _ => d);
    indices' := indices + found;
    forall i | i in found ensures Recorded(digits', indices', d, i) {
      var m :| 0 <= m < |found| && found[m] == i;
      assert digits'[|digits| + m] == d && indices'[|digits| + m] == i;
    }
  }

  /** Pairs (position, digit). */
  type Match = (nat, nat)

  predicate SortedByPosition(ms: seq<Match>) {
    forall k, l :: 0 <= k < l < |ms| ==> ms[k].0 <= ms[l].0
  }

  /** Insert `m` after every pair whose position is not greater. */
  function Insert(m: Match, ms: seq<Match>): (r: seq<Match>)
    ensures multiset(r) == multiset(ms) + multiset{m}
    ensures forall x :: x in r ==> x in ms || x == m
  {
    if ms == [] then [m]
    else if m.0 < ms[0].0 then [m] + ms
    else
      assert ms == [ms[0]] + ms[1..];
      [ms[0]] + Insert(m, ms[1..])
  }

  /** Inserting into a sorted list keeps it sorted. */
  lemma {:induction false} InsertKeepsSorted(m: Match, ms: seq<Match>)
    requires SortedByPosition(ms)
    ensures SortedByPosition(Insert(m, ms))
    decreases |ms|
  {
    if ms != [] && m.0 >= ms[0].0 {
      var rest := Insert(m, ms[1..]);
      InsertKeepsSorted(m, ms[1..]);
      forall y | y in rest ensures ms[0].0 <= y.0 {
        if y != m {
          var p :| 0 <= p < |ms[1..]| && ms[1..][p] == y;
          assert ms[p + 1] == y;
        }
      }
      InsertSorted(ms[0], rest);
    } else if ms != [] {
      InsertSorted(m, ms);
    }
  }

  lemma InsertSorted(x: Match, rest: seq<Match>)
    requires SortedByPosition(rest) && forall y :: y in rest ==> x.0 <= y.0
    ensures SortedByPosition([x] + rest)
  {
    forall k, l | 0 <= k < l < |rest| + 1 ensures ([x] + rest)[k].0 <= ([x] + rest)[l].0 {
      if k > 0 {
        assert ([x] + rest)[k] == rest[k - 1];
      }
      assert ([x] + rest)[l] == rest[l - 1];
    }
  }

  /** `argsort` of the positions followed by `sortidx.map(|&idx| digits[idx])`:
      the pairs ordered by position (`SortByPositionSorted`). */
  function SortByPosition(ms: seq<Match>): (r: seq<Match>)
    ensures multiset(r) == multiset(ms)
  {
    if ms == [] then []
    else
      assert ms == ms[..|ms| - 1] + [ms[|ms| - 1]];
      Insert(ms[|ms| - 1], SortByPosition(ms[..|ms| - 1]))
  }

  /** The sorted pairs are ordered by position. */
  lemma {:induction false} SortByPositionSorted(ms: seq<Match>)
    ensures SortedByPosition(SortByPosition(ms))
    decreases |ms|
  {
    if ms != [] {
      SortByPositionSorted(ms[..|ms| - 1]);
      InsertKeepsSorted(ms[|ms| - 1], SortByPosition(ms[..|ms| - 1]));
    }
  }

  function Zip(digits: seq<nat>, indices: seq<nat>): (r: seq<Match>)
    requires |digits| == |indices|
    ensures |r| == |digits| && forall k :: 0 <= k < |r| ==> r[k] == (indices[k], digits[k])
  {
    seq(|digits|, k requires 0 <= k < |digits| => (indices[k], digits[k]))
  }

  /** A member of a sorted list lies between its first and last pair. */
  lemma SortedBetween(sorted: seq<Match>, m: Match)
    requires SortedByPosition(sorted) && m in sorted
    ensures sorted[0].0 <= m.0 <= sorted[|sorted| - 1].0
  {
    var p :| 0 <= p < |sorted| && sorted[p] == m;
    if p > 0 {
      assert sorted[0].0 <= sorted[p].0;
    }
    if p < |sorted| - 1 {
      assert sorted[p].0 <= sorted[|sorted| - 1].0;
    }
  }

  /** `a` is spelled at the first position where any digit is spelled. */
  ghost predicate FirstSpelled(line: string, i: int, a: int) {
    Spells(line, a, i) && forall e, j :: Spells(line, e, j) ==> i <= j
  }

  /** `b` is spelled at the last position where any digit is spelled. */
  ghost predicate LastSpelled(line: string, i: int, b: int) {
    Spells(line, b, i) && forall e, j :: Spells(line, e, j) ==> j <= i
  }

  /** The first position at or after `i` where a digit is spelled, with that
      digit. */
  function FirstFrom(line: string, i: nat): (r: Option<(nat, nat)>)
    decreases |line| - i, 1
  {
    if i >= |line| then None else FirstStep(line, i)
  }

  function FirstStep(line: string, i: nat): (r: Option<(nat, nat)>)
    requires i < |line|
    decreases |line| - i, 0
  {
    if Spells(line, SpelledDigit(line, i), i) then Some((i, SpelledDigit(line, i) as nat))
    else FirstFrom(line, i + 1)
  }

  /** The last position before `j` where a digit is spelled, with that digit. */
  function LastBelow(line: string, j: nat): (r: Option<(nat, nat)>)
    requires j <= |line|
    decreases j, 0
  {
    if j == 0 then None else LastStep(line, j - 1)
  }

  function LastStep(line: string, i: nat): (r: Option<(nat, nat)>)
    requires i < |line|
    decreases i, 1
  {
    if Spells(line, SpelledDigit(line, i), i) then Some((i, SpelledDigit(line, i) as nat))
    else LastBelow(line, i)
  }

  /** A reference value for one line: the first and the last spelled digit
      found by scanning the line, or none when no digit is spelled. */
  function LineValue2(line: string): Option<nat> {
    match (FirstFrom(line, 0), LastBelow(line, |line|))
    case (Some(f), Some(l)) => Some(10 * f.1 + l.1)
    case _ => None
  }

  /** The reference sum of the part-two line values, or none when some line
      spells no digit. */
  function Sum2(lines: seq<string>): (r: Option<nat>)
    ensures r.Some? <==> forall k :: 0 <= k < |lines| ==> LineValue2(lines[k]).Some?
  {
    if lines == [] then Some(0)
    else
      assert forall k :: 0 <= k < |lines| - 1 ==> lines[..|lines| - 1][k] == lines[k];
      match (Sum2(lines[..|lines| - 1]), LineValue2(lines[|lines| - 1]))
      case (Some(s), Some(v)) => Some(s + v)
      case _ => None
  }

  /** The forward scan stops at the first spelled digit. */
  lemma {:induction false} FirstFromFinds(line: string, i0: nat, i: nat, a: int)
    requires i0 <= i && Spells(line, a, i)
    requires forall e, j :: i0 <= j < i ==> !Spells(line, e, j)
    ensures FirstFrom(line, i0) == Some((i, a as nat))
    decreases i - i0
  {
    SpellsDetermined(line, a, i);
    assert FirstFrom(line, i0) == FirstStep(line, i0);
    if i0 < i {
      assert !Spells(line, SpelledDigit(line, i0), i0);
      FirstFromFinds(line, i0 + 1, i, a);
    }
  }

  /** The backward scan stops at the last spelled digit. */
  lemma {:induction false} LastBelowFinds(line: string, j0: nat, i: nat, b: int)
    requires i < j0 <= |line| && Spells(line, b, i)
    requires forall e, j :: i < j < j0 ==> !Spells(line, e, j)
    ensures LastBelow(line, j0) == Some((i, b as nat))
    decreases j0 - i
  {
    SpellsDetermined(line, b, i);
    assert LastBelow(line, j0) == LastStep(line, j0 - 1);
    if i < j0 - 1 {
      assert !Spells(line, SpelledDigit(line, j0 - 1), j0 - 1);
      LastBelowFinds(line, j0 - 1, i, b);
    }
  }

  /** The forward scan finds nothing in a line that spells no digit. */
  lemma {:induction false} FirstFromNothing(line: string, i0: nat)
    requires forall d, i :: !Spells(line, d, i)
    ensures FirstFrom(line, i0) == None
    decreases |line| - i0
  {
    if i0 < |line| {
      assert FirstFrom(line, i0) == FirstStep(line, i0);
      FirstFromNothing(line, i0 + 1);
    }
  }

  /** The backward scan finds nothing in a line that spells no digit. */
  lemma {:induction false} LastBelowNothing(line: string, j0: nat)
    requires j0 <= |line| && forall d, i :: !Spells(line, d, i)
    ensures LastBelow(line, j0) == None
    decreases j0
  {
    if j0 > 0 {
      assert LastBelow(line, j0) == LastStep(line, j0 - 1);
      LastBelowNothing(line, j0 - 1);
    }
  }

  /** A line that spells no digit has no reference value. */
  lemma LineValue2Nothing(line: string)
    requires forall d, i :: !Spells(line, d, i)
    ensures LineValue2(line) == None
  {
    FirstFromNothing(line, 0);
  }

  /** The reference value is ten times the first spelled digit plus the last
      one, and none exactly when no digit is spelled. */
  lemma LineValue2Spelled(line: string, i: int, a: int, j: int, b: int)
    requires FirstSpelled(line, i, a) && LastSpelled(line, j, b)
    ensures LineValue2(line) == Some(10 * a + b)
  {
    SpellsDetermined(line, a, i);
    SpellsDetermined(line, b, j);
    FirstFromFinds(line, 0, i, a);
    LastBelowFinds(line, |line|, j, b);
  }

  /** One line's part-two value: ten times the digit spelled first plus the
      digit spelled last; a line that spells no digit panics. */
  method CalibrationValue2(line: string) returns (r: Result<nat>)
    ensures r.Panic? <==> forall d, i :: !Spells(line, d, i)
    ensures r.Ok? ==> exists i, j, a, b :: FirstSpelled(line, i, a) && LastSpelled(line, j, b) && r.value == 10 * a + b
    ensures r.Ok? ==> 11 <= r.value <= 99
    ensures LineValue2(line) == if r.Ok? then Some(r.value) else None
  {
    var digits, indices := CollectDigits(line);
    var sorted := SortByPosition(Zip(digits, indices));
    if sorted == [] {
      NothingCollected(line, digits, indices);
    } else {
      SortedEnds(line, digits, indices, sorted);
    }
    r := EndsValue(sorted);
    EndsValueSpelled(line, sorted);
    EndsValueReference(line, sorted);
  }

  /** `digits.first().unwrap() * 10 + digits.last().unwrap()` on the sorted
      pairs. */
  function EndsValue(sorted: seq<Match>): Result<nat> {
    if sorted == [] then Panic(UnwrapNone)
    else Ok(sorted[0].1 * 10 + sorted[|sorted| - 1].1)
  }

  /** Pairs whose ends are the first and the last spelled digit, or no pairs
      for a line that spells none. */
  ghost predicate SpelledEnds(line: string, sorted: seq<Match>) {
    if sorted == [] then forall d, i :: !Spells(line, d, i)
    else FirstSpelled(line, sorted[0].0, sorted[0].1) && LastSpelled(line, sorted[|sorted| - 1].0, sorted[|sorted| - 1].1)
  }

  /** Taking the ends gives ten times the first spelled digit plus the last,
      and panics exactly when no digit is spelled. */
  lemma EndsValueSpelled(line: string, sorted: seq<Match>)
    requires SpelledEnds(line, sorted)
    ensures EndsValue(sorted).Panic? <==> forall d, i :: !Spells(line, d, i)
    ensures EndsValue(sorted).Ok? ==> 11 <= EndsValue(sorted).value <= 99
    ensures EndsValue(sorted).Ok? ==> exists i, j, a, b ::
      FirstSpelled(line, i, a) && LastSpelled(line, j, b) && EndsValue(sorted).value == 10 * a + b
  {
  }

  /** The same value is the reference value of the line. */
  lemma EndsValueReference(line: string, sorted: seq<Match>)
    requires SpelledEnds(line, sorted)
    ensures LineValue2(line) == if EndsValue(sorted).Ok? then Some(EndsValue(sorted).value) else None
  {
    if sorted == [] {
      LineValue2Nothing(line);
    } else {
      var first, last := sorted[0], sorted[|sorted| - 1];
      LineValue2Spelled(line, first.0, first.1, last.0, last.1);
    }
  }

  /** No collected pair means no digit is spelled. */
  lemma NothingCollected(line: string, digits: seq<nat>, indices: seq<nat>)
    requires |digits| == |indices| && SortByPosition(Zip(digits, indices)) == []
    requires forall d, i :: Spells(line, d, i) ==> Recorded(digits, indices, d, i)
    ensures forall d, i :: !Spells(line, d, i)
  {
    assert |Zip(digits, indices)| == |multiset(SortByPosition(Zip(digits, indices)))| == 0;
  }

  /** The ends of the sorted pairs are the first and the last spelled digit. */
  lemma SortedEnds(line: string, digits: seq<nat>, indices: seq<nat>, sorted: seq<Match>)
    requires |digits| == |indices| && sorted == SortByPosition(Zip(digits, indices)) && sorted != []
    requires forall k :: 0 <= k < |digits| ==> Spells(line, digits[k], indices[k])
    requires forall d, i :: Spells(line, d, i) ==> Recorded(digits, indices, d, i)
    ensures FirstSpelled(line, sorted[0].0, sorted[0].1)
    ensures LastSpelled(line, sorted[|sorted| - 1].0, sorted[|sorted| - 1].1)
  {
    var pairs := Zip(digits, indices);
    var first, last := sorted[0], sorted[|sorted| - 1];
    SortByPositionSorted(pairs);
    assert first in multiset(pairs) && last in multiset(pairs);
    forall e, j | Spells(line, e, j) ensures first.0 <= j <= last.0 {
      var k :| 0 <= k < |digits| && k < |indices| && digits[k] == e && indices[k] == j;
      assert pairs[k] in multiset(sorted);
      SortedBetween(sorted, pairs[k]);
    }
  }

  ghost predicate SpellsSome(line: string) {
    exists d, i :: Spells(line, d, i)
  }

  /** The part-two answer: the sum of the line values, panicking at the first
      line that spells no digit. */
  method Part2(lines: seq<string>) returns (r: Result<nat>)
    ensures r.Panic? <==> exists k :: 0 <= k < |lines| && !SpellsSome(lines[k])
    ensures r.Ok? ==> 11 * |lines| <= r.value <= 99 * |lines|
    ensures r.Ok? ==> Sum2(lines) == Some(r.value)
  {
    var total := 0;
    for k := 0 to |lines|
      invariant 11 * k <= total <= 99 * k
      invariant forall m :: 0 <= m < k ==> SpellsSome(lines[m])
      invariant Sum2(lines[..k]) == Some(total)
    {
      var v := AddLine(lines, k, total);
      if v.Panic? {
        return v;
      }
      total := v.value;
    }
    assert lines[..|lines|] == lines;
    r := Ok(total);
  }

  /** One turn of the summing loop: the value of line k added to the total so
      far, or the panic of that line. */
  method AddLine(lines: seq<string>, k: nat, total: nat) returns (r: Result<nat>)
    requires k < |lines| && 11 * k <= total <= 99 * k && Sum2(lines[..k]) == Some(total)
    ensures r.Panic? <==> !SpellsSome(lines[k])
    ensures r.Ok? ==> 11 * (k + 1) <= r.value <= 99 * (k + 1) && Sum2(lines[..k + 1]) == Some(r.value)
  {
    var v := CalibrationValue2(lines[k]);
    if v.Panic? {
      return v;
    }
    Sum2Step(lines, k);
    r := Ok(total + v.value);
  }

  /** One more line adds its reference value to the reference sum. */
  lemma Sum2Step(lines: seq<string>, k: nat)
    requires k < |lines|
    ensures Sum2(lines[..k + 1]) == match (Sum2(lines[..k]), LineValue2(lines[k]))
      case (Some(s), Some(v)) => Some(s + v)
      case _ => None
  {
    assert lines[..k + 1][..k] == lines[..k];
  }

  /** The first two letters identify a spelled-out digit. */
  function WordDigit(p: string): int {
    if p == "on" then 1 else if p == "tw" then 2 else if p == "th" then 3
    else if p == "fo" then 4 else if p == "fi" then 5 else if p == "si" then 6
    else if p == "se" then 7 else if p == "ei" then 8 else if p == "ni" then 9 else 0
  }

  /** The digit spelled at position i, read off the line itself. */
  function SpelledDigit(line: string, i: int): int
    requires 0 <= i < |line|
  {
    if IsDigit(line[i]) then DigitValue(line[i])
    else if i + 2 <= |line| then WordDigit(line[i..i + 2])
    else 0
  }

  lemma SpellsDetermined(line: string, d: int, i: int)
    requires Spells(line, d, i)
    ensures 0 <= i < |line| && SpelledDigit(line, i) == d
  {
    if SpellsIn(Words, line, d, i) {
      var w := Words[d - 1];
      WordKey(d);
      assert line[i..i + |w|] == w;
      assert line[i..i + 2] == w[..2];
      assert !IsDigit(line[i]) by {
        assert line[i] == w[0];
      }
    } else {
      assert line[i..i + 1] == Numerals[d - 1];
      assert line[i] == Numerals[d - 1][0];
      NumeralKey(d);
    }
  }

  lemma WordKey(d: int)
    requires 1 <= d <= 9
    ensures |Words[d - 1]| >= 3 && WordDigit(Words[d - 1][..2]) == d && !IsDigit(Words[d - 1][0])
  {
    if d == 1 { assert Words[0][..2] == "on"; }
    else if d == 2 { assert Words[1][..2] == "tw"; }
    else if d == 3 { assert Words[2][..2] == "th"; }
    else if d == 4 { assert Words[3][..2] == "fo"; }
    else if d == 5 { assert Words[4][..2] == "fi"; }
    else if d == 6 { assert Words[5][..2] == "si"; }
    else if d == 7 { assert Words[6][..2] == "se"; }
    else if d == 8 { assert Words[7][..2] == "ei"; }
    else { assert Words[8][..2] == "ni"; }
  }

  lemma NumeralKey(d: int)
    requires 1 <= d <= 9
    ensures |Numerals[d - 1]| == 1 && IsDigit(Numerals[d - 1][0]) && DigitValue(Numerals[d - 1][0]) == d
  {
    assert d == 1 || d == 2 || d == 3 || d == 4 || d == 5 || d == 6 || d == 7 || d == 8 || d == 9;
  }

  /** At most one digit is spelled at any position, so the first and last
      digits above are determined by the line. */
  lemma SpellsUnique(line: string, d: int, e: int, i: int)
    requires Spells(line, d, i) && Spells(line, e, i)
    ensures d == e
  {
    SpellsDetermined(line, d, i);
    SpellsDetermined(line, e, i);
  }
}
