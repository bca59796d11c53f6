/** Day 12: damaged springs. A row of '.', '#' and '?' comes with a list of
    group sizes; a row without '?' is valid when its runs of non-'.'
    characters have exactly those sizes, and the count of a row with '?'s
    is the number of valid ways to fill them in, found by expanding the
    first '?' both ways. */
module Day12 {
  import opened Wrappers
  import opened Strings
  import opened Numbers

  // ----------------------------------------------------------------- parsing

  /** One line: the map before the first space, then the counts split on
      ','; a line without a space, or a count that is not a number, panics. */
  function ParseLine(line: string): (r: Result<(string, seq<nat>)>)
    ensures !Contains(line, " ") ==> r == Panic(UnwrapNone)
    ensures r.Ok? ==> ' ' !in r.value.0 && |r.value.1| >= 1
  {
    var segs :- Unwrap(SplitOnce(line, " "), UnwrapNone);
    var counts :- Collect(NatResults(Split(segs.1, ",")));
    CharNotContained(segs.0, ' ');
    Ok((segs.0, counts))
  }

  function LineResults(lines: seq<string>): (r: seq<Result<(string, seq<nat>)>>)
    ensures |r| == |lines| && forall k :: 0 <= k < |lines| ==> r[k] == ParseLine(lines[k])
  {
    seq(|lines|, k requires 0 <= k < |lines| => ParseLine(lines[k]))
  }

  /** `parse_input`: every line parsed, then unzipped into the maps and the
      patterns. */
  function ParseInput(input: string): (r: Result<(seq<string>, seq<seq<nat>>)>)
    ensures r.Ok? ==> |r.value.0| == |r.value.1| == |Lines(input)|
    ensures r.Ok? ==> forall k :: 0 <= k < |Lines(input)| ==>
      ParseLine(Lines(input)[k]) == Ok((r.value.0[k], r.value.1[k]))
    ensures r.Ok? <==> forall k :: 0 <= k < |Lines(input)| ==> ParseLine(Lines(input)[k]).Ok?
  {
    var rows :- Collect(LineResults(Lines(input)));
    Ok((seq(|rows|, k requires 0 <= k < |rows| => rows[k].0), seq(|rows|, k requires 0 <= k < |rows| => rows[k].1)))
  }

  /** A line as the puzzle writes it. */
  function FormatLine(row: string, pattern: seq<nat>): string {
    row + " " + Join(Numerals(pattern), ",")
  }

  /** Every written line parses back to its map and its pattern. */
  lemma ParseFormatLine(row: string, pattern: seq<nat>)
    requires ' ' !in row && |pattern| >= 1
    ensures ParseLine(FormatLine(row, pattern)) == Ok((row, pattern))
  {
    var counts := Join(Numerals(pattern), ",");
    var line := FormatLine(row, pattern);
    SplitFirstChar(row, ' ', counts);
    assert SplitOnce(line, " ") == Some((row, counts)) by {
      NotContainsChar(row, ' ');
      var k := IndexOf(line, " ").value;
      assert OccursAt(line, " ", |row|);
      assert line[k] == ' ';
      assert k == |row|;
    }
    NumeralsAvoid(pattern, ',');
    SplitJoinChar(Numerals(pattern), ',');
    NatResultsOfNumerals(pattern);
    CollectAllOk(NatResults(Numerals(pattern)), pattern);
  }

  // ------------------------------------------------------------ valid rows

  /** The non-empty pieces of a list, in order. */
  function NonEmpty(pieces: seq<string>): (r: seq<string>)
    ensures forall k :: 0 <= k < |r| ==> r[k] != [] && r[k] in pieces
    ensures |r| <= |pieces|
  {
    if pieces == [] then []
    else if pieces[0] == [] then NonEmpty(pieces[1..])
    else [pieces[0]] + NonEmpty(pieces[1..])
  }

  /** The groups of a row: `[.]+` splits, with the empty pieces dropped. */
  function Groups(row: string): (r: seq<string>)
    ensures forall k :: 0 <= k < |r| ==> r[k] != [] && '.' !in r[k]
  {
    NonEmpty(SplitRuns(row, '.'))
  }

  function Lengths(groups: seq<string>): (r: seq<nat>)
    ensures |r| == |groups| && forall k :: 0 <= k < |r| ==> r[k] == |groups[k]|
  {
    seq(|groups|, k requires 0 <= k < |groups| => |groups[k]|)
  }

  /** `is_valid_row`: as many groups as pattern entries, and each group as
      long as its entry. */
  function IsValidRow(row: string, pattern: seq<nat>): (b: bool)
    ensures b <==> Lengths(Groups(row)) == pattern
  {
    var groups := Groups(row);
    if |groups| != |pattern| then false
    else
      var b := forall k :: 0 <= k < |groups| ==> |groups[k]| == pattern[k];
      assert b <==> Lengths(groups) == pattern by {
        if b {
          assert Lengths(groups) == pattern;
        }
      }
      b
  }

  /** Words without '.' joined by single dots come back as the groups. */
  lemma {:induction false} GroupsOfJoin(ws: seq<string>)
    requires |ws| > 0 && forall k :: 0 <= k < |ws| ==> ws[k] != [] && '.' !in ws[k]
    ensures Groups(Join(ws, ".")) == ws
  {
    SplitRunsJoin(ws, '.');
    NonEmptyKeeps(ws);
  }

  lemma {:induction false} NonEmptyKeeps(ws: seq<string>)
    requires forall k :: 0 <= k < |ws| ==> ws[k] != []
    ensures NonEmpty(ws) == ws
    decreases |ws|
  {
    if ws != [] {
      NonEmptyKeeps(ws[1..]);
    }
  }

  /** A run of `n` damaged springs. */
  function Damaged(n: nat): (r: string)
    ensures |r| == n && '.' !in r
  {
    seq(n, _ => '#')
  }

  /** The tightest row for a pattern of positive sizes, its runs separated
      by single dots, is valid for it. */
  lemma TightRowValid(pattern: seq<nat>)
    requires |pattern| > 0 && forall k :: 0 <= k < |pattern| ==> pattern[k] > 0
    ensures IsValidRow(Join(seq(|pattern|, k requires 0 <= k < |pattern| => Damaged(pattern[k])), "."), pattern)
  {
    var ws := seq(|pattern|, k requires 0 <= k < |pattern| => Damaged(pattern[k]));
    GroupsOfJoin(ws);
    assert Lengths(ws) == pattern;
  }

  /** The examples of the tests: "#.#.###" fits 1, 1, 3, "##..###" does
      not. */
  lemma ValidExample()
    ensures IsValidRow("#.#.###", [1, 1, 3])
  {
    var a := ["#", "#", "###"];
    GroupsOfJoin(a);
    assert Join(a, ".") == "#.#.###";
    assert Lengths(a) == [1, 1, 3];
  }

  lemma InvalidExample()
    ensures !IsValidRow("##..###", [1, 1, 3])
  {
    var w, t := "###", ".." + "###";
    var e: string := [];
    SplitRunsWord(w, '.', e);
    assert w + e == w;
    assert SplitRuns(w, '.') == [w];
    assert DropRun(t, '.') == w;
    assert SplitRuns(t, '.') == [e, w];
    SplitRunsWord("##", '.', t);
    assert "##..###" == "##" + t;
    assert "##" + e == "##" && [e, w][1..] == [w];
    assert SplitRuns("##" + t, '.') == ["##", w];
    assert SplitRuns("##..###", '.') == ["##", w];
    NonEmptyKeeps(["##", w]);
  }

  // ---------------------------------------------------------- combinations

  /** The number of unknown springs. */
  function Unknowns(row: string): nat
    decreases |row|
  {
    if row == [] then 0
    else Unknowns(row[..|row| - 1]) + if row[|row| - 1] == '?' then 1 else 0
  }

  /** No spring is unknown exactly when no character is '?'. */
  lemma {:induction false} UnknownsZero(row: string)
    ensures Unknowns(row) == 0 <==> forall k :: 0 <= k < |row| ==> row[k] != '?'
    decreases |row|
  {
    if row != [] {
      var n := |row| - 1;
      UnknownsZero(row[..n]);
      assert forall k :: 0 <= k < n ==> row[..n][k] == row[k];
    }
  }

  /** Overwriting one character changes the count by what left and what
      came in. */
  lemma {:induction false} UnknownsUpdate(row: string, pos: nat, c: char)
    requires pos < |row|
    ensures Unknowns(row[pos := c]) + (if row[pos] == '?' then 1 else 0) == Unknowns(row) + (if c == '?' then 1 else 0)
    decreases |row|
  {
    var n := |row| - 1;
    if pos == n {
      assert row[pos := c][..n] == row[..n];
    } else {
      assert row[pos := c][..n] == row[..n][pos := c];
      UnknownsUpdate(row[..n], pos, c);
    }
  }

  /** `count_valid_combinations`: with no '?', 1 for a valid row and 0
      otherwise; else the counts with the first '?' set to '.' and to '#'
      (`CountValidBound`, `CountValidCounts`). */
  function CountValid(row: string, pattern: seq<nat>): nat
    decreases Unknowns(row), 1
  {
    CountFrom(row, pattern, FirstQuestion(row))
  }

  /** The count once the first '?' has been looked for. */
  function CountFrom(row: string, pattern: seq<nat>, first: Option<nat>): nat
    requires first == FirstQuestion(row)
    decreases Unknowns(row), 0
  {
    match first
    case None =>
      if IsValidRow(row, pattern) then 1 else 0
    case Some(pos) =>
      FillOne(row, pos, '.');
      FillOne(row, pos, '#');
      CountValid(row[pos := '.'], pattern) + CountValid(row[pos := '#'], pattern)
  }

  /** A row without '?' counts 1 exactly when it is valid, and 0 otherwise. */
  lemma CountValidKnown(row: string, pattern: seq<nat>)
    requires Unknowns(row) == 0
    ensures CountValid(row, pattern) == if IsValidRow(row, pattern) then 1 else 0
  {
    UnknownsZero(row);
    assert CountValid(row, pattern) == CountFrom(row, pattern, None);
  }

  /** A row with a '?' counts the rows with that '?' set to '.' and to '#'. */
  lemma CountValidSplit(row: string, pattern: seq<nat>, pos: nat)
    requires FirstQuestion(row) == Some(pos)
    ensures CountValid(row, pattern) == CountValid(row[pos := '.'], pattern) + CountValid(row[pos := '#'], pattern)
  {
    assert CountValid(row, pattern) == CountFrom(row, pattern, Some(pos));
  }

  /** There are at most two choices per '?'. */
  lemma {:induction false} CountValidBound(row: string, pattern: seq<nat>)
    ensures CountValid(row, pattern) <= Pow2(Unknowns(row))
    decreases Unknowns(row)
  {
    match FirstQuestion(row)
    case None =>
      CountValidKnown(row, pattern);
    case Some(pos) =>
      FillOne(row, pos, '.');
      FillOne(row, pos, '#');
      CountValidSplit(row, pattern, pos);
      CountValidBound(row[pos := '.'], pattern);
      CountValidBound(row[pos := '#'], pattern);
      SplitBound(Unknowns(row) - 1, CountValid(row[pos := '.'], pattern), CountValid(row[pos := '#'], pattern));
  }

  /** Two choices for one '?' at most double the count. */
  lemma SplitBound(v: nat, a: nat, b: nat)
    requires a <= Pow2(v) && b <= Pow2(v)
    ensures a + b <= Pow2(v + 1)
  {
  }

  /** The first '?' at or after `i`. */
  function QuestionFrom(row: string, i: nat): (r: Option<nat>)
    requires i <= |row|
    ensures r.Some? ==> i <= r.value < |row| && row[r.value] == '?'
    ensures r.Some? ==> forall k :: i <= k < r.value ==> row[k] != '?'
    ensures r.None? ==> forall k :: i <= k < |row| ==> row[k] != '?'
    decreases |row| - i
  {
    if i == |row| then None
    else if row[i] == '?' then Some(i)
    else QuestionFrom(row, i + 1)
  }

  /** The first '?' of a row, or none when no spring is unknown. */
  function FirstQuestion(row: string): (r: Option<nat>)
    ensures r.None? ==> Unknowns(row) == 0 && forall k :: 0 <= k < |row| ==> row[k] != '?'
    ensures r.Some? ==> r.value < |row| && row[r.value] == '?'
  {
    var r := QuestionFrom(row, 0);
    UnknownsZero(row);
    r
  }

  /** The scan finds what `match_indices("?").first()` finds. */
  lemma FirstQuestionFinds(row: string)
    ensures FirstQuestion(row) == IndexOf(row, "?")
  {
    forall j ensures OccursAt(row, "?", j) <==> 0 <= j < |row| && row[j] == '?' {
      if 0 <= j < |row| {
        assert row[j..j + 1] == [row[j]];
      }
    }
  }

  /** Filling a '?' leaves one fewer. */
  lemma FillOne(row: string, pos: nat, c: char)
    requires pos < |row| && row[pos] == '?' && c != '?'
    ensures Unknowns(row) >= 1 && Unknowns(row[pos := c]) == Unknowns(row) - 1
  {
    UnknownsUpdate(row, pos, c);
  }

  /** `replace_range(pos..pos + 1, c)` is the update at `pos`. */
  lemma ReplaceRangeIsUpdate(row: string, pos: nat, c: char)
    requires pos < |row|
    ensures row[..pos] + [c] + row[pos + 1..] == row[pos := c]
  {
    var t := row[..pos] + [c] + row[pos + 1..];
    assert forall k :: 0 <= k < |row| ==> t[k] == row[pos := c][k];
  }

  /** `s` fills the unknowns of `row` with '.' or '#' and keeps the rest. */
  predicate Fills(row: string, s: string) {
    |s| == |row| &&
    forall k :: 0 <= k < |row| ==> if row[k] == '?' then s[k] == '.' || s[k] == '#' else s[k] == row[k]
  }

  function Options(c: char): set<char> {
    if c == '?' then {'.', '#'} else {c}
  }

  /** Every filled-in row, built a character at a time. */
  function Fillings(row: string): (r: set<string>)
    ensures forall s :: s in r <==> Fills(row, s)
    decreases |row|
  {
    if row == [] then {[]}
    else
      var n := |row| - 1;
      var prev := Fillings(row[..n]);
      var r := set s, c | s in prev && c in Options(row[n]) :: s + [c];
      forall s | Fills(row, s) ensures s in r {
        assert Fills(row[..n], s[..n]);
        assert s == s[..n] + [s[n]];
      }
      forall s | s in r ensures Fills(row, s) {
        var t, c :| t in prev && c in Options(row[n]) && s == t + [c];
        assert forall k :: 0 <= k < n ==> s[k] == t[k];
      }
      r
  }

  /** The valid filled-in rows. */
  function ValidFillings(row: string, pattern: seq<nat>): set<string> {
    set s | s in Fillings(row) && IsValidRow(s, pattern)
  }

  /** A row without '?' fills in only as itself. */
  lemma KnownFillings(row: string, pattern: seq<nat>)
    requires forall k :: 0 <= k < |row| ==> row[k] != '?'
    ensures ValidFillings(row, pattern) == if IsValidRow(row, pattern) then {row} else {}
  {
    forall s | s in Fillings(row) ensures s == row {
      assert Fills(row, s);
    }
    assert row in Fillings(row);
  }

  /** The fillings of a row split by the choice at one '?'. */
  lemma SplitFillings(row: string, pos: nat, pattern: seq<nat>)
    requires pos < |row| && row[pos] == '?'
    ensures ValidFillings(row, pattern) == ValidFillings(row[pos := '.'], pattern) + ValidFillings(row[pos := '#'], pattern)
    ensures ValidFillings(row[pos := '.'], pattern) * ValidFillings(row[pos := '#'], pattern) == {}
  {
    var dot, hash := row[pos := '.'], row[pos := '#'];
    var a, b := ValidFillings(dot, pattern), ValidFillings(hash, pattern);
    forall s | s in ValidFillings(row, pattern) ensures s in a + b {
      assert Fills(row, s);
      if s[pos] == '.' {
        assert Fills(dot, s);
      } else {
        assert Fills(hash, s);
      }
    }
    forall s | s in a + b ensures s in ValidFillings(row, pattern) {
      if s in a {
        assert Fills(dot, s);
      } else {
        assert Fills(hash, s);
      }
      assert Fills(row, s);
    }
    forall s | s in a ensures s !in b {
      assert Fills(dot, s) && s[pos] == '.';
    }
  }

  /** The count is exactly the number of valid ways to fill in the '?'s. */
  lemma {:induction false} CountValidCounts(row: string, pattern: seq<nat>)
    ensures CountValid(row, pattern) == |ValidFillings(row, pattern)|
    decreases Unknowns(row)
  {
    match FirstQuestion(row)
    case None =>
      KnownFillings(row, pattern);
      CountValidKnown(row, pattern);
    case Some(pos) =>
      FillOne(row, pos, '.');
      FillOne(row, pos, '#');
      CountValidSplit(row, pattern, pos);
      CountValidCounts(row[pos := '.'], pattern);
      CountValidCounts(row[pos := '#'], pattern);
      SplitFillings(row, pos, pattern);
  }

  /** The answer: the counts of every row summed. */
  function Total(rows: seq<string>, patterns: seq<seq<nat>>): (r: nat)
    requires |rows| == |patterns|
    ensures forall k :: 0 <= k < |rows| ==> r >= CountValid(rows[k], patterns[k])
  {
    if rows == [] then 0
    else Total(rows[1..], patterns[1..]) + CountValid(rows[0], patterns[0])
  }
}
