/** Day 4: scratchcards. A card lists winning numbers and the numbers played;
    part one scores 2^(n-1) for n matches, part two wins copies of the next n
    cards and counts every card held at the end. */
module Day4 {
  import opened Wrappers
  import opened Strings
  import opened Numbers

  datatype Scratchcard = Scratchcard(gameId: nat, winningNumbers: seq<nat>, numbers: seq<nat>)

  // ----------------------------------------------------------------- parsing

  /** The regular expression `Card[ ]+` matches at `j` (at least its first
      space). */
  predicate CardLabelAt(s: string, j: int) {
    0 <= j && j + 5 <= |s| && s[j..j + 4] == "Card" && s[j + 4] == ' '
  }

  /** The leftmost match of `Card[ ]+` at or after `j`. */
  function FirstCardLabel(s: string, j: nat): (r: Option<nat>)
    ensures r.Some? ==> j <= r.value && CardLabelAt(s, r.value)
    ensures r.Some? ==> forall k :: j <= k < r.value ==> !CardLabelAt(s, k)
    ensures r.None? ==> forall k :: j <= k ==> !CardLabelAt(s, k)
    decreases |s| - j
  {
    if j + 5 > |s| then None
    else if CardLabelAt(s, j) then Some(j)
    else FirstCardLabel(s, j + 1)
  }

  /** `card_re.replace(s, "")`: the leftmost match, with all of its spaces,
      removed. */
  function RemoveCardLabel(s: string): string {
    match FirstCardLabel(s, 0)
    case None => s
    case Some(j) => s[..j] + DropRun(s[j + 4..], ' ')
  }

  /** The pieces of a number list, each parsed with `unwrap`. */
  function NumberResults(pieces: seq<string>): (r: seq<Result<nat>>)
    ensures |r| == |pieces|
    ensures forall k :: 0 <= k < |r| ==> r[k] == Unwrap(ParseNat(Trim(pieces[k])), UnwrapErr)
  {
    seq(|pieces|, k requires 0 <= k < |pieces| => Unwrap(ParseNat(Trim(pieces[k])), UnwrapErr))
  }

  /** `split_re.split(part.trim()).map(|str| str.trim().parse().unwrap())`:
      the first piece that is not a number panics. */
  function ParseNumbers(part: string): Result<seq<nat>> {
    Collect(NumberResults(SplitRuns(Trim(part), ' ')))
  }

  /** One line of `parse_cards_from_file`: the id after the `Card` head, then
      the lists before and after `" | "`. */
  function ParseCard(line: string): Result<Scratchcard> {
    var segs := Split(line, ": ");
    var id :- Unwrap(ParseNat(RemoveCardLabel(segs[0])), UnwrapErr);
    var parts := Split(segs[|segs| - 1], " | ");
    var winning :- ParseNumbers(parts[0]);
    var numbers :- ParseNumbers(parts[|parts| - 1]);
    Ok(Scratchcard(id, winning, numbers))
  }

  /** A card written the way the puzzle writes it, with single spaces. */
  function FormatCard(c: Scratchcard): string {
    "Card " + NatToString(c.gameId) + ": " + Join(Numerals(c.winningNumbers), " ") + " | " +
      Join(Numerals(c.numbers), " ")
  }

  /** A number's digits, trimmed and parsed, give the number back. */
  lemma NumeralParses(x: nat)
    ensures Unwrap(ParseNat(Trim(NatToString(x))), UnwrapErr) == Ok(x)
  {
    var n := NatToString(x);
    assert IsDigit(n[0]) && IsDigit(n[|n| - 1]);
    TrimIdentity(n);
    ParseNatToString(x);
  }

  /** Numbers written with single spaces are their own trim. */
  lemma JoinedTrimmed(xs: seq<nat>)
    requires |xs| > 0
    ensures Trim(Join(Numerals(xs), " ")) == Join(Numerals(xs), " ")
  {
    var ns := Numerals(xs);
    JoinHead(ns, " ");
    JoinLast(ns, " ");
    var s := Join(ns, " ");
    assert IsDigit(ns[0][0]) && IsDigit(ns[|ns| - 1][|ns[|ns| - 1]| - 1]);
    TrimIdentity(s);
  }

  /** A non-empty list written with single spaces parses back to itself. */
  lemma ParseNumbersJoin(xs: seq<nat>)
    requires |xs| > 0
    ensures ParseNumbers(Join(Numerals(xs), " ")) == Ok(xs)
  {
    var ns := Numerals(xs);
    JoinedTrimmed(xs);
    NumeralsAvoid(xs, ' ');
    SplitRunsJoin(ns, ' ');
    var rs := NumberResults(ns);
    forall k | 0 <= k < |xs| ensures rs[k] == Ok(xs[k]) {
      NumeralParses(xs[k]);
    }
    CollectAllOk(rs, xs);
  }

  /** The `Card` label and its spaces are removed, leaving the id's digits. */
  lemma RemoveLabel(idStr: string)
    requires |idStr| > 0 && IsDigit(idStr[0])
    ensures RemoveCardLabel("Card " + idStr) == idStr
  {
    var head := "Card " + idStr;
    assert CardLabelAt(head, 0);
    assert head[4..] == " " + idStr;
    assert (" " + idStr)[1..] == idStr;
  }

  /** The text after the label, with a character of each separator missing
      from it. */
  lemma SplitCard(idStr: string, rest: string)
    requires ':' !in idStr && ':' !in rest
    ensures Split("Card " + idStr + ": " + rest, ": ") == ["Card " + idStr, rest]
  {
    var head := "Card " + idStr;
    assert ':' !in head;
    SplitFirstBy(head, ": ", rest, 0);
    NotContainsAt(rest, ": ", 0);
    SplitAbsent(rest, ": ");
  }

  lemma SplitLists(ws: string, ns: string)
    requires '|' !in ws && '|' !in ns
    ensures Split(ws + " | " + ns, " | ") == [ws, ns]
  {
    assert " | "[..1] == " ";
    SplitFirstBy(ws, " | ", ns, 1);
    NotContainsAt(ns, " | ", 1);
    SplitAbsent(ns, " | ");
  }

  /** A list written with single spaces holds no ':' or '|'. */
  lemma JoinedAvoids(xs: seq<nat>)
    ensures ':' !in Join(Numerals(xs), " ") && '|' !in Join(Numerals(xs), " ")
  {
    NumeralsAvoid(xs, ':');
    NumeralsAvoid(xs, '|');
    JoinAvoids(Numerals(xs), " ", ':');
    JoinAvoids(Numerals(xs), " ", '|');
  }

  /** Every card with non-empty lists, written in the puzzle's format, parses
      back to itself. */
  lemma ParseFormatCard(c: Scratchcard)
    requires |c.winningNumbers| > 0 && |c.numbers| > 0
    ensures ParseCard(FormatCard(c)) == Ok(c)
  {
    var idStr := NatToString(c.gameId);
    var ws := Join(Numerals(c.winningNumbers), " ");
    var ns := Join(Numerals(c.numbers), " ");
    var rest := ws + " | " + ns;
    assert FormatCard(c) == "Card " + idStr + ": " + rest;
    NumeralAvoids(c.gameId, ':');
    JoinedAvoids(c.winningNumbers);
    JoinedAvoids(c.numbers);
    SplitCard(idStr, rest);
    RemoveLabel(idStr);
    ParseNatToString(c.gameId);
    SplitLists(ws, ns);
    ParseNumbersJoin(c.winningNumbers);
    ParseNumbersJoin(c.numbers);
  }

  /** An empty list panics: its one empty piece is not a number. */
  lemma EmptyListPanics()
    ensures ParseNumbers([]) == Panic(UnwrapErr)
  {
    var empty: string := [];
    assert Trim(empty) == empty;
    assert SplitRuns(empty, ' ') == [empty];
    var rs := NumberResults([empty]);
    assert ParseNat(empty) == None;
    assert rs[0] == Panic(UnwrapErr);
    CollectFirstPanic(rs, 0);
  }

  /** So a card with no winning numbers panics. */
  lemma EmptyWinningListPanics(rest: string)
    requires ':' !in rest && '|' !in rest
    ensures ParseCard("Card 1: " + " | " + rest) == Panic(UnwrapErr)
  {
    var tail := [] + " | " + rest;
    assert ':' !in tail;
    assert "Card 1: " + " | " + rest == "Card " + "1" + ": " + tail;
    SplitCard("1", tail);
    RemoveLabel("1");
    ParseNatToString(1);
    assert NatToString(1) == "1";
    SplitLists([], rest);
    EmptyListPanics();
  }

  // ----------------------------------------------------------------- scoring

  function AsSet(xs: seq<nat>): set<nat> {
    set x | x in xs
  }

  /** The winning numbers that were played, counted as a set intersection. */
  function MatchCount(c: Scratchcard): nat {
    |AsSet(c.winningNumbers) * AsSet(c.numbers)|
  }

  /** A repeated winning number is counted once. */
  lemma DuplicateCountsOnce(c: Scratchcard, x: nat)
    requires x in c.winningNumbers
    ensures MatchCount(c.(winningNumbers := c.winningNumbers + [x])) == MatchCount(c)
  {
    assert AsSet(c.winningNumbers + [x]) == AsSet(c.winningNumbers);
  }

  /** `(0..k).fold(acc, |accum, _| accum * 2)`. */
  function Doubled(acc: nat, k: nat): nat
    decreases k
  {
    if k == 0 then acc else Doubled(acc * 2, k - 1)
  }

  /** The score of a card with `n` matches. */
  function Score(n: nat): nat {
    if n > 0 then Doubled(1, n - 1) else 0
  }

  lemma {:induction false} DoubledPow(acc: nat, k: nat)
    ensures Doubled(acc, k) == acc * Pow2(k)
    decreases k
  {
    if k > 0 {
      DoubledPow(acc * 2, k - 1);
      assert acc * 2 * Pow2(k - 1) == acc * Pow2(k);
    }
  }

  /** No match scores 0; n matches score 2^(n-1), so each further match
      doubles the score. */
  lemma ScoreIsPow2(n: nat)
    ensures n == 0 ==> Score(n) == 0
    ensures n > 0 ==> Score(n) == Pow2(n - 1)
    ensures n > 0 ==> Score(n + 1) == 2 * Score(n)
  {
    if n > 0 {
      DoubledPow(1, n - 1);
      DoubledPow(1, n);
    }
  }

  function Scores(cards: seq<Scratchcard>): (r: seq<int>)
    ensures |r| == |cards| && forall k :: 0 <= k < |cards| ==> r[k] == Score(MatchCount(cards[k]))
  {
    seq(|cards|, k requires 0 <= k < |cards| => Score(MatchCount(cards[k])))
  }

  /** The part-one answer. */
  function TotalScore(cards: seq<Scratchcard>): (r: int)
    ensures forall k :: 0 <= k < |cards| ==> 0 <= Score(MatchCount(cards[k])) <= r
    ensures (forall k :: 0 <= k < |cards| ==> MatchCount(cards[k]) == 0) ==> r == 0
  {
    SumAtLeastTerms(Scores(cards));
    Sum(Scores(cards))
  }

  // ------------------------------------------------------------------- copies

  /** The copies of card `i` held once every earlier card has been
      processed: the original plus, for each earlier card k that reaches it,
      the copies of card k. */
  function Copies(m: seq<nat>, i: nat): nat
    requires i < |m|
    decreases i, 1
  {
    1 + Contrib(m, i, i)
  }

  /** What cards 0..j-1 add to card `c`. */
  function Contrib(m: seq<nat>, c: nat, j: nat): nat
    requires j <= |m|
    decreases j, 0
  {
    if j == 0 then 0
    else Contrib(m, c, j - 1) + (if j - 1 < c <= j - 1 + m[j - 1] then Copies(m, j - 1) else 0)
  }

  /** Only earlier cards add to a card: processing later ones leaves its count
      alone. */
  lemma {:induction false} ContribSettled(m: seq<nat>, c: nat, j: nat)
    requires c <= j <= |m|
    ensures Contrib(m, c, j) == Contrib(m, c, c)
    decreases j
  {
    if j > c {
      ContribSettled(m, c, j - 1);
    }
  }

  function SumCopies(m: seq<nat>, j: nat): nat
    requires j <= |m|
  {
    if j == 0 then 0 else SumCopies(m, j - 1) + Copies(m, j - 1)
  }

  /** Some card wins copies past the last card. */
  ghost predicate Overflows(m: seq<nat>) {
    exists i :: 0 <= i < |m| && i + m[i] >= |m|
  }

  /** Part two: every card starts with one copy; processing card `start` adds
      its copies to each of the next `m[start]` cards, panicking on an index
      past the end; the answer is the sum of the copies of each card at the
      time it is processed. */
  method TotalCards(m: seq<nat>) returns (r: Result<nat>)
    ensures r.Panic? <==> Overflows(m)
    ensures r.Panic? ==> r.reason == IndexOutOfBounds
    ensures r.Ok? ==> r.value == SumCopies(m, |m|)
  {
    var n := |m|;
    var copies := new nat[n](_ => 1);
    var total := 0;
    for start := 0 to n
      invariant forall c :: 0 <= c < n ==> copies[c] == 1 + Contrib(m, c, start)
      invariant forall k :: 0 <= k < start ==> k + m[k] < n
      invariant total == SumCopies(m, start)
    {
      ContribSettled(m, start, start);
      var here := copies[start];
      assert here == Copies(m, start);
      for offset := 0 to m[start]
        invariant copies[start] == here && start + offset < n
        invariant forall c :: 0 <= c < n ==>
          copies[c] == 1 + Contrib(m, c, start) + (if start < c <= start + offset then here else 0)
      {
        if start + offset + 1 >= n {
          assert start + m[start] >= n;
          return Panic(IndexOutOfBounds);
        }
        copies[start + offset + 1] := copies[start + offset + 1] + copies[start];
      }
      total := total + copies[start];
    }
    return Ok(total);
  }

  /** Every card is held at least once, so the total is at least the number
      of cards. */
  lemma {:induction false} SumCopiesAtLeast(m: seq<nat>, j: nat)
    requires j <= |m|
    ensures SumCopies(m, j) >= j
  {
    if j > 0 {
      SumCopiesAtLeast(m, j - 1);
    }
  }

  /** With no matches anywhere, each card is held exactly once. */
  lemma {:induction false} NoMatchesOneEach(m: seq<nat>, j: nat)
    requires j <= |m| && forall k :: 0 <= k < |m| ==> m[k] == 0
    ensures SumCopies(m, j) == j
  {
    if j > 0 {
      NoMatchesOneEach(m, j - 1);
      NoContrib(m, j - 1, j - 1);
    }
  }

  lemma {:induction false} NoContrib(m: seq<nat>, c: nat, j: nat)
    requires j <= |m| && forall k :: 0 <= k < |m| ==> m[k] == 0
    ensures Contrib(m, c, j) == 0
  {
    if j > 0 {
      NoContrib(m, c, j - 1);
    }
  }

  function MatchCounts(cards: seq<Scratchcard>): (r: seq<nat>)
    ensures |r| == |cards| && forall k :: 0 <= k < |cards| ==> r[k] == MatchCount(cards[k])
  {
    seq(|cards|, k requires 0 <= k < |cards| => MatchCount(cards[k]))
  }

  /** The part-two answer for parsed cards. */
  method TotalScratchcards(cards: seq<Scratchcard>) returns (r: Result<nat>)
    ensures r.Panic? <==> Overflows(MatchCounts(cards))
    ensures r.Ok? ==> r.value == SumCopies(MatchCounts(cards), |cards|) && r.value >= |cards|
  {
    var m := MatchCounts(cards);
    r := TotalCards(m);
    SumCopiesAtLeast(m, |m|);
  }
}
