/** Day 7 (Camel Cards): classifying a hand by its label counts, the hand
    order, ranking hands by counting how many each one beats, and the
    recursive joker search. */
module Day7 {
  import opened Wrappers

  /** Card labels from weakest to strongest. */
  const CharOrder := "23456789TJQKA"
  const InvalidHand := "Invalid hand"

  datatype HandType =
    | FiveOfAKind(hand: string)
    | FourOfAKind(hand: string)
    | FullHouse(hand: string)
    | ThreeOfAKind(hand: string)
    | TwoPair(hand: string)
    | OnePair(hand: string)
    | HighCard(hand: string)

  datatype Ordering = Less | Equal | Greater

  /** The category's place in the order, strongest highest. */
  function Strength(h: HandType): nat {
    match h
    case FiveOfAKind(_) => 7
    case FourOfAKind(_) => 6
    case FullHouse(_) => 5
    case ThreeOfAKind(_) => 4
    case TwoPair(_) => 3
    case OnePair(_) => 2
    case HighCard(_) => 1
  }

  // ---------------------------------------------------------------------
  // Classification
  // ---------------------------------------------------------------------

  /** The distinct labels of a hand (the keys of the occurrence map). */
  function Labels(s: string): set<char> {
    set c | c in s
  }

  /** How often a label occurs (the value the occurrence map holds for it). */
  function Count(s: string, c: char): nat {
    multiset(s)[c]
  }

  /** The largest count among the labels listed in `t`. */
  function MaxCount(s: string, t: string): (r: nat)
    ensures forall c :: c in t ==> Count(s, c) <= r
    ensures t != [] ==> exists c :: c in t && Count(s, c) == r
    decreases |t|
  {
    if t == [] then 0
    else
      var rest := MaxCount(s, t[1..]);
      assert forall c :: c in t[1..] ==> c in t;
      if Count(s, t[0]) >= rest then Count(s, t[0]) else rest
  }

  /** The smallest count among the labels listed in `t`. */
  function MinCount(s: string, t: string): (r: nat)
    ensures forall c :: c in t ==> r <= Count(s, c)
    ensures t != [] ==> exists c :: c in t && Count(s, c) == r
    decreases |t|
  {
    if |t| <= 1 then (if t == [] then 0 else Count(s, t[0]))
    else
      var rest := MinCount(s, t[1..]);
      assert forall c :: c in t[1..] ==> c in t;
      if Count(s, t[0]) <= rest then Count(s, t[0]) else rest
  }

  /** `HandType::parse`: the category chosen from the number of distinct
      labels and, where that is ambiguous, the largest or smallest count. */
  function ParseHand(input: string): (r: Result<HandType>)
    ensures r.Ok? ==> r.value.hand == input
    ensures r.Ok? <==> 1 <= |Labels(input)| <= 5
    ensures r.Panic? ==> r.reason == InvalidHand
  {
    var n := |Labels(input)|;
    if n == 1 then Ok(FiveOfAKind(input))
    else if n == 2 then
      if MaxCount(input, input) == 4 then Ok(FourOfAKind(input))
      else if MinCount(input, input) == 2 then Ok(FullHouse(input))
      else Ok(ThreeOfAKind(input))
    else if n == 3 then
      if MaxCount(input, input) == 3 then Ok(ThreeOfAKind(input))
      else Ok(TwoPair(input))
    else if n == 4 then Ok(OnePair(input))
    else if n == 5 then Ok(HighCard(input))
    else Panic(InvalidHand)
  }

  /** The counting loop of `HandType::parse`: an occurrence map filled one
      card at a time, then classified. */
  method Parse(input: string) returns (r: Result<HandType>)
    ensures r == ParseHand(input)
  {
    var occurrences: map<char, nat> := map[];
    for i := 0 to |input|
      invariant occurrences.Keys == Labels(input[..i])
      invariant forall c :: c in occurrences ==> occurrences[c] == Count(input[..i], c)
    {
      var c := input[i];
      var seen := if c in occurrences then occurrences[c] else 0;
      assert input[..i + 1] == input[..i] + [c];
      occurrences := occurrences[c := seen + 1];
    }
    assert input[..|input|] == input;
    var n := |occurrences.Keys|;
    if n == 1 {
      r := Ok(FiveOfAKind(input));
    } else if n == 2 {
      if MaxCount(input, input) == 4 {
        r := Ok(FourOfAKind(input));
      } else if MinCount(input, input) == 2 {
        r := Ok(FullHouse(input));
      } else {
        r := Ok(ThreeOfAKind(input));
      }
    } else if n == 3 {
      if MaxCount(input, input) == 3 {
        r := Ok(ThreeOfAKind(input));
      } else {
        r := Ok(TwoPair(input));
      }
    } else if n == 4 {
      r := Ok(OnePair(input));
    } else if n == 5 {
      r := Ok(HighCard(input));
    } else {
      r := Panic(InvalidHand);
    }
  }

  /** The empty hand has no labels and is rejected. */
  lemma EmptyHandPanics()
    ensures ParseHand([]) == Panic(InvalidHand)
  {
    assert Labels([]) == {};
  }

  /** A non-empty hand has at least one and at most as many labels as cards. */
  lemma {:induction false} LabelsBound(s: string)
    requires s != []
    ensures 1 <= |Labels(s)| <= |s|
    decreases |s|
  {
    assert s[0] in Labels(s);
    if |s| > 1 {
      LabelsBound(s[1..]);
      assert Labels(s) == {s[0]} + Labels(s[1..]) by {
        forall c | c in Labels(s) ensures c == s[0] || c in Labels(s[1..]) {
          var k :| 0 <= k < |s| && s[k] == c;
          if k > 0 {
            assert s[1..][k - 1] == c;
          }
        }
      }
    } else {
      assert Labels(s) == {s[0]};
    }
  }

  /** Every five-card hand has a category. */
  lemma FiveCardHandsParse(s: string)
    requires |s| == 5
    ensures ParseHand(s).Ok?
  {
    LabelsBound(s);
  }

  /** The labels depend only on which cards occur, not on their order. */
  lemma LabelsByMultiset(a: string, b: string)
    requires multiset(a) == multiset(b)
    ensures Labels(a) == Labels(b)
  {
    forall c ensures c in Labels(a) <==> c in Labels(b) {
      assert c in a <==> c in multiset(a);
      assert c in b <==> c in multiset(b);
    }
  }

  /** The largest count of a hand is at most that of a rearrangement,
      and the smallest at least. */
  lemma CountsBound(a: string, b: string)
    requires multiset(a) == multiset(b)
    ensures MaxCount(a, a) <= MaxCount(b, b)
    ensures MinCount(a, a) <= MinCount(b, b)
  {
    if a != [] {
      var ca :| ca in a && Count(a, ca) == MaxCount(a, a);
      assert ca in multiset(b);
      assert ca in b && Count(b, ca) == Count(a, ca);
      assert |b| == |multiset(b)| == |multiset(a)| == |a|;
      var db :| db in b && Count(b, db) == MinCount(b, b);
      assert db in multiset(a);
      assert db in a && Count(a, db) == Count(b, db);
    }
  }

  /** The largest and smallest counts depend only on which labels occur
      how often, not on the listing order. */
  lemma CountsByMultiset(a: string, b: string)
    requires multiset(a) == multiset(b)
    ensures MaxCount(a, a) == MaxCount(b, b)
    ensures MinCount(a, a) == MinCount(b, b)
  {
    CountsBound(a, b);
    CountsBound(b, a);
  }

  /** Rearranging the cards of a hand never changes its category. */
  lemma ParseHandByMultiset(a: string, b: string)
    requires multiset(a) == multiset(b)
    ensures ParseHand(a).Ok? == ParseHand(b).Ok?
    ensures ParseHand(a).Ok? ==> Strength(ParseHand(a).value) == Strength(ParseHand(b).value)
  {
    LabelsByMultiset(a, b);
    CountsByMultiset(a, b);
    var n := |Labels(a)|;
    if n == 2 {
      if MaxCount(a, a) == 4 {
      } else if MinCount(a, a) == 2 {
      }
    } else if n == 3 {
      if MaxCount(a, a) == 3 {
      }
    }
  }

  // ---------------------------------------------------------------------
  // Card order
  // ---------------------------------------------------------------------

  /** `CHAR_ORDER.chars().position(|c| c == label)`. */
  function Position(s: string, c: char): (r: Option<nat>)
    ensures r.Some? <==> c in s
    ensures r.Some? ==> r.value < |s| && s[r.value] == c
    ensures r.Some? ==> forall k :: 0 <= k < r.value ==> s[k] != c
  {
    if s == [] then None
    else if s[0] == c then Some(0)
    else
      match Position(s[1..], c)
      case None => None
      case Some(i) => Some(i + 1)
  }

  predicate ValidCard(c: char) {
    c in CharOrder
  }

  predicate ValidCards(s: string) {
    forall k :: 0 <= k < |s| ==> ValidCard(s[k])
  }

  /** The strength of a valid card label. */
  function CardValue(c: char): (v: nat)
    requires ValidCard(c)
    ensures v < |CharOrder| && CharOrder[v] == c
  {
    Position(CharOrder, c).value
  }

  /** Distinct labels have distinct strengths. */
  lemma CardValueInjective(c: char, d: char)
    requires ValidCard(c) && ValidCard(d)
    ensures CardValue(c) == CardValue(d) <==> c == d
  {
  }

  function CmpNat(x: nat, y: nat): (o: Ordering)
    ensures o == Equal <==> x == y
    ensures o == Greater <==> x > y
  {
    if x < y then Less else if x == y then Equal else Greater
  }

  /** One zipped pair of `compare_cards`: both labels are looked up and
      unwrapped, the first one first. */
  function CardOrder(c1: char, c2: char): (r: Result<Ordering>)
    ensures r.Ok? <==> ValidCard(c1) && ValidCard(c2)
    ensures r.Ok? ==> r.value == CmpNat(CardValue(c1), CardValue(c2))
    ensures r.Panic? ==> r.reason == UnwrapNone
  {
    var i1 :- Unwrap(Position(CharOrder, c1), UnwrapNone);
    var i2 :- Unwrap(Position(CharOrder, c2), UnwrapNone);
    Ok(CmpNat(i1, i2))
  }

  function Min(x: nat, y: nat): nat {
    if x <= y then x else y
  }

  /** The compared pairs: `zip` stops at the shorter hand. */
  function PairOrders(h1: string, h2: string): (rs: seq<Result<Ordering>>)
    ensures |rs| == Min(|h1|, |h2|)
    ensures forall k :: 0 <= k < |rs| ==> rs[k] == CardOrder(h1[k], h2[k])
  {
    seq(Min(|h1|, |h2|), k requires 0 <= k < Min(|h1|, |h2|) => CardOrder(h1[k], h2[k]))
  }

  /** `filter(|order| *order != Ordering::Equal)`. */
  function NonEqual(os: seq<Ordering>): (r: seq<Ordering>)
    ensures Equal !in r
  {
    if os == [] then []
    else if os[0] == Equal then NonEqual(os[1..])
    else [os[0]] + NonEqual(os[1..])
  }

  /** `compare_cards`: the first differing pair decides; with no difference
      the answer is Greater. A label outside `CHAR_ORDER` in the compared
      prefix panics. */
  function CompareCards(h1: string, h2: string): (r: Result<Ordering>)
    ensures r.Ok? <==> forall k :: 0 <= k < Min(|h1|, |h2|) ==> ValidCard(h1[k]) && ValidCard(h2[k])
    ensures r.Panic? ==> r.reason == UnwrapNone
    ensures r.Ok? ==> r.value != Equal
  {
    var rs := PairOrders(h1, h2);
    if Collect(rs).Panic? then
      CollectPanicReason(rs);
      Panic(Collect(rs).reason)
    else
    var os := Collect(rs).value;
    var out := NonEqual(os);
    if |out| == 0 then Ok(Greater) else Ok(out[0])
  }

  /** The reference order: lexicographic comparison of card strengths over
      the common length, Greater when that prefix agrees. */
  function Lex(a: seq<nat>, b: seq<nat>): Ordering {
    if a == [] || b == [] then Greater
    else if a[0] != b[0] then CmpNat(a[0], b[0])
    else Lex(a[1..], b[1..])
  }

  function Values(h: string): (vs: seq<nat>)
    requires ValidCards(h)
    ensures |vs| == |h|
    ensures forall k :: 0 <= k < |h| ==> vs[k] == CardValue(h[k])
  {
    seq(|h|, k requires 0 <= k < |h| => CardValue(h[k]))
  }

  function PairwiseCmp(a: seq<nat>, b: seq<nat>): (os: seq<Ordering>)
    ensures |os| == Min(|a|, |b|)
    ensures forall k :: 0 <= k < |os| ==> os[k] == CmpNat(a[k], b[k])
  {
    seq(Min(|a|, |b|), k requires 0 <= k < Min(|a|, |b|) => CmpNat(a[k], b[k]))
  }

  lemma {:induction false} NonEqualIsLex(a: seq<nat>, b: seq<nat>)
    ensures NonEqual(PairwiseCmp(a, b)) == [] ==> Lex(a, b) == Greater
    ensures NonEqual(PairwiseCmp(a, b)) != [] ==> Lex(a, b) == NonEqual(PairwiseCmp(a, b))[0]
    decreases |a|
  {
    var os := PairwiseCmp(a, b);
    if a != [] && b != [] {
      NonEqualIsLex(a[1..], b[1..]);
      assert os[1..] == PairwiseCmp(a[1..], b[1..]);
    }
  }

  /** `compare_cards` on valid labels is the lexicographic reference order. */
  lemma CompareCardsIsLex(h1: string, h2: string)
    requires ValidCards(h1) && ValidCards(h2)
    ensures CompareCards(h1, h2) == Ok(Lex(Values(h1), Values(h2)))
  {
    var m := Min(|h1|, |h2|);
    var rs := PairOrders(h1, h2);
    var os := PairwiseCmp(Values(h1), Values(h2));
    CollectAllOk(rs, os);
    NonEqualIsLex(Values(h1), Values(h2));
  }

  lemma {:induction false} LexFirstDifference(a: seq<nat>, b: seq<nat>, k: nat)
    requires k < |a| && k < |b| && a[..k] == b[..k] && a[k] != b[k]
    ensures Lex(a, b) == CmpNat(a[k], b[k])
    decreases k
  {
    if k > 0 {
      assert a[0] == a[..k][0] == b[..k][0] == b[0];
      assert a[1..][..k - 1] == a[1..k] == b[1..k] == b[1..][..k - 1];
      LexFirstDifference(a[1..], b[1..], k - 1);
    }
  }

  lemma {:induction false} LexSame(a: seq<nat>, b: seq<nat>)
    requires a[..Min(|a|, |b|)] == b[..Min(|a|, |b|)]
    ensures Lex(a, b) == Greater
    decreases |a|
  {
    if a != [] && b != [] {
      assert a[0] == a[..Min(|a|, |b|)][0];
      assert a[1..][..Min(|a| - 1, |b| - 1)] == a[1..Min(|a|, |b|)];
      assert b[1..][..Min(|a| - 1, |b| - 1)] == b[1..Min(|a|, |b|)];
      LexSame(a[1..], b[1..]);
    }
  }

  /** The first position whose labels differ decides `compare_cards`. */
  lemma CompareCardsFirstDifference(h1: string, h2: string, k: nat)
    requires ValidCards(h1) && ValidCards(h2)
    requires k < |h1| && k < |h2| && h1[..k] == h2[..k] && h1[k] != h2[k]
    ensures CompareCards(h1, h2) == Ok(CmpNat(CardValue(h1[k]), CardValue(h2[k])))
  {
    CompareCardsIsLex(h1, h2);
    assert Values(h1)[..k] == Values(h2)[..k] by {
      forall j | 0 <= j < k ensures Values(h1)[j] == Values(h2)[j] {
        assert h1[j] == h1[..k][j] == h2[..k][j] == h2[j];
      }
    }
    CardValueInjective(h1[k], h2[k]);
    LexFirstDifference(Values(h1), Values(h2), k);
  }

  /** With no differing position over the common length the result is
      Greater; in particular every valid hand compares Greater to itself. */
  lemma CompareCardsNoDifference(h1: string, h2: string)
    requires ValidCards(h1) && ValidCards(h2)
    requires h1[..Min(|h1|, |h2|)] == h2[..Min(|h1|, |h2|)]
    ensures CompareCards(h1, h2) == Ok(Greater)
  {
    var m := Min(|h1|, |h2|);
    CompareCardsIsLex(h1, h2);
    assert Values(h1)[..m] == Values(h2)[..m] by {
      forall j | 0 <= j < m ensures Values(h1)[j] == Values(h2)[j] {
        assert h1[j] == h1[..m][j] == h2[..m][j] == h2[j];
      }
    }
    LexSame(Values(h1), Values(h2));
  }

  lemma CompareCardsSelf(h: string)
    requires ValidCards(h)
    ensures CompareCards(h, h) == Ok(Greater)
  {
    CompareCardsNoDifference(h, h);
  }

  /** On sequences of one length the reference order's Greater is
      transitive (it is lexicographic "at least"). */
  lemma {:induction false} LexGreaterTransitive(a: seq<nat>, b: seq<nat>, c: seq<nat>)
    requires |a| == |b| == |c|
    requires Lex(a, b) == Greater && Lex(b, c) == Greater
    ensures Lex(a, c) == Greater
    decreases |a|
  {
    if a != [] {
      if a[0] == b[0] && b[0] == c[0] {
        LexGreaterTransitive(a[1..], b[1..], c[1..]);
      }
    }
  }

  lemma CompareCardsTransitive(h1: string, h2: string, h3: string)
    requires |h1| == |h2| == |h3|
    requires CompareCards(h1, h2) == Ok(Greater) && CompareCards(h2, h3) == Ok(Greater)
    ensures CompareCards(h1, h3) == Ok(Greater)
  {
    assert h1[..|h1|] == h1 && h2[..|h2|] == h2 && h3[..|h3|] == h3;
    CompareCardsIsLex(h1, h2);
    CompareCardsIsLex(h2, h3);
    CompareCardsIsLex(h1, h3);
    LexGreaterTransitive(Values(h1), Values(h2), Values(h3));
  }

  // ---------------------------------------------------------------------
  // Hand order
  // ---------------------------------------------------------------------

  /** `Ord for HandType`: a stronger category wins outright; two hands of
      one category defer to `compare_cards`. */
  function Cmp(a: HandType, b: HandType): (r: Result<Ordering>)
    ensures Strength(a) > Strength(b) ==> r == Ok(Greater)
    ensures Strength(a) < Strength(b) ==> r == Ok(Less)
    ensures Strength(a) == Strength(b) ==> r == CompareCards(a.hand, b.hand)
  {
    match (a, b)
    case (FiveOfAKind(x), FiveOfAKind(y)) => CompareCards(x, y)
    case (FiveOfAKind(_), _) => Ok(Greater)
    case (_, FiveOfAKind(_)) => Ok(Less)
    case (FourOfAKind(x), FourOfAKind(y)) => CompareCards(x, y)
    case (FourOfAKind(_), _) => Ok(Greater)
    case (_, FourOfAKind(_)) => Ok(Less)
    case (FullHouse(x), FullHouse(y)) => CompareCards(x, y)
    case (FullHouse(_), _) => Ok(Greater)
    case (_, FullHouse(_)) => Ok(Less)
    case (ThreeOfAKind(x), ThreeOfAKind(y)) => CompareCards(x, y)
    case (ThreeOfAKind(_), _) => Ok(Greater)
    case (_, ThreeOfAKind(_)) => Ok(Less)
    case (TwoPair(x), TwoPair(y)) => CompareCards(x, y)
    case (TwoPair(_), _) => Ok(Greater)
    case (_, TwoPair(_)) => Ok(Less)
    case (OnePair(x), OnePair(y)) => CompareCards(x, y)
    case (OnePair(_), _) => Ok(Greater)
    case (_, OnePair(_)) => Ok(Less)
    case (HighCard(x), HighCard(y)) => CompareCards(x, y)
  }

  /** Any hand of valid labels is "greater" than itself. */
  lemma CmpSelf(h: HandType)
    requires ValidCards(h.hand)
    ensures Cmp(h, h) == Ok(Greater)
  {
    CompareCardsSelf(h.hand);
  }

  /** `a > b` on hands of one length is transitive. */
  lemma CmpGreaterTransitive(a: HandType, b: HandType, c: HandType)
    requires |a.hand| == |b.hand| == |c.hand|
    requires Cmp(a, b) == Ok(Greater) && Cmp(b, c) == Ok(Greater)
    ensures Cmp(a, c) == Ok(Greater)
  {
    if Strength(a) == Strength(b) == Strength(c) {
      CompareCardsTransitive(a.hand, b.hand, c.hand);
    }
  }

  // ---------------------------------------------------------------------
  // Ranking
  // ---------------------------------------------------------------------

  /** How many of `hands[..m]`, other than hand `i` itself, hand `i` beats. */
  function Beaten(hands: seq<HandType>, i: nat, m: nat): (r: nat)
    requires i < |hands| && m <= |hands|
    ensures r <= (if i < m then m - 1 else m)
  {
    if m == 0 then 0
    else Beaten(hands, i, m - 1) + (if m - 1 != i && Cmp(hands[i], hands[m - 1]) == Ok(Greater) then 1 else 0)
  }

  /** Every ordered pair of distinct positions can be compared. */
  ghost predicate Comparable(hands: seq<HandType>) {
    forall i, j :: 0 <= i < |hands| && 0 <= j < |hands| && i != j ==> Cmp(hands[i], hands[j]).Ok?
  }

  /** `rank`: each hand starts at 1 and gains one for every other hand it
      beats; a comparison that panics ends the ranking. */
  method Rank(hands: seq<HandType>) returns (r: Result<seq<nat>>)
    ensures r.Ok? <==> Comparable(hands)
    ensures r.Panic? ==> r.reason == UnwrapNone
    ensures r.Ok? ==> |r.value| == |hands|
    ensures r.Ok? ==> forall i :: 0 <= i < |hands| ==> r.value[i] == 1 + Beaten(hands, i, |hands|)
    ensures r.Ok? ==> forall i :: 0 <= i < |hands| ==> 1 <= r.value[i] <= |hands|
  {
    var n := |hands|;
    var ranks := new nat[n](_ => 1);
    for i := 0 to n
      invariant forall p :: 0 <= p < i ==> ranks[p] == 1 + Beaten(hands, p, n)
      invariant forall p :: i <= p < n ==> ranks[p] == 1
      invariant forall p, q :: 0 <= p < i && 0 <= q < n && p != q ==> Cmp(hands[p], hands[q]).Ok?
    {
      var done := Tally(hands, ranks, i);
      if done.Panic? {
        return Panic(done.reason);
      }
    }
    r := Ok(ranks[..]);
  }

  /** The inner loop of `rank` for hand `i`: one more for every other hand
      it beats, or the panic of the first comparison that fails. */
  method Tally(hands: seq<HandType>, ranks: array<nat>, i: nat) returns (r: Result<()>)
    requires i < |hands| == ranks.Length && ranks[i] == 1
    modifies ranks
    ensures r.Ok? <==> forall q :: 0 <= q < |hands| && q != i ==> Cmp(hands[i], hands[q]).Ok?
    ensures r.Panic? ==> r.reason == UnwrapNone
    ensures r.Ok? ==> ranks[i] == 1 + Beaten(hands, i, |hands|)
    ensures forall p :: 0 <= p < ranks.Length && p != i ==> ranks[p] == old(ranks[p])
  {
    var n := |hands|;
    for j := 0 to n
      invariant ranks[i] == 1 + Beaten(hands, i, j)
      invariant forall p :: 0 <= p < n && p != i ==> ranks[p] == old(ranks[p])
      invariant forall q :: 0 <= q < j && q != i ==> Cmp(hands[i], hands[q]).Ok?
    {
      if i != j {
        var order := Cmp(hands[i], hands[j]);
        if order.Panic? {
          return Panic(order.reason);
        }
        if order.value == Greater {
          ranks[i] := ranks[i] + 1;
        }
      }
    }
    r := Ok(());
  }

  // ---------------------------------------------------------------------
  // Joker search
  // ---------------------------------------------------------------------

  predicate NoJokerFrom(hand: string, start: nat) {
    forall k :: start <= k < |hand| ==> hand[k] != 'J'
  }

  /** `hand.chars().skip(start).position(|c| c == 'J')`. */
  function JokerFrom(hand: string, start: nat): (r: Option<nat>)
    ensures r.None? <==> NoJokerFrom(hand, start)
    ensures r.Some? ==> start + r.value < |hand| && hand[start + r.value] == 'J'
    decreases |hand| - start
  {
    if start >= |hand| then None
    else if hand[start] == 'J' then Some(0)
    else
      match JokerFrom(hand, start + 1)
      case None => None
      case Some(i) => Some(i + 1)
  }

  /** `HandType::parse(x) > HandType::parse(y)`, both parses succeeding. */
  predicate Beats(x: string, y: string) {
    ParseHand(x).Ok? && ParseHand(y).Ok? && Cmp(ParseHand(x).value, ParseHand(y).value) == Ok(Greater)
  }

  lemma BeatsTransitive(x: string, y: string, z: string)
    requires |x| == |y| == |z|
    requires Beats(x, y) && Beats(y, z)
    ensures Beats(x, z)
  {
    CmpGreaterTransitive(ParseHand(x).value, ParseHand(y).value, ParseHand(z).value);
  }

  /** `optimise_next_joker`: tries every label in place of the next joker,
      optimises the rest recursively and keeps a candidate only when it
      parses strictly greater than the best so far. */
  method OptimiseNextJoker(hand: string, start: nat) returns (r: Result<string>)
    ensures NoJokerFrom(hand, start) ==> r == Ok(hand)
    ensures r.Ok? ==> |r.value| == |hand|
    ensures r.Ok? ==> r.value == hand || Beats(r.value, hand)
    ensures r.Panic? ==> r.reason == InvalidHand || r.reason == UnwrapNone
    decreases if start <= |hand| then |hand| - start else 0
  {
    var best := hand;
    var joker := JokerFrom(hand, start);
    if joker.Some? {
      var p := start + joker.value;
      for k := 0 to |CharOrder|
        invariant |best| == |hand|
        invariant best == hand || Beats(best, hand)
      {
        var candidate := hand[..p] + [CharOrder[k]] + hand[p + 1..];
        var optimised := OptimiseNextJoker(candidate, p + 1);
        if optimised.Panic? {
          return optimised;
        }
        candidate := optimised.value;
        var ofCandidate := Parse(candidate);
        if ofCandidate.Panic? {
          return Panic(ofCandidate.reason);
        }
        var ofBest := Parse(best);
        if ofBest.Panic? {
          return Panic(ofBest.reason);
        }
        var order := Cmp(ofCandidate.value, ofBest.value);
        if order.Panic? {
          return Panic(order.reason);
        }
        if order.value == Greater {
          if best != hand {
            BeatsTransitive(candidate, best, hand);
          }
          best := candidate;
        }
      }
    }
    return Ok(best);
  }
}
