# Advent of Code 2023 in Dafny

This project models a collection of Rust solutions to the Advent of Code 2023
puzzles (days 1 to 23, without day 6) and proves properties of the model. Each
`src/days/dayN.rs` becomes one module `DayN` in `dayN.dfy`. Four shared
modules stand in for the helpers the days rely on:

- `Wrappers` (`wrappers.dfy`): `Option`, and `Result`, whose `Panic` case
  carries the reason a Rust `unwrap`, `expect`, index or arithmetic check
  would panic with. Every operation that can panic in the source returns a
  `Result`. Its contract names the reasons it can panic with and ties each
  to the input or to the step of the run that causes it. A loop bounded by
  `fuel` (see "## Left out") also says what running out of fuel means.
- `Strings` (`strings.dfy`): the `str` methods the days use (`split`,
  `split_once`, `trim`, `split_whitespace`, `lines`, `replace`, `parse`),
  each with its inverse or a characterising lemma.
- `Numbers` (`numbers.dfy`): sums, powers, `gcd` and `lcm`.
- `Grids` (`grids.dfy`): character grids, cell lookup, the four-neighbour
  lookup and the transpose of the external `aoctk` toolkit.

Pure computations (parsers, scores, orderings) are functions with lemmas.
Loops that update state (the counting loops, the sorts, the breadth-first,
depth-first and Dijkstra searches, the pulse queue of day 20, the brick fall
of day 22) are methods with loop invariants, each proved against an
independent function or predicate that specifies its result. The pulse
network of day 20 is a class whose methods update its map of modules.

The puzzle input, which the source reads with `include_str!` or from a file,
is a parameter (a list of lines or a grid). Integers are unbounded. Loops
that need not terminate on every input take a `fuel` bound.

Where the source disagrees with what it evidently means to compute, the model
keeps both versions: the version as written, with a lemma that exhibits the
difference on a concrete input, and the corrected version, which the rest of
the model uses (see "## Findings").

## Model

| member | source | states |
|---|---|---|
| Day1.Digits | src/days/day1.rs:16-19 | the digits of a line are the values of its decimal digit characters: each below ten, no more of them than characters |
| Day1.DigitsAppend | src/days/day1.rs:16-19 | reading the digits of two joined texts gives the digits of the first followed by those of the second |
| Day1.NoDigits | src/days/day1.rs:16-22 | a line yields no digits exactly when none of its characters is a decimal digit |
| Day1.FirstDigit | src/days/day1.rs:16-22 | the first digit read is the value of the first digit character |
| Day1.LastDigit | src/days/day1.rs:16-23 | the last digit read is the value of the last digit character |
| Day1.CalibrationValue | src/days/day1.rs:15-28 | a line's value panics exactly when the line has no digit character, and is otherwise at most 99 |
| Day1.CalibrationValueSpec | src/days/day1.rs:15-28 | the value is ten times the first digit character plus the last one |
| Day1.SingleDigit | src/days/day1.rs:22-26 | a line with one digit d is worth 11 * d (that digit is both first and last) |
| Day1.Part1 | src/days/day1.rs:13-29 | the sum succeeds exactly when every line has a digit, and is at most 99 per line |
| Day1.FindInstancesOf | src/days/day1.rs:57 | the external `find_instances_of`, as assumed: every start position of the pattern, increasing, and no other position |
| Day1.CollectDigits | src/days/day1.rs:52-71 | the two collection loops record a (digit, position) pair for every digit spelled as a word or a numeral, and only such pairs |
| Day1.CollectFrom | src/days/day1.rs:56-62 | one loop over nine patterns keeps the pairs already collected and appends exactly the occurrences of each pattern with its digit |
| Day1.CollectOne | src/days/day1.rs:57-61 | one pass appends the occurrences of one pattern with its digit and keeps everything before |
| Day1.Extend | src/days/day1.rs:59-60 | extending both lists appends the found positions and as many copies of the digit, keeping the lists in step |
| Day1.Insert | src/days/day1.rs:74-75 | inserting a pair into the list adds exactly that pair |
| Day1.InsertKeepsSorted | src/days/day1.rs:74-75 | inserting into a list ordered by position keeps it ordered |
| Day1.SortByPosition | src/days/day1.rs:74-75 | the sort by position is a permutation of the pairs |
| Day1.SortByPositionSorted | src/days/day1.rs:74-75 | the sorted pairs are ordered by position |
| Day1.Zip | src/days/day1.rs:74-75 | the pairs line up the positions with the digits, index by index |
| Day1.LineValue2Spelled | src/days/day1.rs:79-83 | the reference line value is ten times the first spelled digit plus the last one |
| Day1.LineValue2Nothing | src/days/day1.rs:79 | a line that spells no digit has no reference value |
| Day1.FirstFromFinds | src/days/day1.rs:79 | scanning forward stops at the first position where a digit is spelled |
| Day1.LastBelowFinds | src/days/day1.rs:80 | scanning backward stops at the last position where a digit is spelled |
| Day1.CalibrationValue2 | src/days/day1.rs:51-85 | a line's part-two value panics exactly when no digit is spelled, and is otherwise ten times the first spelled digit plus the last (between 11 and 99), equal to the reference value |
| Day1.EndsValueSpelled | src/days/day1.rs:79-83 | the ends of pairs holding the first and last spelled digit give that value, and panic exactly when nothing is spelled |
| Day1.EndsValueReference | src/days/day1.rs:79-83 | the ends of those pairs give the reference value |
| Day1.NothingCollected | src/days/day1.rs:73-79 | no collected pair means no digit is spelled in the line |
| Day1.SortedEnds | src/days/day1.rs:73-80 | after sorting, the first pair is the first spelled digit and the last pair the last one |
| Day1.Part2 | src/days/day1.rs:49-86 | the part-two sum panics exactly when some line spells no digit, lies between 11 and 99 per line, and equals the reference sum |
| Day1.Sum2Step | src/days/day1.rs:49-86 | the reference sum over one more line adds that line's value, and has none once a line has none |
| Day1.Sum2 | src/days/day1.rs:49-86 | the reference sum exists exactly when every line spells a digit |
| Day1.AddLine | src/days/day1.rs:49-86 | one turn of the sum adds the line's reference value, or panics exactly when that line spells no digit |
| Day1.SpellsDetermined | src/days/day1.rs:40-43 | the digit spelled at a position can be read off the line itself |
| Day1.SpellsUnique | src/days/day1.rs:40-43 | at most one digit is spelled at any position, so the first and last spelled digits are determined |
| Day1.WordKey | src/days/day1.rs:40-42 | every word is at least three letters, starts with a non-digit, and its first two letters name its digit |
| Day1.NumeralKey | src/days/day1.rs:43 | every numeral is one digit character whose value is its digit |
| Day2.Counts.Set | src/days/day2.rs:50-55 | overwriting one colour's counter sets that counter and leaves the other two alone |
| Day2.ParseColour | src/days/day2.rs:50-55 | a colour parses exactly when it is `red`, `green` or `blue`, names itself, and otherwise panics with "Unknown cube colour!" |
| Day2.ParseFormatDraw | src/days/day2.rs:44-46 | a draw written as `<count> <colour>` parses back to itself |
| Day2.UndrawnColourKept | src/days/day2.rs:43-56 | a colour a turn does not draw keeps its counter, since each draw changes only its own colour |
| Day2.ImpossibleStaysImpossible | src/days/day2.rs:38-67 | once a game is shown impossible, any later turns leave it impossible (`all` stops at the first failing turn) |
| Day2.PossibleGameId | src/days/day2.rs:25-74 | the per-line closure of part one with its mutable counters gives the functional game value: the id when every turn ends within 12 red, 13 green, 14 blue, 0 otherwise, and the same panics |
| Day2.DrawResults | src/days/day2.rs:105-108 | one parse result per draw, in order |
| Day2.TurnResults | src/days/day2.rs:102-103 | one parse result per turn, in order |
| Day2.MaxCount | src/days/day2.rs:115-132 | the maximum count drawn of a colour bounds every draw of that colour and is one of them, or 0 when the colour is never drawn |
| Day2.UndrawnColourGivesZero | src/days/day2.rs:136 | a colour never drawn makes the power 0 |
| Day2.RaiseAllAppend | src/days/day2.rs:102-134 | running the maxima over two runs of draws is running them over the first, then the second |
| Day2.RaiseAllMax | src/days/day2.rs:95-134 | the running maxima started at zero are the maximum counts drawn of each colour |
| Day2.TurnMaxima | src/days/day2.rs:105-133 | the inner loop raises the running maxima over a turn's draws, or panics as the first bad draw does |
| Day2.PowerOfMaxima | src/days/day2.rs:136 | the power is the product of the three running maxima |
| Day2.TurnsMaxima | src/days/day2.rs:102-134 | the outer loop gives the running maxima over all draws of all turns, or the first panic |
| Day2.GamePower | src/days/day2.rs:90-137 | the per-line closure of part two gives the functional game power, the product of the maximum count drawn of each colour |
| Day3.RunEnd | src/days/day3.rs:6-13 | a run of digits ends at the first non-digit (or the end of the row), every character before it is a digit, and a run starting on a digit is non-empty |
| Day3.RunDigits | src/days/day3.rs:13-14 | the text of a match is all digits |
| Day3.RunsFrom | src/days/day3.rs:6-15 | `find_iter` of `[0-9]+` yields matches in increasing column order, each a whole number of the row (a digit not preceded by a digit, all its digits) |
| Day3.RunsFromComplete | src/days/day3.rs:6-15 | conversely every number of the row is matched |
| Day3.RowEntries | src/days/day3.rs:12-15 | a row contributes ((row, start), value) for each of its numbers, in increasing start order |
| Day3.GridEntries | src/days/day3.rs:9-17 | the flattened entries name numbers of the grid with their decimal values, and no key occurs twice |
| Day3.ToMap | src/days/day3.rs:18 | collecting into a map keeps exactly the keys of the entries |
| Day3.ToMapDistinct | src/days/day3.rs:18 | with distinct keys every entry's value is in the map |
| Day3.NumbersInGridSpec | src/days/day3.rs:5-19 | `find_numbers_in_grid` holds exactly one entry per number of the schematic, keyed by its row and start column, mapped to its decimal value |
| Day3.EntryOfRun | src/days/day3.rs:9-17 | every number of the grid has an entry |
| Day3.CheckedIlog10 | src/days/day3.rs:35 | `checked_ilog10` is None exactly for 0 |
| Day3.NumLen | src/days/day3.rs:35 | the length taken from a value is at least 1 |
| Day3.NumLenDigits | src/days/day3.rs:35 | that length is the number of decimal digits the value is printed with |
| Day3.NumLenOfDigits | src/days/day3.rs:35 | for a run without a leading zero, the length recovered from its value is the run's length |
| Day3.MaskedCells | src/days/day3.rs:37-48 | the four neighbours handed over for one digit are north and south, and east and west unless they are the number's own digits |
| Day3.PartNumberIffTouches | src/days/day3.rs:37-51 | a number is a part number exactly when some cell next to it, and not part of it, is in the grid and is not '.' |
| Day3.PartNumberTouches | src/days/day3.rs:37-51 | the masking test finds only symbols next to the number |
| Day3.TouchesPartNumber | src/days/day3.rs:37-51 | any symbol next to the number makes the masking test succeed |
| Day3.PartSumBounds | src/days/day3.rs:33-58 | the part-number sum lies between 0 and the sum of all numbers |
| Day3.PartSumAsWrittenBounds | src/days/day3.rs:33-58 | so does the sum with lengths taken from values |
| Day3.PartNumberSum | src/days/day3.rs:29-58 | the answer lies between 0 and the sum of all the numbers of the schematic |
| Day3.PartNumberSumAsWritten | src/days/day3.rs:29-58 | so does the answer as written |
| Day3.SumsAgree | src/days/day3.rs:33-58 | without leading zeros, the sum with lengths taken from values equals the sum with lengths taken from the schematic |
| Day3.RunLengthOfValue | src/days/day3.rs:35 | without leading zeros, a number's value has as many digits as its run |
| Day3.NoLeadingZerosAgree | src/days/day3.rs:29-58 | without leading zeros, the answer as written is the intended answer |
| Day3.LeadingZeroCounted | src/days/day3.rs:35-51 | the row "07" holds 7 with no symbol anywhere: the written rule counts it (sum 7), the corrected rule does not (sum 0) |
| Day4.FirstCardLabel | src/days/day4.rs:14-21 | the leftmost match of `Card[ ]+`: none before it, or none at all |
| Day4.NumberResults | src/days/day4.rs:32-36 | each piece of a number list is trimmed and parsed with `unwrap`, in order |
| Day4.NumeralParses | src/days/day4.rs:32 | a number's digits, trimmed and parsed, give the number back |
| Day4.JoinedTrimmed | src/days/day4.rs:25-31 | numbers written with single spaces are their own trim |
| Day4.ParseNumbersJoin | src/days/day4.rs:25-37 | a non-empty list written with single spaces parses back to itself |
| Day4.RemoveLabel | src/days/day4.rs:20-23 | removing `Card` and its spaces leaves the id's digits |
| Day4.SplitCard | src/days/day4.rs:19 | splitting a card line at ": " gives the head and the lists |
| Day4.SplitLists | src/days/day4.rs:24 | splitting the lists at " \| " gives the winning and the played numbers |
| Day4.JoinedAvoids | src/days/day4.rs:19-24 | a list written with single spaces holds no ':' or '\|', so it does not disturb those splits |
| Day4.ParseFormatCard | src/days/day4.rs:12-45 | every card with non-empty lists, written in the puzzle's format, parses back to itself |
| Day4.EmptyListPanics | src/days/day4.rs:32 | an empty list panics, since its one empty piece is not a number |
| Day4.EmptyWinningListPanics | src/days/day4.rs:25-33 | so a card with no winning numbers panics |
| Day4.DuplicateCountsOnce | src/days/day4.rs:59-62 | a repeated winning number is counted once (the sets intersect) |
| Day4.DoubledPow | src/days/day4.rs:64 | folding `accum * 2` k times multiplies by 2^k |
| Day4.ScoreIsPow2 | src/days/day4.rs:63-67 | no match scores 0, n matches score 2^(n-1), and each further match doubles the score |
| Day4.Scores | src/days/day4.rs:56-69 | one score per card, in order, each the score of its match count |
| Day4.TotalScore | src/days/day4.rs:56-71 | the total is at least each card's score, and 0 when no card has a match |
| Day4.ContribSettled | src/days/day4.rs:88-91 | only earlier cards add copies to a card, so its count is settled when it is processed |
| Day4.TotalCards | src/days/day4.rs:77-95 | the copy loop panics, with an index out of bounds, exactly when some card wins copies past the last card, and otherwise sums each card's copies as processed |
| Day4.SumCopiesAtLeast | src/days/day4.rs:77-95 | every card is held at least once, so the total is at least the number of cards |
| Day4.NoMatchesOneEach | src/days/day4.rs:77-95 | with no matches anywhere, each card is held exactly once |
| Day4.NoContrib | src/days/day4.rs:88-90 | with no matches, no card adds copies to another |
| Day4.MatchCounts | src/days/day4.rs:83-86 | one match count per card, in order |
| Day4.TotalScratchcards | src/days/day4.rs:75-95 | part two on parsed cards: panics exactly on an overflowing copy, otherwise the copy total, at least the number of cards |
| Day5.ParseNatsJoin | src/days/day5.rs:24-27 | numbers written with single spaces parse back to themselves |
| Day5.ParseFormatRange | src/days/day5.rs:22-33 | a range line `dest src len` parses to source start `src`, destination start `dest`, length `len` |
| Day5.RangeResults | src/days/day5.rs:89-93 | one parsed range per line of a chunk, in order |
| Day5.MapResults | src/days/day5.rs:84-99 | one parsed map per chunk after the first, in order |
| Day5.ParseInput | src/days/day5.rs:69-100 | no chunk or an empty first chunk panics on `unwrap`; otherwise one map per later chunk, in order, and with the seeds parsed the input fails exactly when some map chunk does |
| Day5.ReplaceTitle | src/days/day5.rs:88 | removing " map:" from a title gives the map's name back |
| Day5.ReplaceSeedsPrefix | src/days/day5.rs:79 | removing "seeds: " leaves the seed list |
| Day5.ParseSeeds | src/days/day5.rs:72-83 | the seeds line gives the seeds back |
| Day5.ParseFormatMap | src/days/day5.rs:87-98 | a map chunk written as the almanac writes it parses back to its name and ranges |
| Day5.FormatLines | src/days/day5.rs:89-93 | one written line per range |
| Day5.Ranges | src/days/day5.rs:28-32 | each written line becomes the range with source and destination in the source's order |
| Day5.Map | src/days/day5.rs:43-66 | `map` always returns Some |
| Day5.MapFixed | src/days/day5.rs:43-66 | the corrected map always returns Some |
| Day5.FirstHitWins | src/days/day5.rs:44-59 | when several ranges pass the test the first in list order decides the value |
| Day5.FirstHitNone | src/days/day5.rs:56-59 | when no range passes the test there is no hit |
| Day5.MapFirstWins | src/days/day5.rs:43-62 | `map` as written sends a source to `dest_start + diff` of the first range whose test passes |
| Day5.MapIdentity | src/days/day5.rs:61-65 | `map` sends a source no range passes to itself |
| Day5.FirstHitInDestination | src/days/day5.rs:47-55 | a hit of the corrected test lands in the destination interval of a range covering the source |
| Day5.MapFixedInDestination | src/days/day5.rs:43-66 | the corrected map leaves a number alone or sends it into the destination interval of a range that covers it |
| Day5.OnePastTheEnd | src/days/day5.rs:49 | the range "50 98 2" sends 100, one past its end, to 52 as written, outside its destination 50..51; the corrected map keeps 100 |
| Day5.ByName | src/days/day5.rs:113-116 | keying the maps panics, on `unwrap`, exactly when some map has no name |
| Day5.ByNameKeys | src/days/day5.rs:113-116 | the keys are exactly the names of the maps |
| Day5.ByNameLast | src/days/day5.rs:113-116 | each key holds the last map with that name, as `collect` into a map keeps the last insert |
| Day5.Location | src/days/day5.rs:120-122 | the corrected fold panics exactly when some name in the order is not a key |
| Day5.LocationAppend | src/days/day5.rs:120-122 | the fold composes: the maps of `a + b` are those of `a`, then those of `b` |
| Day5.EmptyMapsKeepSeed | src/days/day5.rs:61-65 | maps without ranges leave the seed as its own location |
| Day5.LocationResults | src/days/day5.rs:117-124 | one location per seed, in order, each the corrected fold over the seven maps in `MAP_ORDER` |
| Day5.LocationAsWritten | src/days/day5.rs:120-122 | the fold as written, through `map` with its range test, panics exactly when some name in the order is not a key |
| Day5.FirstHitAgrees | src/days/day5.rs:47-55 | away from the ends of the ranges, the written and the intended range tests pick the same range |
| Day5.MapAgrees | src/days/day5.rs:43-66 | away from the ends of its ranges, `map` as written is the corrected map |
| Day5.LocationAgrees | src/days/day5.rs:117-124 | when no step of the fold meets the end of a range, the fold as written gives the corrected location |
| Day5.EmptyTail | src/days/day5.rs:120-122 | maps without ranges after the first names leave both folds where those names left them |
| Day5.SevenMapsOnePastTheEnd | src/days/day5.rs:117-124 | seven maps, the first holding only "50 98 2", and seed 100: the fold as written gives 52, the corrected fold 100 |
| Day5.Min | src/days/day5.rs:126 | the minimum exists exactly for a non-empty list, is at most every element, and is one of them |
| Day5.LowestLocation | src/days/day5.rs:110-126 | the answer is the location of one of the seeds and at most every seed's location; no seeds panics on `unwrap` |
| Day5.LowestLocationAsWritten | src/days/day5.rs:110-126 | the answer as the test computes it, with the fold as written, is the location as written of one of the seeds |
| Day5.LowestAgrees | src/days/day5.rs:110-126 | when no seed's fold meets the end of a range, the answer as written is the corrected answer |
| Day7.MaxCount | src/days/day7.rs:37-46 | the largest occurrence count bounds every label's count and is reached by one of them |
| Day7.MinCount | src/days/day7.rs:39 | the smallest occurrence count is at most every label's count and is reached by one of them |
| Day7.ParseHand | src/days/day7.rs:27-56 | the hand keeps its text, is classified exactly when it has one to five distinct labels, and otherwise panics with "Invalid hand" |
| Day7.Parse | src/days/day7.rs:27-56 | the occurrence-map loop classifies the hand as the count-based definition does |
| Day7.EmptyHandPanics | src/days/day7.rs:33-54 | the empty hand has no labels and panics |
| Day7.LabelsBound | src/days/day7.rs:33 | a non-empty hand has between one and as many labels as cards |
| Day7.FiveCardHandsParse | src/days/day7.rs:27-56 | every five-card hand gets a category |
| Day7.LabelsByMultiset | src/days/day7.rs:28-33 | the labels depend only on which cards occur |
| Day7.CountsBound | src/days/day7.rs:37-46 | a rearrangement of the cards cannot lower the largest count nor raise the smallest |
| Day7.CountsByMultiset | src/days/day7.rs:37-46 | the largest and smallest counts do not depend on the order of the cards |
| Day7.ParseHandByMultiset | src/days/day7.rs:27-56 | rearranging the cards of a hand never changes its category |
| Day7.Position | src/days/day7.rs:126-130 | `position` finds a label exactly when it is listed, at its first occurrence |
| Day7.CardValue | src/days/day7.rs:126-130 | a valid label's strength is its index in "23456789TJQKA" |
| Day7.CardValueInjective | src/days/day7.rs:5 | distinct labels have distinct strengths |
| Day7.CmpNat | src/days/day7.rs:130 | comparing two strengths is Equal exactly when they agree and Greater exactly when the first is larger |
| Day7.CardOrder | src/days/day7.rs:125-131 | one zipped pair compares the two strengths, and panics exactly when a label is not in the card order |
| Day7.PairOrders | src/days/day7.rs:121-131 | `zip` compares the pairs up to the shorter hand |
| Day7.NonEqual | src/days/day7.rs:132 | the filter leaves no Equal |
| Day7.CompareCards | src/days/day7.rs:120-140 | `compare_cards` panics exactly when the compared prefix holds an invalid label and otherwise never answers Equal |
| Day7.Values | src/days/day7.rs:126-130 | the strengths of a valid hand, card by card |
| Day7.PairwiseCmp | src/days/day7.rs:121-131 | one comparison per common position |
| Day7.NonEqualIsLex | src/days/day7.rs:132-139 | the first non-Equal comparison is the lexicographic order, and Greater when there is none |
| Day7.CompareCardsIsLex | src/days/day7.rs:120-140 | on valid labels `compare_cards` is the lexicographic order of card strengths |
| Day7.LexFirstDifference | src/days/day7.rs:132-138 | the lexicographic order is decided by the first differing position |
| Day7.LexSame | src/days/day7.rs:135-136 | an agreeing common prefix compares Greater |
| Day7.CompareCardsFirstDifference | src/days/day7.rs:120-140 | the first position whose labels differ decides `compare_cards` |
| Day7.CompareCardsNoDifference | src/days/day7.rs:135-136 | with no differing position the answer is Greater |
| Day7.CompareCardsSelf | src/days/day7.rs:135-136 | every valid hand compares Greater to itself |
| Day7.LexGreaterTransitive | src/days/day7.rs:120-140 | on sequences of one length the order's Greater is transitive |
| Day7.CompareCardsTransitive | src/days/day7.rs:120-140 | `compare_cards` answering Greater is transitive on hands of one length |
| Day7.Cmp | src/days/day7.rs:65-103 | a stronger category wins outright, a weaker one loses, and two hands of one category defer to `compare_cards` |
| Day7.CmpSelf | src/days/day7.rs:65-103 | every valid hand is "greater" than itself |
| Day7.CmpGreaterTransitive | src/days/day7.rs:65-103 | `>` on hands of one length is transitive |
| Day7.Beaten | src/days/day7.rs:107-115 | a hand beats at most the other hands it is compared with |
| Day7.Rank | src/days/day7.rs:105-118 | `rank` succeeds exactly when every pair of distinct hands compares, and then gives each hand 1 plus the number of other hands it beats, between 1 and the number of hands |
| Day7.Tally | src/days/day7.rs:108-115 | the inner loop adds one to hand i's rank for each other hand it beats, panics at the first failing comparison, and touches no other rank |
| Day7.JokerFrom | src/days/day7.rs:143 | the first joker at or after `start`, or none exactly when there is none |
| Day7.BeatsTransitive | src/days/day7.rs:153 | "parses strictly greater" is transitive on hands of one length |
| Day7.OptimiseNextJoker | src/days/day7.rs:142-161 | a hand without jokers after `start` is returned as is; otherwise the result has the hand's length and is the hand itself or parses strictly greater than it |
| Day8.SpaceEnd | src/days/day8.rs:21 | `[ ]*` takes the whole run of spaces |
| Day8.NameEnd | src/days/day8.rs:21 | `[0-9A-Z]+` takes the whole run of name characters |
| Day8.MatchAt | src/days/day8.rs:21 | the pattern matched from one position yields two names |
| Day8.Captures | src/days/day8.rs:21-26 | the leftmost match of the pattern yields two names |
| Day8.ParseEdge | src/days/day8.rs:25-28 | a node line the pattern misses panics at `unwrap` |
| Day8.ParseLines | src/days/day8.rs:8-31 | no input panics; otherwise the instructions are the first line and there is one node and one edge per line from the third on |
| Day8.ParseInput | src/days/day8.rs:8-31 | empty input panics on `unwrap`; the instructions are a single line |
| Day8.NoMatchBefore | src/days/day8.rs:21 | the pattern cannot match inside `name = (` |
| Day8.CapturesSkip | src/days/day8.rs:21-26 | so the leftmost match starts after `name = (` |
| Day8.ParseNodeLine | src/days/day8.rs:19-27 | a well-formed node line parses back to its name and its two edges |
| Day8.NodeNameOf | src/days/day8.rs:19 | the node name is the text before " = " |
| Day8.EdgeOf | src/days/day8.rs:26-27 | the edge pair is the two names in the parentheses |
| Day8.NodeLineLayout | src/days/day8.rs:19-27 | where the name, the two edges, the comma and the closing parenthesis sit in a node line |
| Day8.NameRun | src/days/day8.rs:21 | a name followed by a non-name character is a whole run |
| Day8.MatchAtParts | src/days/day8.rs:21 | a match is the two runs of name characters around ", " before ')' |
| Day8.MatchAtOf | src/days/day8.rs:21 | the pattern at the start of `left, right)` yields those two names |
| Day8.ParseFormatLines | src/days/day8.rs:8-31 | the lines of a well-formed puzzle parse back to the network they show |
| Day8.IndexIn | src/days/day8.rs:40-58 | `position` finds a name exactly when it is listed, at its first occurrence |
| Day8.EdgeIndices | src/days/day8.rs:39-43 | an edge pair is matched exactly when both names are nodes, and panics otherwise |
| Day8.MatchEdges | src/days/day8.rs:33-45 | `match_edges_to_nodes` succeeds exactly when every edge names nodes, and gives each edge the first positions of its two names |
| Day8.Step | src/days/day8.rs:60-65 | a step succeeds exactly when the instruction `i mod len` is L or R (and the node has an edge pair), and goes left for L and right for R |
| Day8.FirstArrivalUnique | src/days/day8.rs:59-67 | the step count of the first arrival is unique |
| Day8.ExtendNotArrived | src/days/day8.rs:59-67 | one more step that misses the targets extends the walk's miss |
| Day8.StepsUntil | src/days/day8.rs:56-103 | the walk loop returns the step count at which the walk first reaches a target, or panics as some step does, or runs out of fuel having missed the targets |
| Day8.Part1 | src/days/day8.rs:52-70 | missing "AAA" or "ZZZ" panics; an answer is the first arrival at "ZZZ" from "AAA"; running out of fuel means no arrival within the fuel, and any other panic is the panic of a step of the walk within the fuel |
| Day8.EndingIn | src/days/day8.rs:76-87 | the names ending in a letter, as increasing indices, exactly those; an empty name panics |
| Day8.DividesTransitive | src/days/day8.rs:107 | divisibility is transitive |
| Day8.LcmAllCommonMultiple | src/days/day8.rs:107 | with every distance positive, the folded lcm is a positive common multiple of all of them |
| Day8.Part2 | src/days/day8.rs:73-110 | an empty name panics; otherwise there is one distance per start ending in 'A', each the first arrival at a name ending in 'Z', and the answer is their lcm, a positive common multiple of each; running out of fuel means the first start without a distance does not arrive within the fuel, and a panic is that start's walk panicking within the fuel |
| Day9.Diffs | src/days/day9.rs:2-5 | `windows(2)` gives one difference per adjacent pair, later minus earlier, and nothing for a series of at most one value |
| Day9.DiffsFrom | src/days/day9.rs:2-5 | the differences from one index on, pair by pair |
| Day9.ExtrapolateNext | src/days/day9.rs:1-13 | `extrapolate_next` as written panics exactly on the empty series, and returns the last value as soon as the differences sum to zero |
| Day9.ExtrapolateNextDeeper | src/days/day9.rs:11 | the written recursive case always succeeds |
| Day9.SumOfDiffs | src/days/day9.rs:2-7 | the differences telescope to last minus first |
| Day9.FirstEqualsLast | src/days/day9.rs:7-8 | so the written test passes exactly when the first and last values are equal, and then answers the last value whatever lies between |
| Day9.ConstantSeries | src/days/day9.rs:1-13 | a constant series extrapolates to the constant |
| Day9.ArithmeticDiffs | src/days/day9.rs:2-5 | the differences of an arithmetic series are its step |
| Day9.ArithmeticSeries | src/days/day9.rs:1-13 | an arithmetic series with a non-zero step extrapolates to last plus step |
| Day9.ArithmeticEnds | src/days/day9.rs:7 | its differences do not sum to zero |
| Day9.WrittenStep | src/days/day9.rs:11 | past the written test, the answer is the extrapolated difference plus the last value |
| Day9.Extrapolate | src/days/day9.rs:1-13 | the corrected extrapolation, which stops when the differences are all zero, panics exactly on the empty series |
| Day9.ExtrapolateDeeper | src/days/day9.rs:11 | its recursive case always succeeds |
| Day9.DiffsAppend | src/days/day9.rs:2-5 | appending a value appends its difference from the last one |
| Day9.LevelOfZero | src/days/day9.rs:2-5 | every level of differences of a zero series is zero |
| Day9.ExtrapolateKeepsZeroLevel | src/days/day9.rs:1-13 | when the m-th differences of a series are all zero, they stay all zero after the corrected extrapolated value is appended (the next value of a polynomial of degree below m) |
| Day9.FlatKeepsZeroLevel | src/days/day9.rs:7-8 | a series with all-zero differences extrapolates to its last value and keeps every zero level |
| Day9.StepKeepsZeroLevel | src/days/day9.rs:11 | past the test, the differences extend by their own extrapolation |
| Day9.ExtrapolateStep | src/days/day9.rs:11 | the corrected answer minus the last value is the extrapolation of the differences |
| Day9.LevelAppendValue | src/days/day9.rs:2-11 | appending x to a series appends x minus the last value to its differences, at every level |
| Day9.LevelStep | src/days/day9.rs:2-5 | the m-th differences are the (m-1)-th differences of the differences |
| Day9.ZeroSeriesKeepsZero | src/days/day9.rs:7-8 | a zero series extrapolates to zero |
| Day9.ExtrapolateOneTwoOne | src/days/day9.rs:1-13 | the corrected extrapolation of 1, 2, 1 is -2 |
| Day9.ExtrapolateNextOneTwoOne | src/days/day9.rs:7-8 | the written function answers 1 on 1, 2, 1 (its differences 1, -1 sum to zero), and appending 1 breaks the zero third differences |
| Day9.WrittenStopsEarly | src/days/day9.rs:7-8 | the written function answers 1 on 1, 2, 1: the differences sum to zero and it returns the last value |
| Day9.OneTwoOneLevel | src/days/day9.rs:1-13 | the third differences of 1, 2, 1 are all zero |
| Day9.OneTwoOneOneLevel | src/days/day9.rs:1-13 | the corrected extrapolation keeps that zero level: appending the written answer 1 breaks it |
| Day10.Move | src/days/day10.rs:14-53 | a `usize` step succeeds exactly when neither coordinate drops below zero (otherwise a subtraction overflow), and lands on the orthogonal neighbour in that direction |
| Day10.FindStart | src/days/day10.rs:1-10 | `find_start` succeeds exactly when the grid holds an 'S', returns the first in row-major order, and otherwise panics with "No start found!" |
| Day10.FirstStartUnique | src/days/day10.rs:1-10 | the first 'S' is unique |
| Day10.NextPos | src/days/day10.rs:12-62 | `next_pos` moves to an orthogonal neighbour of a cell in the grid; outside the grid it panics, on '.' with "Ended in the ground!", on an unknown character with "Invalid character!" |
| Day10.PipeOtherEnd | src/days/day10.rs:14-43 | entering a pipe through one end leaves it through the other |
| Day10.FirstConnecting | src/days/day10.rs:45-56 | the first of west, south, east, north whose neighbour pipe points back, or none exactly when no neighbour connects |
| Day10.StartExitConnects | src/days/day10.rs:44-57 | at 'S' the walk leaves towards the first connecting direction, and panics with "No neighbours!" when there is none |
| Day10.LoopLengthUnique | src/days/day10.rs:116-121 | the first return to the start is unique |
| Day10.Part1 | src/days/day10.rs:106-124 | the walk starts at the first 'S', and a grid without one panics; an answer is half the number of steps of the first return to it; running out of fuel means no return within the fuel; any other panic is a step of the walk failing within the fuel |
| Day10.RayCrossings | src/days/day10.rs:85-97 | the ray count fails only by an index out of bounds |
| Day10.TraceBoundaryRay | src/days/day10.rs:85-97 | the counting loop of `trace_boundary_ray` computes the ray count |
| Day10.RayCountsCrossings | src/days/day10.rs:85-97 | on a well-formed map the ray count is the number of boundary cells holding '\|', 'J', 'L' or 'S' at or left of the column |
| Day10.CellInside | src/days/day10.rs:71-77 | a cell's test fails only by an index out of bounds |
| Day10.RowInside | src/days/day10.rs:69-79 | a row counts at most its cells |
| Day10.RowsInside | src/days/day10.rs:67-81 | the rows count at most rows times width |
| Day10.CountInside | src/days/day10.rs:65-83 | `count_inside` succeeds only on a non-empty grid and counts at most its cells |
| Day10.RowCountsInside | src/days/day10.rs:69-79 | a row's count is the number of its cells judged inside (off the boundary with an odd crossing count) |
| Day10.InsideSetNext | src/days/day10.rs:69-79 | the cells judged inside grow by the last cell exactly when it is |
| Day10.VisitedSound | src/days/day10.rs:138-144 | every position marked is one the walk occupied |
| Day10.VisitedComplete | src/days/day10.rs:138-144 | every position the walk occupied is marked |
| Day10.NewGrid | src/days/day10.rs:133 | `new_grid` is rows by columns of false |
| Day10.Part2 | src/days/day10.rs:127-148 | an empty grid panics, and so does a grid without 'S'; an answer follows the loop from the first 'S', marks exactly its positions on a map of the grid's shape, and counts the enclosed cells of that map; running out of fuel means no return within the fuel; a panic is the walk failing or leaving the map within the fuel, or the count of the enclosed cells panicking |
| Day10.MarkLoop | src/days/day10.rs:138-144 | the marking walk keeps the map's shape and, on return to the start, marks exactly the positions of the loop; running out of fuel means no return within the fuel, and a panic is a step failing or leaving the map within the fuel |
| Day10.WalkStep | src/days/day10.rs:116-121 | one step of the walk extends it by `next_pos`, with no early return to the start |
| Day10.MarkStep | src/days/day10.rs:139 | marking the current position extends the marked walk by one step |
| Day11.IncreasingAppend | src/days/day11.rs:9-19 | appending a larger index keeps a list increasing |
| Day11.EmptyRows | src/days/day11.rs:9-19 | the listed rows are exactly those without a galaxy |
| Day11.EmptyRowsIncreasing | src/days/day11.rs:9-19 | and are listed in increasing order |
| Day11.ColumnClear | src/days/day11.rs:24 | on rows long enough the column test is "no '#' in the column"; it panics only with an index out of bounds on a row too short |
| Day11.ClearColumnsBelow | src/days/day11.rs:22-33 | when every row reaches the bound, the listed columns are exactly the empty ones below it; a panic is an index out of bounds |
| Day11.ClearColumnsIncreasing | src/days/day11.rs:22-33 | the empty columns found are listed in increasing order |
| Day11.EmptyColsAsWritten | src/days/day11.rs:22-33 | `j_expand` as written underflows on an empty image, and lists only empty columns below the number of rows minus one |
| Day11.EmptyCols | src/days/day11.rs:22-33 | the corrected scan over the first row's columns fails only by an index out of bounds |
| Day11.EmptyColsExact | src/days/day11.rs:22-33 | on a rectangular image the corrected scan succeeds and lists exactly the empty columns, in increasing order |
| Day11.CountBelow | src/days/day11.rs:45-48 | the `filter(..).count()` counts at most the list |
| Day11.Expand | src/days/day11.rs:44-49 | an expansion of 1 leaves a coordinate alone and a larger one never decreases it |
| Day11.Hashes | src/days/day11.rs:40-43 | the galaxy columns of a row are exactly its '#' cells |
| Day11.HashesIncreasing | src/days/day11.rs:40-43 | listed left to right |
| Day11.Positions | src/days/day11.rs:36-43 | the galaxy positions are exactly the '#' cells |
| Day11.RowPositions | src/days/day11.rs:39-42 | a row's positions pair its index with its galaxy columns |
| Day11.PositionsInOrder | src/days/day11.rs:36-61 | each '#' cell occurs once, in row-major order |
| Day11.RowNodes | src/days/day11.rs:40-58 | one placed galaxy per '#' of a row, in order |
| Day11.Nodes | src/days/day11.rs:36-61 | one placed galaxy per '#' cell, in row-major order |
| Day11.GalaxiesAsWritten | src/days/day11.rs:7-63 | `nodes_with_expansion` as written places the galaxies with the written column gaps, and panics exactly when that scan does |
| Day11.Galaxies | src/days/day11.rs:7-63 | the corrected version places them with every column scanned, and panics exactly when that scan does |
| Day11.CountBelowAppend | src/days/day11.rs:45-48 | appending y counts one more below v exactly when y < v |
| Day11.EmptyRowsBeforePrefix | src/days/day11.rs:9-19 | the empty rows above row i do not depend on the rows below |
| Day11.EmptyRowsStep | src/days/day11.rs:9-19 | one more row adds its index exactly when it is empty |
| Day11.CountBelowAll | src/days/day11.rs:45-48 | a list wholly below v counts the same below any larger bound |
| Day11.RowGaps | src/days/day11.rs:45 | a row's gap count is the number of empty rows above it |
| Day11.ClearColumnsAgree | src/days/day11.rs:22-33 | when every row is long enough the scan cannot panic and finds the empty columns |
| Day11.EmptyColumnsCount | src/days/day11.rs:48 | a column's gap count is the number of empty columns before it, among those scanned |
| Day11.ColumnGaps | src/days/day11.rs:22-48 | the same for the scan itself |
| Day11.GalaxiesExpand | src/days/day11.rs:7-63 | on a rectangular image every galaxy moves down by `expansion - 1` per empty row above it and right by `expansion - 1` per empty column to its left |
| Day11.GalaxiesAsWrittenExpand | src/days/day11.rs:7-63 | as written the column shift counts only the empty columns below `min(j, rows - 1)` |
| Day11.NodesExpand | src/days/day11.rs:36-61 | the k-th galaxy when the column gaps count the empty columns below a bound |
| Day11.NodeAt | src/days/day11.rs:36-61 | the k-th galaxy is the k-th '#' cell shifted by its gap counts |
| Day11.PairSumDistinct | src/days/day11.rs:78-82 | pairing each galaxy with itself adds nothing: the sum with replacement is the sum over distinct pairs |
| Day11.CountBelowMonotone | src/days/day11.rs:45-48 | the gap count grows with the bound |
| Day11.ExpandStretches | src/days/day11.rs:44-49 | expansion stretches a distance along one axis by `expansion - 1` per gap between the two coordinates |
| Day11.Stretch | src/days/day11.rs:44-49 | the arithmetic of that stretch |
| Day11.PlaceDistance | src/days/day11.rs:44-81 | the distance of two placed galaxies is their original distance plus `expansion - 1` per empty row and column between them |
| Day11.Answer | src/days/day11.rs:71-100 | either part's answer, with every column scanned, is the sum of the distances over distinct pairs of placed galaxies |
| Day11.AnswerAsWritten | src/days/day11.rs:71-100 | the same with the written column scan |
| Day11.PairSumTwo | src/days/day11.rs:81 | two galaxies in one row are as far apart as their columns |
| Day11.WideImage | src/days/day11.rs:22 | on the one row `#.#` with expansion 2, column 1 is empty but the written scan covers only `0..0`: answer 2 as written, 3 corrected |
| Day11.WideAsWritten | src/days/day11.rs:22-33 | as written the galaxies of `#.#` with expansion 2 stay at columns 0 and 2 |
| Day11.WideCorrected | src/days/day11.rs:22-33 | with every empty column counted the second galaxy moves to column 3 |
| Day11.WideAnswerAsWritten | src/days/day11.rs:71-100 | as written the answer on `#.#` with expansion 2 is 2 |
| Day11.WideAnswer | src/days/day11.rs:71-100 | corrected, the answer on `#.#` with expansion 2 is 3 |
| Day11.TallImage | src/days/day11.rs:22-24 | on three one-column rows the written scan indexes column 1 and panics; the corrected scan succeeds |
| Day12.ParseLine | src/days/day12.rs:10-16 | a line without a space panics at `unwrap`; a parsed map holds no space and at least one count |
| Day12.LineResults | src/days/day12.rs:8-16 | one parse per line, in order |
| Day12.ParseInput | src/days/day12.rs:6-18 | `parse_input` succeeds exactly when every line parses, and unzips them line by line into maps and patterns |
| Day12.ParseFormatLine | src/days/day12.rs:10-16 | a line `map counts` written as the puzzle writes it parses back |
| Day12.NonEmpty | src/days/day12.rs:22 | dropping empty pieces keeps only non-empty pieces of the split |
| Day12.Groups | src/days/day12.rs:4-22 | the groups split off by `[.]+` are non-empty and hold no '.' |
| Day12.Lengths | src/days/day12.rs:27-30 | one length per group |
| Day12.IsValidRow | src/days/day12.rs:20-31 | a row is valid exactly when its group lengths, in order, are the pattern |
| Day12.GroupsOfJoin | src/days/day12.rs:21-22 | dot-free words joined by single dots split back into those words |
| Day12.NonEmptyKeeps | src/days/day12.rs:22 | the filter keeps a list of non-empty pieces as is |
| Day12.Damaged | src/days/day12.rs:20-31 | a run of n damaged springs has length n and no '.' |
| Day12.TightRowValid | src/days/day12.rs:20-31 | runs of the pattern's sizes joined by single dots form a valid row |
| Day12.ValidExample | src/days/day12.rs:76 | "#.#.###" is valid for 1, 1, 3 |
| Day12.InvalidExample | src/days/day12.rs:77 | "##..###" is not |
| Day12.UnknownsZero | src/days/day12.rs:34-35 | no spring is unknown exactly when no character is '?' |
| Day12.UnknownsUpdate | src/days/day12.rs:38-40 | overwriting one character changes the unknown count by what left and what came in |
| Day12.CountValidKnown | src/days/day12.rs:43-48 | a row without '?' counts 1 when valid and 0 otherwise |
| Day12.CountValidSplit | src/days/day12.rs:35-42 | a row with a '?' counts the rows with its first '?' set to '.' and to '#' |
| Day12.CountValidBound | src/days/day12.rs:33-50 | the count is at most two to the number of '?' |
| Day12.SplitBound | src/days/day12.rs:42 | two branches of at most 2^v each make at most 2^(v+1) |
| Day12.QuestionFrom | src/days/day12.rs:34-36 | the first '?' at or after an index, or none when there is none |
| Day12.FirstQuestion | src/days/day12.rs:34-36 | the first '?' of a row, or none exactly when no spring is unknown |
| Day12.FirstQuestionFinds | src/days/day12.rs:34-36 | the scan finds what `match_indices("?").first()` finds |
| Day12.FillOne | src/days/day12.rs:37-40 | filling a '?' leaves one fewer |
| Day12.ReplaceRangeIsUpdate | src/days/day12.rs:38-40 | `replace_range(pos..pos+1, c)` overwrites the character at pos |
| Day12.Fillings | src/days/day12.rs:33-50 | the fillings of a row are exactly the rows that set each '?' to '.' or '#' and keep the rest |
| Day12.KnownFillings | src/days/day12.rs:43-48 | a row without '?' fills in only as itself |
| Day12.SplitFillings | src/days/day12.rs:37-42 | the valid fillings split, without overlap, by the choice at one '?' |
| Day12.CountValidCounts | src/days/day12.rs:33-50 | `count_valid_combinations` is exactly the number of valid ways to fill in the '?'s |
| Day12.Total | src/days/day12.rs:62-71 | the total is at least every row's count |
| Day13.CountDiff | src/days/day13.rs:28-54 | the differing cells of two lines, over their common length, are at most that length |
| Day13.CountDiffZero | src/days/day13.rs:28-54 | no difference exactly when the two lines agree over their common length |
| Day13.PairDiffsZero | src/days/day13.rs:24-55 | the summed differences are zero exactly when every compared pair agrees |
| Day13.ColMismatch | src/days/day13.rs:3-29 | the differences across a vertical mirror panic only at `unwrap` of a row too short |
| Day13.FindColFrom | src/days/day13.rs:2-30 | the search from a column finds the first column whose mismatch is exactly the budget, having passed every earlier one |
| Day13.ReflectCol | src/days/day13.rs:1-31 | `find_reflect_col` panics on an empty pattern, and otherwise answers the first column in 1..width whose mismatch is the budget, or none when no column has it |
| Day13.RectangularNoPanic | src/days/day13.rs:2-30 | on a rectangular pattern the search never panics |
| Day13.ColMismatchOk | src/days/day13.rs:3-29 | on a rectangular pattern every mismatch can be computed |
| Day13.PerfectMirror | src/days/day13.rs:3-29 | no column mismatch means every row reads the same leftwards and rightwards from the mirror over the compared width |
| Day13.Reverse | src/days/day13.rs:41 | `rev` reverses |
| Day13.FindRowFrom | src/days/day13.rs:34-56 | the row search from a row finds the first row whose mismatch is the budget, having passed every earlier one |
| Day13.ReflectRow | src/days/day13.rs:33-57 | `find_reflect_row` answers the first row in 1..height whose mismatch is the budget, or none, and cannot panic |
| Day13.MirroredRows | src/days/day13.rs:35-48 | pair k across the mirror after row r is rows r-k-1 and r+k |
| Day13.PerfectRowMirror | src/days/day13.rs:35-55 | no row mismatch means each row above matches its mirror image below |
| Day13.ColumnOfTranspose | src/days/day13.rs:9-20 | a column of a rectangular pattern is a row of its transpose |
| Day13.ColIsRowOfTranspose | src/days/day13.rs:3-55 | the mismatch after a column is the mismatch after the same row of the transpose |
| Day13.LeftsAbove | src/days/day13.rs:7-42 | the columns left of a mirror are the transposed rows above it, reversed |
| Day13.RightsBelow | src/days/day13.rs:15-48 | the columns right of a mirror are the transposed rows below it |
| Day13.FindColIsFindRow | src/days/day13.rs:2-34 | the column search is the row search on the transpose |
| Day13.ReflectColIsReflectRow | src/days/day13.rs:1-57 | on a rectangular pattern `find_reflect_col` is `find_reflect_row` of the transpose |
| Day13.Score | src/days/day13.rs:72-81 | a pattern's score is the mirror column plus 100 times the mirror row, each 0 when absent, and panics exactly when the column search does |
| Day13.ExactBudget | src/days/day13.rs:29 | the budget is matched exactly: "##" mirrors with budget 0 and not with budget 1 |
| Day14.Weight | src/days/day14.rs:8-11 | the sum of the positions of the round rocks is never negative, so the swaps must stop |
| Day14.WeightUpdate | src/days/day14.rs:9-10 | overwriting one cell changes the weight by that cell's contribution |
| Day14.OsMono | src/days/day14.rs:8-11 | the count of round rocks in a prefix grows with the prefix |
| Day14.OsAgree | src/days/day14.rs:8-11 | equal counts at one point and equal cells after it give equal counts further on |
| Day14.RearrangedTrans | src/days/day14.rs:5-14 | moving rocks within their runs, twice, moves them within their runs |
| Day14.SwapStep | src/days/day14.rs:8-11 | swapping an 'O' with the '.' before it keeps every '#' in place and every run's rocks, and lowers the weight by one |
| Day14.SwapFrame | src/days/day14.rs:9-10 | that swap keeps the frame and the multiset of cells |
| Day14.SwapRunCounts | src/days/day14.rs:9-10 | that swap keeps the number of rocks in every run between fixed cells |
| Day14.NextFixed | src/days/day14.rs:8 | the next non-rolling cell, everything before it rolling |
| Day14.DotsAfter | src/days/day14.rs:5-14 | in a settled rearrangement, the cells after a '.' up to the next fixed cell are all '.' |
| Day14.RunFromCell | src/days/day14.rs:5-14 | in a settled rearrangement, a '.' adds no more rocks to its run and an 'O' adds at least one |
| Day14.PrefixAgree | src/days/day14.rs:2-16 | two settled rearrangements of one column agree on every prefix |
| Day14.FallDetermined | src/days/day14.rs:2-16 | a fallen column is determined by the column: the contract of `fall` leaves one possible result |
| Day14.Fall | src/days/day14.rs:2-16 | `fall` returns the column with every rock rolled towards the start within its run: settled, same frame, same rocks per run, weight not increased; a settled column comes back unchanged, so falling twice is falling once |
| Day14.Swap | src/days/day14.rs:8-11 | one swap moves the rock into the gap before it and lowers the weight by one |
| Day14.Pass | src/days/day14.rs:6-13 | one pass rearranges within runs, lowers the weight by its number of swaps, and makes none exactly on a settled column |
| Day14.Count | src/days/day14.rs:34 | the count of a character in a row is at most the row's length |
| Day14.RowLoad | src/days/day14.rs:30-36 | counting a row cell by cell gives its rock count times the distance from the far edge |
| Day14.MulSucc | src/days/day14.rs:34 | the distribution step of that count |
| Day14.LoadByCells | src/days/day14.rs:30-36 | the row-by-row load equals the sum over round rocks of their distance from the far edge |
| Day14.Column | src/days/day14.rs:26 | column j holds cell j of every row |
| Day14.TiltNorth | src/days/day14.rs:26-28 | transposing, letting every column fall and transposing back gives a grid of the same shape whose every column is the fallen column of the input |
| Day14.TiltColumns | src/days/day14.rs:27-28 | transposing the fallen columns back leaves each of them a column |
| Day14.TransposeColumns | src/days/day14.rs:28 | the columns of a transpose are the rows of the grid |
| Day14.ColumnsOfTranspose | src/days/day14.rs:26 | the rows of a transpose are the columns of the grid |
| Day15.Code | src/days/day15.rs:13 | `(val as u8) as i32` is below 256 |
| Day15.HashFrom | src/days/day15.rs:11-17 | the fold over nothing is its start, and over anything else lies in 0..256 |
| Day15.Hash | src/days/day15.rs:10-18 | the HASH of a segment lies in 0..256, and the empty segment hashes to 0 |
| Day15.HashFromAppend | src/days/day15.rs:12-17 | appending a character applies one more step of add, times 17, mod 256 |
| Day15.HashAppend | src/days/day15.rs:12-17 | the hash of `s + [c]` depends on `s` only through its hash |
| Day15.HashOfHASH | src/days/day15.rs:10-18 | the word "HASH" hashes to 52 |
| Day15.Hashes | src/days/day15.rs:9-18 | one hash per segment, in order |
| Day15.SumOfHashes | src/days/day15.rs:9-19 | the answer lies between 0 and 255 per segment |
| Day15.TrailingNewlineIsHashed | src/days/day15.rs:9 | the split does not trim, so a final newline is hashed with the last segment |
| Day16.MirrorInvolution | src/days/day16.rs:29-38 | a mirror turns a unit step by a right angle (neither straight on nor back), and the same mirror turns it back |
| Day16.SplitDirections | src/days/day16.rs:39-58 | a splitter hit across its axis sends two opposite beams along its axis, both at right angles to the incoming one; along its axis the beam passes |
| Day16.Zeros | src/days/day16.rs:17 | the new energy grid has the input's shape and is all zero |
| Day16.EnergiseCell | src/days/day16.rs:24 | energising adds one at the beam's cell and changes no other cell |
| Day16.StepValid | src/days/day16.rs:21-66 | a step keeps the energy grid in the input's shape and the beam in flight inside the frame |
| Day16.TraceValid | src/days/day16.rs:16-69 | every state of the run keeps that shape |
| Day16.StepGrows | src/days/day16.rs:24 | a step never lowers an energy count |
| Day16.TraceGrows | src/days/day16.rs:16-69 | energy counts only grow over the run |
| Day16.StartEnergised | src/days/day16.rs:8-13 | the top-left tile, where `Beam::new()` enters heading right, ends energised |
| Day16.TraceSplits | src/days/day16.rs:43-52 | every recorded split is a splitter cell, and no splitter is recorded twice |
| Day16.StepStraight | src/days/day16.rs:28-65 | through `.` or along a splitter the beam keeps its direction and moves one cell on |
| Day16.StepMirror | src/days/day16.rs:29-65 | at `\` or `/` the beam turns and moves one cell on |
| Day16.StopAtRecordedSplit | src/days/day16.rs:43-45 | a beam reaching an already split splitter across its axis stops after energising the cell |
| Day16.StepSplit | src/days/day16.rs:47-57 | a fresh split records the splitter, parks one turned beam on the stack and sends the opposite one on |
| Day16.StepPanics | src/days/day16.rs:26-60 | a step panics exactly when the beam reads past a short row or meets an unknown cell |
| Day16.TileEnergies | src/days/day16.rs:16-69 | the energy grid returned is that of the run once no beam is left; a panic is the run's panic; an empty grid panics; at most `fuel` steps are taken |
| Day16.Advance | src/days/day16.rs:24-65 | one pass of the inner loop is one step of the run |
| Day16.CountPositiveZero | src/days/day16.rs:83-85 | a row counts no energised tile exactly when all its counts are zero |
| Day16.EnergisedBounds | src/days/day16.rs:83-85 | at most every tile is energised, and none is exactly when all counts are zero |
| Day16.Part1 | src/days/day16.rs:78-87 | the answer is the energised-tile count of a finished run from the top left; a panic is the run's panic within the fuel, and running out of fuel means the run has not finished after `fuel` steps |
| Day17.SummaryDropsHl | src/days/day17.rs:10-12 | two states share a summary exactly when they differ in heat loss at most |
| Day17.Cmp | src/days/day17.rs:15-25 | a state is greater exactly when its heat loss is smaller, equal exactly when the heat losses are equal |
| Day17.PopIndex | src/days/day17.rs:50 | the popped state is a greatest under `Cmp`: no pending state has a smaller heat loss |
| Day17.TurnsPanicStops | src/days/day17.rs:76-93 | the first out-of-row read stops the direction loop; later directions change nothing |
| Day17.TurnsSound | src/days/day17.rs:76-93 | every turn pushed is a legal move in one of the directions tried |
| Day17.TurnsComplete | src/days/day17.rs:76-93 | every legal turn in a direction tried is pushed |
| Day17.TurnsPanicReason | src/days/day17.rs:89 | the direction loop panics only on an out-of-bounds index |
| Day17.SuccessorsPanicReason | src/days/day17.rs:71-89 | expanding a state panics only on an out-of-bounds index |
| Day17.SuccessorsSound | src/days/day17.rs:61-93 | every pushed state is a legal move from the expanded one |
| Day17.SuccessorsComplete | src/days/day17.rs:61-93 | every legal move from the expanded state is pushed |
| Day17.TurnsRectangular | src/days/day17.rs:84-91 | on a rectangular grid the direction loop never panics |
| Day17.SuccessorsRectangular | src/days/day17.rs:66-91 | on a rectangular grid expanding a state never panics |
| Day17.Expand | src/days/day17.rs:61-93 | the loop body pushes exactly the successors, straight move first |
| Day17.PushTurns | src/days/day17.rs:76-93 | the direction loop pushes exactly the turns, in compass order, or stops at their panic |
| Day17.WalkBounds | src/days/day17.rs:61-93 | along a legal walk heat loss never decreases and no run exceeds the maximum |
| Day17.WalkTurnsLate | src/days/day17.rs:139 | under part 2's rules a turn follows a run of at least 4, or the start |
| Day17.ExpandOnce | src/days/day17.rs:57-59 | expanding a new summary adds it to the seen set and keeps the expanded states distinct |
| Day17.PendingRemove | src/days/day17.rs:50 | removing a least element keeps every pending state a walk's end costing at least the new bound |
| Day17.PendingPush | src/days/day17.rs:72-90 | pushing the successors of a walk's end keeps every pending state a walk's end |
| Day17.FrontierInit | src/days/day17.rs:46-47 | the heap holding only the start covers every walk before any expansion |
| Day17.CoveredRemove | src/days/day17.rs:50 | removing a state of another summary keeps a covering state |
| Day17.CoveredPush | src/days/day17.rs:72-90 | pushing keeps a covering state |
| Day17.CoveredBy | src/days/day17.rs:72-90 | a pushed state with the same summary and no higher heat loss covers |
| Day17.WalkHlMono | src/days/day17.rs:71-89 | heat loss never decreases along a walk |
| Day17.FirstUnseen | src/days/day17.rs:57 | every unexpanded state of a walk is at or after the walk's first unexpanded state, which is the start or on the boundary |
| Day17.CurrOptimal | src/days/day17.rs:50-59 | a least pending state costs no more than any unexpanded state of any walk |
| Day17.FrontierSkip | src/days/day17.rs:57 | skipping an already seen summary keeps the frontier invariant |
| Day17.FrontierExpand | src/days/day17.rs:59-93 | expanding a least pending state keeps the frontier invariant |
| Day17.FollowMove | src/days/day17.rs:59-93 | a move from any state with the expanded summary is matched by a pushed successor costing no more |
| Day17.TargetOptimal | src/days/day17.rs:53-55 | when the target is popped, no legal walk reaches it for less |
| Day17.SearchInit | src/days/day17.rs:46-48 | the search invariant holds before the first pop |
| Day17.ExpandedGrows | src/days/day17.rs:57-59 | states are expanded in order of heat loss, each summary once |
| Day17.PopSkip | src/days/day17.rs:50-57 | popping a seen summary keeps the search invariant |
| Day17.PopExpand | src/days/day17.rs:50-93 | expanding a new summary keeps the search invariant |
| Day17.Search | src/days/day17.rs:46-96 | the answer is the heat loss of a legal walk; when the target is reached no legal walk reaches it for less; each summary is expanded once, in order of heat loss; only out-of-row reads panic, and a rectangular grid never panics; running out of fuel means `fuel` pops were made without reaching the target; an answer without reaching the target means the heap ran empty and no legal walk reaches the target |
| Day17.EmptyHeapUnreachable | src/days/day17.rs:46-96 | once the heap is empty and no seen state is at the target, no legal walk reaches the target |
| Day17.ParseDigit | src/days/day17.rs:42 | a grid character parses exactly when it is a digit, to its value |
| Day17.Digits | src/days/day17.rs:40-43 | the heat-loss grid parses exactly when every character is a digit, cell for cell; otherwise it panics on unwrap |
| Day17.Solve | src/days/day17.rs:36-97 | each part's answer is the least heat loss of a legal walk to the bottom-right cell under that part's rules; running out of fuel means `fuel` pops without reaching it; an answer without reaching it means no legal walk reaches it |
| Day18.Decode | src/days/day18.rs:17-23 | the direction decodes exactly when it is `U`, `R`, `D` or `L`, otherwise it panics "Unexpected direction. "; the offset lies along one axis and is as long as the step |
| Day18.DecodeOpposite | src/days/day18.rs:18-21 | up and down, left and right cancel out |
| Day18.ParseLine | src/days/day18.rs:14-23 | a parsed line has at least two words, its length the second word as an integer and its offset the first word decoded; fewer than two words panic on the index |
| Day18.Vertices | src/days/day18.rs:8-30 | one vertex more than there are steps |
| Day18.VerticesFollowPlan | src/days/day18.rs:8-30 | the vertices start at the origin and each is the one before moved by that step |
| Day18.BoundaryIsPathLength | src/days/day18.rs:10-16 | with no negative step the boundary length is the Manhattan length of the path through the vertices |
| Day18.PathLengthSnoc | src/days/day18.rs:16 | the path length grows by the last segment's length |
| Day18.Dig | src/days/day18.rs:8-30 | the closure's walk yields the plan's vertices and boundary length, or the first failing line's panic |
| Day18.TruncDiv | src/days/day18.rs:39-42 | Rust's `/` truncates toward zero: the magnitude is the magnitudes' quotient, the sign that of the dividend |
| Day18.HalveEven | src/days/day18.rs:39 | halving an even cross sum is exact |
| Day18.Area | src/days/day18.rs:33-39 | the shoelace area is half the cross sum, exactly when it is even and truncated toward zero when it is odd |
| Day18.Part1 | src/days/day18.rs:6-46 | the answer is the boundary plus the interior points Pick's theorem gives from the shoelace area, or the parsing panic |
| Day18.Reversed | src/days/day18.rs:33-39 | the vertices in reverse order |
| Day18.CrossSumSnoc | src/days/day18.rs:33-39 | appending a vertex adds one cross term |
| Day18.CrossSumReversed | src/days/day18.rs:33-39 | walking the vertices the other way negates the cross sum |
| Day18.LagoonOrientation | src/days/day18.rs:39-44 | the lagoon size does not depend on whether the plan runs clockwise |
| Day18.Shift | src/days/day18.rs:8-9 | every vertex moved by the same offset |
| Day18.CrossShift | src/days/day18.rs:37 | how a shift changes one cross term |
| Day18.SweepAdds | src/days/day18.rs:37 | the shift's contribution adds up along consecutive vertices |
| Day18.CrossSumShift | src/days/day18.rs:33-39 | a shift changes the cross sum only by a term of the first and last vertex |
| Day18.LagoonTranslation | src/days/day18.rs:8-44 | on a closed plan the lagoon size does not depend on where digging starts |
| Day18.RectangleShape | src/days/day18.rs:8-30 | the plan `R a, D b, L a, U b` visits the rectangle's corners and has boundary 2a + 2b |
| Day18.RectangleCrossSum | src/days/day18.rs:33-39 | the rectangle's cross sum is -2ab |
| Day18.RectangleLagoonSum | src/days/day18.rs:39-44 | the rectangle's lagoon is ab + a + b + 1 cubes |
| Day18.RectangleLagoon | src/days/day18.rs:39-44 | a rectangular plan digs the full (a + 1) x (b + 1) block |
| Day19.DigitRun | src/days/day19.rs:13 | the digit run starting at a position stays inside the text |
| Day19.DigitRunMaximal | src/days/day19.rs:13 | `[0-9]+` takes every digit up to the first non-digit or the end |
| Day19.DigitRunOf | src/days/day19.rs:13 | a digit string followed by a non-digit is the whole run there |
| Day19.NumberOf | src/days/day19.rs:16-19 | a printed number followed by a non-digit reads back as that number |
| Day19.Field | src/days/day19.rs:13 | a matched field consumes at least one character |
| Day19.FirstPart | src/days/day19.rs:13-14 | the pattern matches first at the position returned and nowhere before it; no match anywhere gives None |
| Day19.FirstPartFrom | src/days/day19.rs:13-14 | the same, given whether the pattern matches at the start position |
| Day19.PartFromStr | src/days/day19.rs:12-21 | `Part::from_str` panics exactly when the pattern matches nowhere, on `unwrap`; otherwise the part is read at the leftmost match |
| Day19.FieldOf | src/days/day19.rs:13-19 | a tag, a printed number and a non-digit read back as that number and the rest |
| Day19.PartRoundTrip | src/days/day19.rs:12-21 | parsing a printed part gives the part back |
| Day19.OutcomeFromStr | src/days/day19.rs:33-43 | `WorkflowOutcome::from_str` keeps the text and gives a well-formed outcome: a rule has a ':', a workflow name has none and is not "A" or "R" |
| Day19.OutcomeRoundTrip | src/days/day19.rs:33-43 | reading back the text of a well-formed outcome gives the outcome |
| Day19.Category | src/days/day19.rs:52-58 | the category letter selects a rating, and panics "Invalid part parameter. " exactly on a letter other than x, m, a, s |
| Day19.Compare | src/days/day19.rs:60-64 | `<` and `>` compare strictly; any other operator panics "Unexpected operator. " |
| Day19.FirstCondition | src/days/day19.rs:47-51 | the condition pattern matches first at the position returned and nowhere before it |
| Day19.EvalRule | src/days/day19.rs:46-77 | `eval_rule` yields a well-formed outcome that is never a rule, or panics on an unwrap, a bad category or a bad operator |
| Day19.Branch | src/days/day19.rs:59-76 | the same, after the split at ':' |
| Day19.Follow | src/days/day19.rs:73-76 | a rule target is evaluated in turn; any other target is the outcome |
| Day19.RuleTextSplits | src/days/day19.rs:50-66 | the text `c:acc,rej` splits at ':' into the condition and the options, and the options at ',' into the two targets |
| Day19.RuleTextCondition | src/days/day19.rs:51-59 | the condition found in `c:acc,rej` is `c`, at the start |
| Day19.EvalRuleText | src/days/day19.rs:46-77 | a rule goes to its first target when the condition holds, to the rest of the chain otherwise |
| Day19.EqualFails | src/days/day19.rs:61-62 | the comparison is strict: a rating equal to the limit takes the second target |
| Day19.Run | src/days/day19.rs:108-121 | a finished run ends accepted or rejected; starting from a non-rule it never reaches "Should not make it to here. " |
| Day19.Visit | src/days/day19.rs:117-119 | one workflow step ends accepted or rejected when it finishes, and never panics "Should not make it to here. " |
| Day19.TotalPrefix | src/days/day19.rs:107-122 | once a prefix of the parts panics or runs out, that decides the total |
| Day19.TotalPrefixNone | src/days/day19.rs:107-122 | a prefix that runs out makes the total run out |
| Day19.TotalBounds | src/days/day19.rs:106-122 | the total is at least 0 and at most the sum of all ratings |
| Day19.TotalAdditive | src/days/day19.rs:106-122 | totals add up over consecutive batches of parts |
| Day19.Route | src/days/day19.rs:108-121 | the inner loop follows one part from `in` exactly as the run does |
| Day19.Advance | src/days/day19.rs:110-120 | one turn of the inner loop either stops with the run's result or leaves the run unchanged from the next outcome |
| Day19.TotalNext | src/days/day19.rs:107-122 | one more part adds its rating when accepted, nothing when rejected, and passes on a panic or a run-out |
| Day19.Sort | src/days/day19.rs:106-122 | the loop over the parts computes the total |
| Day19.WorkflowRoundTrip | src/days/day19.rs:93-96 | parsing a printed workflow line gives back its name and rules |
| Day19.Workflows | src/days/day19.rs:90-97 | the workflow map is built only when every line has a '{' |
| Day19.WorkflowsLastWins | src/days/day19.rs:90-97 | a workflow's rules are those of the last line with its name |
| Day19.FirstBlank | src/days/day19.rs:92 | the first empty line, or the end: every line before it is non-empty |
| Day19.PartLines | src/days/day19.rs:99-102 | the part lines are exactly those after the first empty line |
| Day19.Part1 | src/days/day19.rs:88-125 | the answer is the total of the parts after the blank line under the workflows before it, or the first parsing panic |
| Day20.Valued | src/days/day20.rs:38-47 | `val` panics "Unexpected variant for value. " exactly on a module with a type |
| Day20.ValAfterHandle | src/days/day20.rs:33-44 | after `handle` on a module without a type, `val` reads the pulse handled and clears it; nothing is sent |
| Day20.FlipFlopIgnoresHigh | src/days/day20.rs:21-27 | a flip-flop ignores a high pulse |
| Day20.FlipFlopTwice | src/days/day20.rs:21-25 | two low pulses restore a flip-flop; it sends its new state each time, so the two pulses are opposite |
| Day20.ConjunctionSends | src/days/day20.rs:29-32 | a conjunction remembers the latest pulse of each input and sends low exactly when every remembered input is then high |
| Day20.ConjunctionWaitingSendsHigh | src/days/day20.rs:29-53 | while a registered input has not sent high, a conjunction sends high whatever arrives from elsewhere |
| Day20.BroadcasterForwards | src/days/day20.rs:34 | the broadcaster forwards the pulse and does not change |
| Day20.UntypedStores | src/days/day20.rs:33 | a module without a type keeps the last pulse and sends nothing |
| Day20.WithSourceIdempotent | src/days/day20.rs:49-56 | `add_src` registers the source as low in a conjunction only, and a second registration changes nothing |
| Day20.TypeLength | src/days/day20.rs:66 | the type group `[&\|%]*` is the leading run of those characters |
| Day20.ListLength | src/days/day20.rs:66 | the destinations group `[a-z, ]+` is the leading run of those characters |
| Day20.ParseLine | src/days/day20.rs:66-84 | a parsed line gives a name of lower-case letters; a line the pattern does not match panics on `unwrap` |
| Day20.ParseLineText | src/days/day20.rs:66-84 | a line written from a type, a name and a non-empty list of names parses back to them, with the handler the type and name select |
| Day20.TypeLengthOf | src/days/day20.rs:66 | the type group read from a type followed by a name is the type |
| Day20.JoinedNames | src/days/day20.rs:66-72 | names joined by ", " are made of `[a-z, ]` only |
| Day20.ListOfNames | src/days/day20.rs:66-72 | names joined by ", " are one whole run of `[a-z, ]` and split at ", " back into the names |
| Day20.AddMissing | src/days/day20.rs:86-94 | every destination becomes a module; existing modules are kept and new ones have no type and no destinations |
| Day20.Collected | src/days/day20.rs:69-102 | the first loop panics only on a line the pattern does not match |
| Day20.CollectedClosed | src/days/day20.rs:69-102 | after the first loop every destination is a module and every conjunction remembers nothing |
| Day20.RegisteredAdd | src/days/day20.rs:49-56 | adding one more source registers it with the others |
| Day20.Linked | src/days/day20.rs:104-109 | the sweep panics "already borrowed" exactly when a module lists itself, and otherwise keeps the module names |
| Day20.ModulesLinked | src/days/day20.rs:65-112 | after `parse_modules` every destination is a module, and every conjunction remembers, as low, exactly the modules that send to it |
| Day20.Machine.constructor | src/days/day20.rs:65-67 | the machine holds the modules given |
| Day20.Machine.Handle | src/days/day20.rs:19-36 | `handle` replaces the module's handler by the handled one and returns the pulse it sends; nothing else changes |
| Day20.Machine.Val | src/days/day20.rs:38-47 | `val` returns the stored pulse and clears it, or panics on a typed module |
| Day20.Machine.AddSrc | src/days/day20.rs:49-56 | `add_src` changes only that module's handler, as `WithSource` does |
| Day20.CollectedPanics | src/days/day20.rs:69-70 | the first line that fails to parse decides the result |
| Day20.ParseModules | src/days/day20.rs:65-112 | `parse_modules` gives a fresh machine holding `Modules(lines)`, or its panic |
| Day20.CollectModules | src/days/day20.rs:69-102 | the first loop computes `Collected` |
| Day20.AddMissingNext | src/days/day20.rs:87-94 | one more destination is added exactly when it is missing |
| Day20.AddMissingModules | src/days/day20.rs:87-94 | the destination loop computes `AddMissing` |
| Day20.LinkModules | src/days/day20.rs:104-109 | the sweep, in any order over the names, gives `Linked` or its self-loop panic |
| Day20.SweepOne | src/days/day20.rs:105-108 | one turn of the sweep visits one more module and keeps the registration invariant, or finds a module listing itself |
| Day20.SweepSets | src/days/day20.rs:105 | visiting a module moves it from the names left to those done |
| Day20.RegisteringNone | src/days/day20.rs:104 | the registration invariant holds before the sweep |
| Day20.RegisteringAll | src/days/day20.rs:109-111 | when every module is done, the network is `Linked` |
| Day20.RegisteringBegin | src/days/day20.rs:105-106 | starting on a module keeps the registration invariant |
| Day20.RegisteringStep | src/days/day20.rs:107 | one `add_src` keeps the registration invariant |
| Day20.RegisteringNext | src/days/day20.rs:106-108 | finishing a module's destinations keeps the invariant with that module done |
| Day20.HeardAdd | src/days/day20.rs:105-108 | a module done adds itself to the heard sources of exactly its destinations |
| Day20.RegisterWith | src/days/day20.rs:106-108 | the inner loop for one module registers it with each destination, failing exactly when it lists itself |
| Day20.Emit | src/days/day20.rs:140-147 | one pulse per destination, of the sent level, in list order |
| Day20.QueueShift | src/days/day20.rs:137-146 | moving the head of the queue to the handled pulses keeps their order |
| Day20.DrainStep | src/days/day20.rs:137-148 | one step takes the head of the queue, handles it, and appends what it sends |
| Day20.DrainFifo | src/days/day20.rs:137-148 | pulses are handled in the order they joined the queue |
| Day20.DrainKeepsWiring | src/days/day20.rs:137-148 | handling pulses changes handlers only, never names or destinations |
| Day20.DrainNoPanic | src/days/day20.rs:138 | when every destination is a module, a press never panics on the lookup |
| Day20.Count | src/days/day20.rs:141-145 | the pulses of one level are at most all pulses |
| Day20.CountConcat | src/days/day20.rs:141-145 | counts add up over concatenation |
| Day20.PressesLows | src/days/day20.rs:134-135 | every press sends at least its own low pulse |
| Day20.PressesNoPanic | src/days/day20.rs:132-150 | on a closed network with a broadcaster the presses never panic, and the network stays so |
| Day20.Pass | src/days/day20.rs:138-147 | one pulse off the queue is handled as `Delivered` says, and what it sends is counted by level |
| Day20.PressOnce | src/days/day20.rs:133-149 | one press is one `Drain` from the button pulse, counted by level |
| Day20.Forward | src/days/day20.rs:137-148 | one turn of the queue loop is one step of `Drain`, and the counts follow the pulses |
| Day20.PassKeeps | src/days/day20.rs:137-148 | handling the head keeps the rest of the press and the counts |
| Day20.DrainEnds | src/days/day20.rs:137 | where the queue loop stops, `Drain` has its answer at once |
| Day20.PushButton | src/days/day20.rs:128-152 | the press loop answers the product of the low and high counts of `Presses` and leaves the network it ends with |
| Day20.PressesNext | src/days/day20.rs:132-150 | press k + 1 is one `Drain` from the network after k presses |
| Day20.PressesStays | src/days/day20.rs:132-150 | once a press panics or runs out, so do all later counts |
| Day20.Part1 | src/days/day20.rs:124-153 | part one is the product of the low and high pulse counts over the presses of the parsed network, or the parsing panic |
| Day21.LastS | src/days/day21.rs:19-23 | the last `S` of a row, or None when the row has none |
| Day21.StartOf | src/days/day21.rs:17-24 | the start is the last `S` in row-major order, or (0, 0) when there is none |
| Day21.FindStart | src/days/day21.rs:17-24 | the nested scan finds `StartOf` |
| Day21.TowardAdjacent | src/days/day21.rs:43-44 | the four directions give exactly the four neighbours |
| Day21.QueuedByGrows | src/days/day21.rs:50 | what has been queued stays queued as the queue grows |
| Day21.CellsShrink | src/days/day21.rs:48-49 | visiting a new cell leaves one fewer unvisited cell |
| Day21.AnswersNext | src/days/day21.rs:35-37 | taking one more entry adds its position to the answers exactly when its steps are even |
| Day21.VisitedPush | src/days/day21.rs:49-50 | queuing a position marks it visited |
| Day21.Offer | src/days/day21.rs:46-52 | a neighbour inside the bounds that is not a rock and not visited is queued with one step fewer and marked visited; otherwise nothing changes; a short row panics |
| Day21.VisitedQueuedBy | src/days/day21.rs:48 | a visited position was queued by an entry no later than the current one |
| Day21.PushKeepsSearch | src/days/day21.rs:49-50 | queuing a move to an unvisited position keeps the search well formed |
| Day21.Explore | src/days/day21.rs:26-55 | the answers are exactly the plots reachable within the target with an even number of moves left over; every entry is expanded; a panic means a short row |
| Day21.Dequeue | src/days/day21.rs:34-54 | one turn takes the front entry, records it as an answer when its steps are even, and expands it unless none are left; the unvisited cells and the queue shrink |
| Day21.ExpandedIdle | src/days/day21.rs:39-41 | an entry with no steps left needs no expansion |
| Day21.ExpandedNext | src/days/day21.rs:43-54 | an entry is expanded once every neighbouring plot has been queued |
| Day21.Expand | src/days/day21.rs:43-54 | the loop over directions queues every neighbouring plot not yet visited |
| Day21.OfferToward | src/days/day21.rs:43-54 | one direction of that loop |
| Day21.DirsGrow | src/days/day21.rs:43 | the directions already tried stay queued |
| Day21.PathTo | src/days/day21.rs:34-54 | each queued entry is the end of a walk from the start with one move per step spent |
| Day21.StepsLeft | src/days/day21.rs:39-45 | no entry has negative steps left, nor more than the target |
| Day21.AnswerReachable | src/days/day21.rs:35-37 | every answer ends a walk from the start of at most the target, with an even number of moves left over |
| Day21.WalkParity | src/days/day21.rs:43-44 | every walk between two cells has the parity of their coordinate distance |
| Day21.StepsOrdered | src/days/day21.rs:27-50 | the queue is first in, first out: steps left never increase along it |
| Day21.Reached | src/days/day21.rs:34-54 | every cell of a walk from the start within the target was queued, with at least as many steps left as the walk leaves |
| Day21.AnswersComplete | src/days/day21.rs:34-54 | every plot reachable within the target with an even number left over is an answer |
| Day21.TraceParity | src/days/day21.rs:34-54 | the steps spent reaching an entry have the parity of its distance from the start |
| Day21.SameParity | src/days/day21.rs:35 | the parity argument that lets a queued entry stand for every walk to its position |
| Day21.AnswersExactly | src/days/day21.rs:34-57 | the answers are exactly the plots reachable within the target with an even number of moves left over |
| Day21.Pad | src/days/day21.rs:35 | a walk with an even number of moves to spare stretches to exactly that many moves |
| Day21.AnswersInExactMoves | src/days/day21.rs:26-57 | every plot reachable in exactly the target is an answer, and every answer is, when the start is a plot with a neighbouring plot |
| Day21.Part1 | src/days/day21.rs:7-59 | the answer counts the plots reachable in 64 steps from the start (as `AnswersExactly`); an empty garden panics, a rectangular one never does |
| Day22.IntFields | src/days/day22.rs:14 | one `unwrap`ped `i64` parse per comma-separated piece |
| Day22.IntAvoids | src/days/day22.rs:11-14 | a printed integer holds no separator |
| Day22.ParseCornerText | src/days/day22.rs:12-17 | a printed corner parses back to itself and holds no `~` |
| Day22.CornerFields | src/days/day22.rs:14-15 | the three fields of a printed corner parse back to its coordinates |
| Day22.CornerAvoidsTilde | src/days/day22.rs:11 | a printed corner holds no `~` |
| Day22.ParseBrickText | src/days/day22.rs:10-21 | parsing the text of a brick gives the brick back |
| Day22.ParseBrickNoTilde | src/days/day22.rs:11 | a line without `~` panics on `unwrap` |
| Day22.IntersectSymmetric | src/days/day22.rs:24-28 | `bricks_intersect` is symmetric |
| Day22.IntersectCommonColumn | src/days/day22.rs:24-28 | two bricks intersect exactly when some (x, y) column lies under both |
| Day22.WithLowAppend | src/days/day22.rs:33-37 | the bricks of one lowest z split over concatenation |
| Day22.InsertElements | src/days/day22.rs:33-37 | inserting keeps every brick and adds the new one |
| Day22.InsertSorted | src/days/day22.rs:33-37 | inserting keeps the bricks ordered by lowest z |
| Day22.InsertWithLow | src/days/day22.rs:33-37 | inserting puts the brick after every brick with its lowest z |
| Day22.SortByLowSpec | src/days/day22.rs:33-37 | the stable sort is a permutation ordered by lowest z that keeps bricks of equal lowest z in input order |
| Day22.MaxTop | src/days/day22.rs:42-51 | the largest top-plus-one among earlier overlapping bricks, attained by one of them; None exactly when none overlaps |
| Day22.Floor | src/days/day22.rs:42-51 | a brick comes to rest strictly above every earlier brick it overlaps, one above one of them, or on the floor at 1 when it overlaps none |
| Day22.Fall | src/days/day22.rs:30-61 | each brick of the sorted copy is dropped along z, keeping its height, to rest one above the highest earlier overlapping brick or on the floor at 1 |
| Day22.SettledNext | src/days/day22.rs:39-58 | settling one more brick extends the settled prefix |
| Day22.Resting | src/days/day22.rs:39-58 | every settled brick lies strictly above each earlier brick it overlaps, and rests exactly on one of them unless it is on the floor |
| Day22.Supporting | src/days/day22.rs:63-73 | the increasing indices of exactly the bricks whose top is just under the brick's bottom and that overlap it |
| Day22.Supported | src/days/day22.rs:75-85 | the increasing indices of exactly the bricks whose bottom is just over the brick's top and that overlap it |
| Day22.SupportMirror | src/days/day22.rs:63-85 | i holds up j exactly when j rests on i |
| Day22.NoSelfSupport | src/days/day22.rs:66-78 | no brick holds itself up |
| Day22.TwoDistinct | src/days/day22.rs:115 | two different supporters make at least two |
| Day22.RemovableMeaning | src/days/day22.rs:109-118 | a brick is counted exactly when every brick resting on it also rests on another brick |
| Day22.CountRemovable | src/days/day22.rs:109-118 | the count is the number of counted bricks |
| Day22.Part1 | src/days/day22.rs:94-121 | the answer is the number of settled bricks whose removal leaves every brick above still held up, or the first parsing panic |
| Day23.BeforeNext | src/days/day23.rs:5-6 | the row-major scan order advances one tile at a time |
| Day23.CountAroundSet | src/days/day23.rs:9-14 | the neighbour count is the number of neighbours that pass the test |
| Day23.CountAroundPanic | src/days/day23.rs:11 | a panic in the count is an out-of-bounds read of a row shorter than the first |
| Day23.FirstPanic | src/days/day23.rs:11 | the first failing read decides the count's panic |
| Day23.NodeAtMeaning | src/days/day23.rs:7-18 | a tile is a junction exactly when it is not forest and more than two neighbours with positive row and column are open |
| Day23.NodeAtPanic | src/days/day23.rs:7-11 | the junction test panics only on a short row |
| Day23.NodeOffBorder | src/days/day23.rs:11 | because the test wants a strictly positive row and column, no junction lies on the top row or left column |
| Day23.PositiveAroundBorder | src/days/day23.rs:11 | a tile on the top row or left column has at most one neighbour with positive row and column |
| Day23.CountAroundPositive | src/days/day23.rs:11-12 | the count never exceeds the neighbours with positive row and column |
| Day23.CellIsNode | src/days/day23.rs:7-18 | the inner loop for one tile decides the junction test |
| Day23.ScanRow | src/days/day23.rs:6-19 | one row of the scan appends exactly that row's junctions, in order |
| Day23.FindNodes | src/days/day23.rs:3-22 | `find_nodes` returns exactly the junctions, in row-major order; it panics only on a short row |
| Day23.FirstDot | src/days/day23.rs:39-40 | the first `.` of a row, or None when it has none |
| Day23.StartEnd | src/days/day23.rs:39-40 | the start is the first `.` of the top row and the end the first `.` of the bottom row; an empty grid panics on the index, a row without `.` on the unwrap |
| Day23.AvailDirsAllows | src/days/day23.rs:46-55 | `avail_dirs` panics "Unexpected char. " exactly on a tile that is neither path nor slope, and otherwise lists each allowed step once |
| Day23.InCells | src/days/day23.rs:77 | a tile inside the bounds is one of the cells |
| Day23.TreeInCells | src/days/day23.rs:61-83 | every tile the search reaches lies inside the bounds |
| Day23.PositionsPush | src/days/day23.rs:78 | pushing an entry adds its tile to the stacked positions |
| Day23.SearchingPush | src/days/day23.rs:77-79 | pushing an allowed, unseen neighbour keeps the search invariant and sees one more tile |
| Day23.TreePush | src/days/day23.rs:78-79 | the pushed tile hangs from the tile it was reached from, one step further |
| Day23.ClosedGrow | src/days/day23.rs:61-83 | the tiles handled stay closed as more tiles are seen |
| Day23.PendingPush | src/days/day23.rs:78-79 | the stack stays distinct, unhandled and with the right step counts |
| Day23.StepDir | src/days/day23.rs:75-76 | every allowed step goes in one of the tile's directions |
| Day23.TowardStep | src/days/day23.rs:76-77 | a step the tile allows to an open tile is a step of the walk |
| Day23.Offer | src/days/day23.rs:76-80 | the neighbour in one direction is pushed one step further exactly when it is open and unseen; a short row panics |
| Day23.SearchingDone | src/days/day23.rs:75-81 | once every allowed neighbour is seen the tile is handled |
| Day23.ExpandAt | src/days/day23.rs:76-80 | one direction keeps the search invariant and leaves its open neighbour seen |
| Day23.SeenThrough | src/days/day23.rs:75 | the open neighbours in the directions tried stay seen |
| Day23.Expand | src/days/day23.rs:75-81 | the direction loop pushes every allowed, open, unseen neighbour and handles the tile |
| Day23.SearchingStart | src/days/day23.rs:62-63 | the search starts from the node alone |
| Day23.PendingPop | src/days/day23.rs:65 | the popped entry is unhandled, carries its step count and appears nowhere else on the stack |
| Day23.ZeroIsStart | src/days/day23.rs:62-66 | only the starting node has step count 0, so `n != 0` excludes exactly it |
| Day23.ClosedSkip | src/days/day23.rs:66-73 | a node the search stops at needs no closing |
| Day23.RecordedEdge | src/days/day23.rs:66-72 | stopping at a node other than the start records its edge with its step count |
| Day23.RecordedGrow | src/days/day23.rs:75-81 | walking past a tile records nothing and keeps the recorded step counts |
| Day23.SearchingEnd | src/days/day23.rs:65 | with the stack empty the search is finished and its edges are every node seen other than the start |
| Day23.Shrinks | src/days/day23.rs:65-82 | seeing a new tile leaves fewer to see |
| Day23.PopNode | src/days/day23.rs:65-73 | popping a node other than the start records its edge and handles it |
| Day23.PopTile | src/days/day23.rs:65-75 | popping any other tile leaves it to be walked past |
| Day23.VisitTile | src/days/day23.rs:75-81 | a tile walked past pushes its allowed neighbours; a tile whose character is not a path or a slope panics with "Unexpected char. ", and a known tile on a rectangular grid never panics |
| Day23.Visit | src/days/day23.rs:65-82 | one turn of the stack loop keeps the search invariant and sees more or shrinks the stack; an "Unexpected char. " panic means the search has reached a tile of unknown character |
| Day23.Explore | src/days/day23.rs:61-83 | the edges from one node are every other node that a node-free walk reaches, each weighted by the step count the search recorded; an "Unexpected char. " panic means a node-free walk from the node reaches a tile of unknown character, and an index panic means a ragged grid |
| Day23.PathTo | src/days/day23.rs:61-83 | the walk recorded from the node to a seen tile has one step per step counted |
| Day23.WalkSeen | src/days/day23.rs:61-83 | a finished search sees every tile of a node-free walk from the node |
| Day23.EdgesComplete | src/days/day23.rs:61-83 | every node a node-free walk from the start node reaches gets an edge |
| Day23.EdgeWalk | src/days/day23.rs:61-83 | every edge is the length of a node-free walk that repeats no tile |
| Day23.AddSearch | src/days/day23.rs:61-83 | adding a finished search's edges keeps every edge witnessed and extends completeness to that node |
| Day23.AddWitnessed | src/days/day23.rs:67-71 | added edges have their walks |
| Day23.AddComplete | src/days/day23.rs:67-71 | added edges make the graph complete for that node |
| Day23.BuildGraph | src/days/day23.rs:57-83 | the graph holds the end and every node with an edge; every edge is witnessed by a node-free walk, and every node a node-free walk reaches from a node is an edge; an "Unexpected char. " panic means some node reaches a tile of unknown character |
| Day23.InUniverse | src/days/day23.rs:94-106 | every edge end is a position of the graph |
| Day23.Fewer | src/days/day23.rs:95 | marking a new position leaves fewer unmarked |
| Day23.FirstTaken | src/days/day23.rs:96-103 | the best over the edges combines the first edge taken with the best over the rest |
| Day23.CombineSwap | src/days/day23.rs:103 | taking the maximum does not depend on order |
| Day23.BestOverRemove | src/days/day23.rs:96-103 | any edge may be taken first: the order of the map does not change the result |
| Day23.BestOverAtLeast | src/days/day23.rs:100-103 | no edge is worth more than the best |
| Day23.BestOverWitness | src/days/day23.rs:100-103 | a positive best is the value of one of the edges |
| Day23.LongestUpper | src/days/day23.rs:94-106 | no route from the key avoiding the seen set weighs more than `dfs` returns |
| Day23.LongestAttained | src/days/day23.rs:94-106 | some route from the key avoiding the seen set weighs exactly what `dfs` returns |
| Day23.ThroughValue | src/days/day23.rs:101 | an edge to a position on the route is worth 0, any other its weight plus the best from there |
| Day23.TakeEdge | src/days/day23.rs:100-103 | taking one more edge updates the running best |
| Day23.TakePanic | src/days/day23.rs:97-98 | an edge whose search panics on the missing key makes `dfs` panic |
| Day23.Dfs | src/days/day23.rs:94-106 | `dfs` computes the longest route value (`Longest`) and leaves the seen set as it found it |
| Day23.NodeInGrid | src/days/day23.rs:17 | a junction lies in the grid |
| Day23.LongestFrom | src/days/day23.rs:55-87 | the graph built over the nodes is witnessed and complete and the answer is `dfs` from the start; an "Unexpected char. " panic means some node reaches a tile of unknown character, an `unwrap` panic is that of `dfs`, and an index panic means a ragged grid |
| Day23.Part1 | src/days/day23.rs:32-90 | the nodes are the start, the end and exactly the junctions; the graph is witnessed and complete; the answer is `dfs` from the start with nothing seen; an index panic means an empty or ragged grid, an "Unexpected char. " panic a tile of unknown character reachable from a node, and an `unwrap` panic a missing start or end or the panic of `dfs` itself |
| Strings.Split | src/days/day15.rs:9 | `str::split`: at least one piece, none containing the separator |
| Strings.JoinSplit | src/days/day15.rs:9 | joining the pieces with the separator gives the text back: the split loses nothing |
| Strings.SplitJoinBy | src/days/day20.rs:72 | splitting pieces joined by a separator none of them contains gives the pieces back |
| Strings.SplitOnce | src/days/day19.rs:50 | `str::split_once`: None exactly when the separator does not occur; otherwise the text is the part before its first occurrence, the separator and the rest |
| Strings.SplitOnceBy | src/days/day22.rs:11 | splitting at the first separator of `a + sep + b` gives `a` and `b` when `a` does not contain it |
| Strings.Trim | src/days/day4.rs:30 | `str::trim`: no whitespace at either end, and no character that was not there |
| Strings.Words | src/days/day9.rs:26 | `split_whitespace`: non-empty words without whitespace |
| Strings.Lines | src/days/day8.rs:11 | `str::lines`: no line holds a newline |
| Strings.ParseNat | src/days/day12.rs:13 | parsing succeeds on a non-empty run of digits, with its decimal value |
| Strings.NatToString | src/days/day12.rs:13 | a printed number is a non-empty run of digits without a leading zero |
| Strings.ParseNatToString | src/days/day12.rs:13 | parsing a printed number gives it back |
| Strings.ParseIntToString | src/days/day22.rs:14 | parsing a printed integer, sign included, gives it back |
| Numbers.SumAtLeastTerms | src/days/day4.rs:71 | a sum of non-negative terms is non-negative, at least each term, and zero when every term is |
| Numbers.GcdDivides | src/days/day8.rs:107 | the greatest common divisor is positive and divides both |
| Numbers.Lcm | src/days/day8.rs:107 | `lcm` of two positive numbers is positive and a multiple of both (being the least such multiple is not proved) |
| Grids.Cell | src/days/day10.rs:45 | a cell is read exactly inside the grid, with its character |
| Grids.NeighboursOf | src/days/day10.rs:45 | the four orthogonal neighbours, each None outside the grid |
| Grids.Transpose | src/days/day14.rs:26-28 | the transpose of a rectangular grid: its rows are the columns |
| Grids.TransposeTwice | src/days/day14.rs:26-28 | transposing twice gives back a rectangular grid with at least one column |

## Left out

- Printing, progress bars and `rayon` parallel iteration are left out; they do not change any answer.
- Reading the puzzle input (`include_str!`, `grid_from_file`, `read_to_string`) is replaced by parameters.
- The per-line driver sums of the day 2, day 7 and day 9 tests (the sum of game ids, powers, winnings and extrapolations over the input) are not modelled. The per-line values they add up are: `Day2.GameValue`, `Day2.GamePowerValue`, `Day7.Rank` and `Day9.Extrapolate`.
- LocationResults and LowestLocation (Day 5): the part-one answer folds the corrected map (`MapFixed`), not `map` as written. The fold as written is `LocationAsWritten` and `LowestLocationAsWritten`. `LocationAgrees` and `LowestAgrees` prove that both give the same answer when no step meets the end of a range.
- Numbers.Lcm: only that the result is a positive common multiple is proved, not that it is the least one.
- Day 3 iterates over a `HashMap` of numbers, whose order is unspecified. The model takes the numbers in row-major order.
- Day 20 part 2 is not modelled. It multiplies cycle lengths that hold only for the particular puzzle input.
- NeighboursOf: the external `aoctk::grid::GridNeighbours` source is not part of this model. Its behaviour is given an assumed specification: the four orthogonal neighbours, with `None` outside the grid (grids.dfy:1-7, 42).
- Transpose: the external `aoctk` transpose is likewise not part of this model. It is assumed to transpose a rectangular grid (grids.dfy:50) and requires one.
- ParseLine (Day 20): the source matches its regular expression unanchored, so `" a -> b"` and `"x%a -> b"` parse there (key `a`). The model reads the pattern from the start of the line and panics with `UnwrapNone` on them.
- ParseLine (Day 18) and Part1 (Day 18): `i32` arithmetic overflow is not modelled; the coordinates and the shoelace sum are unbounded integers.
- PartFromStr, EvalRule and Sort (Day 19): `i32` parse overflow (`parse::<i32>().unwrap()`) and overflow of the `i32` total are not modelled. Numbers are unbounded.
- ParseBrick (Day 22): `i64` parse overflow is not modelled. `Strings.ParseInt` is unbounded.
- Dfs (Day 23): overflow of the `u64` path sums is not modelled.
- StepsUntil (Day 8): the walk to the end node loops forever in the source when the end is never reached. The model takes `fuel` and answers `Ok(None)` when the fuel runs out; Part1 and Part2 of Day 8 inherit the bound.
- Part1 (Day 10) and Walk (Day 10): the walk around the pipe loop takes `fuel`. With too little fuel the answer is `Ok(None)`, where the source would keep walking. Part2 and MarkLoop of Day 10 take the same bound.
- TileEnergies (Day 16): the beam loop takes `fuel`, and Part1 of Day 16 inherits it. A run out of fuel answers `Ok(None)`.
- Run (Day 19): following workflows takes `fuel`. A cycle among workflows, which loops forever in the source, answers `Ok(None)` here. `Visit`, `Total`, `Route`, `Sort` and `Part1` inherit the bound.
- Drain and Presses (Day 20): the pulse queue and the button presses take `fuel`. A pulse storm that never ends in the source answers `Ok(None)`. `PressOnce`, `PushButton` and `Part1` inherit the bound.
- Search (Day 17): the number of heap pops is bounded by `fuel`, and `Ok(None)` means it ran out. The source's loop ends because each state is expanded once; that bound on the number of states is not proved. `Solve` inherits the bound.
- Explore (Day 23): an edge's weight is proved to be the length of some walk between the two nodes that passes no other node. It is the step count at which the last-in-first-out search first reaches the node only when the corridor between the two nodes is unique. The stack order of `pop_back` is not pinned further.
- Explore (Day 21) requires a non-empty garden. The source panics on `garden[0]` for an empty one.
- TiltNorth (Day 14) requires a rectangular grid with at least one row and one column, as the puzzle input is. The source would panic indexing a short row.

## Findings

| source | as written | input that shows it | evidently intended | confidence | as-written member | corrected member |
|---|---|---|---|---|---|---|
| src/days/day3.rs:35 | a number's length is computed from its value (`checked_ilog10() + 1`), so a number with a leading zero is scanned one cell short and its own last digit counts as a symbol next to it | the row `07` with no symbol: the written sum is 7 | the length of the digit run in the schematic, which gives 0 | not executed | Day3.PartNumberSumAsWritten, Day3.LeadingZeroCounted | Day3.PartNumberSum, Day3.NoLeadingZerosAgree |
| src/days/day5.rs:49 | a range covers `src_start + length` itself (`diff <= r.length`) | range `50 98 2` and seed 100: mapped to 52, outside the destination 50..51 | `diff < r.length`, so 100 stays 100 | not executed | Day5.Map, Day5.OnePastTheEnd, Day5.LocationAsWritten, Day5.SevenMapsOnePastTheEnd | Day5.MapFixed, Day5.MapFixedInDestination, Day5.Location, Day5.LocationAgrees |
| src/days/day9.rs:7 | the recursion stops when the differences sum to zero | the series 1, 2, 1: differences 1, -1 sum to zero and the answer is 1 | stop when every difference is zero, which gives -2 and keeps the third differences zero | not executed | Day9.ExtrapolateNext, Day9.ExtrapolateNextOneTwoOne, Day9.WrittenStopsEarly | Day9.Extrapolate, Day9.ExtrapolateOneTwoOne, Day9.ExtrapolateKeepsZeroLevel |
| src/days/day11.rs:22 | the empty-column scan ranges over `0..lines.len() - 1`, the row count less one | the one-row image `#.#` with expansion 2: column 1 is not widened and the answer is 2 | every column `0..width`, which gives 3 | not executed | Day11.AnswerAsWritten, Day11.GalaxiesAsWritten, Day11.WideAnswerAsWritten | Day11.Answer, Day11.Galaxies, Day11.WideAnswer |
