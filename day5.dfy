/** Day 5: the almanac. Each map is a list of ranges "dest src len"; a
    number is sent through the first range that covers it, or kept as it is,
    and a seed's location is the result of the seven maps applied in order.
    The written range test includes `src + len` itself, one past the range
    (see the README's findings). `LocationAsWritten` folds the written `Map`;
    `Location`, used by the part-one answer, folds the corrected `MapFixed`, and
    `LocationAgrees` shows the two folds agree whenever no step meets the end
    of a range. */
module Day5 {
  import opened Wrappers
  import opened Strings

  const MapOrder: seq<string> := [
    "seed-to-soil",
    "soil-to-fertilizer",
    "fertilizer-to-water",
    "water-to-light",
    "light-to-temperature",
    "temperature-to-humidity",
    "humidity-to-location"
  ]

  datatype MapRange = MapRange(srcStart: int, destStart: int, length: int)

  datatype AlmanacMap = AlmanacMap(ranges: seq<MapRange>, name: Option<string>)

  // ----------------------------------------------------------------- parsing

  /** `split_re.split(s).map(|str| str.parse::<u64>().unwrap()).collect()`. */
  function ParseNats(s: string): Result<seq<nat>> {
    Collect(NatResults(SplitRuns(s, ' ')))
  }

  /** `AlmanacMapRange::parse`: the first number is the destination start,
      the second the source start, the third the length; fewer than three
      numbers index out of bounds. */
  function ParseRange(input: string): Result<MapRange> {
    var segs :- ParseNats(input);
    if |segs| < 3 then Panic(IndexOutOfBounds)
    else Ok(MapRange(segs[1], segs[0], segs[2]))
  }

  /** Numbers written with single spaces parse back to themselves. */
  lemma ParseNatsJoin(xs: seq<nat>)
    requires |xs| > 0
    ensures ParseNats(Join(Numerals(xs), " ")) == Ok(xs)
  {
    var ns := Numerals(xs);
    NumeralsAvoid(xs, ' ');
    SplitRunsJoin(ns, ' ');
    var rs := NatResults(ns);
    forall k | 0 <= k < |xs| ensures rs[k] == Ok(xs[k]) {
      ParseNatToString(xs[k]);
    }
    CollectAllOk(rs, xs);
  }

  /** A range line as the almanac writes it. */
  function FormatRange(dest: nat, src: nat, len: nat): string {
    Join(Numerals([dest, src, len]), " ")
  }

  /** Every written range line parses back to its three numbers, in the
      order destination, source, length. */
  lemma ParseFormatRange(dest: nat, src: nat, len: nat)
    ensures ParseRange(FormatRange(dest, src, len)) == Ok(MapRange(src, dest, len))
  {
    ParseNatsJoin([dest, src, len]);
  }

  /** A map chunk: its title with " map:" removed, then one range per line;
      an empty chunk panics. */
  function ParseMap(chunk: seq<string>): Result<AlmanacMap> {
    if chunk == [] then Panic(UnwrapNone)
    else
      var name := Replace(chunk[0], " map:", "");
      var ranges :- Collect(RangeResults(chunk[1..]));
      Ok(AlmanacMap(ranges, Some(name)))
  }

  function RangeResults(lines: seq<string>): (r: seq<Result<MapRange>>)
    ensures |r| == |lines| && forall k :: 0 <= k < |lines| ==> r[k] == ParseRange(lines[k])
  {
    seq(|lines|, k requires 0 <= k < |lines| => ParseRange(lines[k]))
  }

  function MapResults(chunks: seq<seq<string>>): (r: seq<Result<AlmanacMap>>)
    ensures |r| == |chunks| && forall k :: 0 <= k < |chunks| ==> r[k] == ParseMap(chunks[k])
  {
    seq(|chunks|, k requires 0 <= k < |chunks| => ParseMap(chunks[k]))
  }

  /** `parse_input` on the chunks of the file (runs of lines separated by
      blank lines): the seeds from the first line of the first chunk, then a
      map per later chunk. */
  function ParseInput(chunks: seq<seq<string>>): (r: Result<(seq<nat>, seq<AlmanacMap>)>)
    ensures chunks == [] || chunks[0] == [] ==> r == Panic(UnwrapNone)
    ensures r.Ok? ==> |r.value.1| == |chunks| - 1
    ensures r.Ok? ==> forall k :: 1 <= k < |chunks| ==> ParseMap(chunks[k]) == Ok(r.value.1[k - 1])
    ensures chunks != [] && chunks[0] != [] && ParseNats(Replace(chunks[0][0], "seeds: ", "")).Ok? ==>
      (r.Ok? <==> forall k :: 1 <= k < |chunks| ==> ParseMap(chunks[k]).Ok?)
  {
    if chunks == [] || chunks[0] == [] then Panic(UnwrapNone)
    else
      var seeds :- ParseNats(Replace(chunks[0][0], "seeds: ", ""));
      var maps :- Collect(MapResults(chunks[1..]));
      Ok((seeds, maps))
  }

  /** A title `name + " map:"` gives the name back when the name has no ':'. */
  lemma ReplaceTitle(name: string)
    requires ':' !in name
    ensures Replace(name + " map:", " map:", "") == name
  {
    assert " map:"[..4] == " map";
    SplitFirstBy(name, " map:", [], 4);
    assert name + " map:" + [] == name + " map:";
    assert Split(name + " map:", " map:") == [name, []];
  }

  /** Removing the "seeds: " prefix from a line with no other ':'. */
  lemma ReplaceSeedsPrefix(rest: string)
    requires ':' !in rest
    ensures Replace("seeds: " + rest, "seeds: ", "") == rest
  {
    SplitFirst([], "seeds: ", rest);
    assert [] + "seeds: " + rest == "seeds: " + rest;
    NotContainsAt(rest, "seeds: ", 5);
    SplitAbsent(rest, "seeds: ");
    assert Split("seeds: " + rest, "seeds: ") == [[], rest];
  }

  /** The seeds line gives the seeds back. */
  lemma ParseSeeds(seeds: seq<nat>)
    requires |seeds| > 0
    ensures ParseNats(Replace("seeds: " + Join(Numerals(seeds), " "), "seeds: ", "")) == Ok(seeds)
  {
    var ns := Numerals(seeds);
    NumeralsAvoid(seeds, ':');
    JoinAvoids(ns, " ", ':');
    ReplaceSeedsPrefix(Join(ns, " "));
    ParseNatsJoin(seeds);
  }

  /** A map chunk written as the almanac writes it parses back. */
  lemma ParseFormatMap(name: string, lines: seq<(nat, nat, nat)>)
    requires ':' !in name
    ensures ParseMap([name + " map:"] + FormatLines(lines)) ==
      Ok(AlmanacMap(Ranges(lines), Some(name)))
  {
    var chunk := [name + " map:"] + FormatLines(lines);
    ReplaceTitle(name);
    assert chunk[1..] == FormatLines(lines);
    var rs := RangeResults(chunk[1..]);
    forall k | 0 <= k < |lines| ensures rs[k] == Ok(Ranges(lines)[k]) {
      ParseFormatRange(lines[k].0, lines[k].1, lines[k].2);
    }
    CollectAllOk(rs, Ranges(lines));
  }

  function FormatLines(lines: seq<(nat, nat, nat)>): (r: seq<string>)
    ensures |r| == |lines|
    ensures forall k :: 0 <= k < |lines| ==> r[k] == FormatRange(lines[k].0, lines[k].1, lines[k].2)
  {
    seq(|lines|, k requires 0 <= k < |lines| => FormatRange(lines[k].0, lines[k].1, lines[k].2))
  }

  function Ranges(lines: seq<(nat, nat, nat)>): (r: seq<MapRange>)
    ensures |r| == |lines|
    ensures forall k :: 0 <= k < |lines| ==> r[k] == MapRange(lines[k].1, lines[k].0, lines[k].2)
  {
    seq(|lines|, k requires 0 <= k < |lines| => MapRange(lines[k].1, lines[k].0, lines[k].2))
  }

  // ----------------------------------------------------------------- mapping

  /** The written test of `map`: `diff >= 0 && diff <= length`, so the value
      one past the end of the range is covered too. */
  predicate CoversAsWritten(r: MapRange, source: int) {
    var diff := source - r.srcStart;
    diff >= 0 && diff <= r.length
  }

  /** The intended test: the range covers `length` values from `srcStart`. */
  predicate Covers(r: MapRange, source: int) {
    var diff := source - r.srcStart;
    diff >= 0 && diff < r.length
  }

  /** The value a range sends `source` to: `dest_start + diff`. */
  function Shift(r: MapRange, source: int): int {
    r.destStart + (source - r.srcStart)
  }

  /** The first range whose test passes, or None. */
  function FirstHit(ranges: seq<MapRange>, source: int, inclusive: bool): (r: Option<int>)
    decreases |ranges|
  {
    if ranges == [] then None
    else if (if inclusive then CoversAsWritten(ranges[0], source) else Covers(ranges[0], source)) then
      Some(Shift(ranges[0], source))
    else FirstHit(ranges[1..], source, inclusive)
  }

  /** `AlmanacMap::map` as written. It always returns Some. */
  function Map(m: AlmanacMap, source: int): (r: Option<int>)
    ensures r.Some?
  {
    match FirstHit(m.ranges, source, true)
    case Some(v) => Some(v)
    case None => Some(source)
  }

  /** The map with the intended range test. */
  function MapFixed(m: AlmanacMap, source: int): (r: Option<int>)
    ensures r.Some?
  {
    match FirstHit(m.ranges, source, false)
    case Some(v) => Some(v)
    case None => Some(source)
  }

  /** When several ranges pass the test, the first in list order wins. */
  lemma {:induction false} FirstHitWins(ranges: seq<MapRange>, source: int, inclusive: bool, k: nat)
    requires k < |ranges|
    requires if inclusive then CoversAsWritten(ranges[k], source) else Covers(ranges[k], source)
    requires forall j :: 0 <= j < k ==>
      !(if inclusive then CoversAsWritten(ranges[j], source) else Covers(ranges[j], source))
    ensures FirstHit(ranges, source, inclusive) == Some(Shift(ranges[k], source))
    decreases k
  {
    if k > 0 {
      FirstHitWins(ranges[1..], source, inclusive, k - 1);
    }
  }

  /** When no range passes the test, there is no hit. */
  lemma {:induction false} FirstHitNone(ranges: seq<MapRange>, source: int, inclusive: bool)
    requires forall j :: 0 <= j < |ranges| ==>
      !(if inclusive then CoversAsWritten(ranges[j], source) else Covers(ranges[j], source))
    ensures FirstHit(ranges, source, inclusive) == None
    decreases |ranges|
  {
    if ranges != [] {
      FirstHitNone(ranges[1..], source, inclusive);
    }
  }

  /** The map as written: the first range whose test passes decides... */
  lemma MapFirstWins(m: AlmanacMap, source: int, k: nat)
    requires k < |m.ranges| && CoversAsWritten(m.ranges[k], source)
    requires forall j :: 0 <= j < k ==> !CoversAsWritten(m.ranges[j], source)
    ensures Map(m, source) == Some(Shift(m.ranges[k], source))
  {
    FirstHitWins(m.ranges, source, true, k);
  }

  /** ...and the identity applies when none passes. */
  lemma MapIdentity(m: AlmanacMap, source: int)
    requires forall j :: 0 <= j < |m.ranges| ==> !CoversAsWritten(m.ranges[j], source)
    ensures Map(m, source) == Some(source)
  {
    FirstHitNone(m.ranges, source, true);
  }

  /** Range `k` covers `source` and `v` lies in its destination interval. */
  predicate InDestination(ranges: seq<MapRange>, k: int, source: int, v: int) {
    0 <= k < |ranges| && Covers(ranges[k], source) &&
    ranges[k].destStart <= v < ranges[k].destStart + ranges[k].length
  }

  /** A hit of the corrected map comes from a range that covers the source,
      so it lands inside that range's destination interval. */
  lemma {:induction false} FirstHitInDestination(ranges: seq<MapRange>, source: int)
    requires FirstHit(ranges, source, false).Some?
    ensures exists k :: InDestination(ranges, k, source, FirstHit(ranges, source, false).value)
    decreases |ranges|
  {
    if !Covers(ranges[0], source) {
      FirstHitInDestination(ranges[1..], source);
      var k :| InDestination(ranges[1..], k, source, FirstHit(ranges[1..], source, false).value);
      assert ranges[k + 1] == ranges[1..][k];
      assert InDestination(ranges, k + 1, source, FirstHit(ranges, source, false).value);
    } else {
      assert InDestination(ranges, 0, source, FirstHit(ranges, source, false).value);
    }
  }

  /** The intended property: every number the corrected map changes is sent
      into the destination interval of a range covering it. */
  lemma MapFixedInDestination(m: AlmanacMap, source: int)
    ensures MapFixed(m, source).value == source ||
      exists k :: InDestination(m.ranges, k, source, MapFixed(m, source).value)
  {
    if FirstHit(m.ranges, source, false).Some? {
      FirstHitInDestination(m.ranges, source);
    }
  }

  /** The range "50 98 2" covers 98 and 99. As written it also sends 100 to
      52, outside its destination interval 50..51; the corrected map keeps
      100. */
  lemma OnePastTheEnd()
    ensures Map(AlmanacMap([MapRange(98, 50, 2)], None), 100) == Some(52)
    ensures !(50 <= 52 < 50 + 2)
    ensures MapFixed(AlmanacMap([MapRange(98, 50, 2)], None), 100) == Some(100)
  {
  }

  // ---------------------------------------------------------------- locations

  /** `maps.into_iter().map(|m| (m.name.clone().unwrap(), m)).collect()`:
      a later map with the same name replaces an earlier one; a map without a
      name panics. */
  function ByName(maps: seq<AlmanacMap>): (r: Result<map<string, AlmanacMap>>)
    ensures r.Panic? <==> exists k :: 0 <= k < |maps| && maps[k].name.None?
    ensures r.Panic? ==> r.reason == UnwrapNone
  {
    if maps == [] then Ok(map[])
    else
      var init := maps[..|maps| - 1];
      assert forall k :: 0 <= k < |init| ==> init[k] == maps[k];
      var before :- ByName(init);
      var m := maps[|maps| - 1];
      if m.name.None? then Panic(UnwrapNone)
      else Ok(before[m.name.value := m])
  }

  /** `m` is the last of `maps` named `key`. */
  ghost predicate LastNamed(maps: seq<AlmanacMap>, key: string, m: AlmanacMap) {
    exists k :: 0 <= k < |maps| && maps[k].name == Some(key) && maps[k] == m
      && forall j :: k < j < |maps| ==> maps[j].name != Some(key)
  }

  /** The keys are exactly the names of the maps. */
  lemma {:induction false} ByNameKeys(maps: seq<AlmanacMap>)
    requires ByName(maps).Ok?
    ensures forall key :: key in ByName(maps).value <==> exists k :: 0 <= k < |maps| && maps[k].name == Some(key)
    decreases |maps|
  {
    if maps != [] {
      var init := maps[..|maps| - 1];
      assert forall k :: 0 <= k < |init| ==> init[k] == maps[k];
      ByNameKeys(init);
    }
  }

  /** Each key holds the last map with that name: a later map replaces an
      earlier one. */
  lemma {:induction false} ByNameLast(maps: seq<AlmanacMap>, key: string)
    requires ByName(maps).Ok? && key in ByName(maps).value
    ensures LastNamed(maps, key, ByName(maps).value[key])
    decreases |maps|
  {
    var init := maps[..|maps| - 1];
    var m := maps[|maps| - 1];
    var before := ByName(init).value;
    if m.name != Some(key) {
      ByNameLast(init, key);
      var k :| 0 <= k < |init| && init[k].name == Some(key) && init[k] == before[key]
        && forall j :: k < j < |init| ==> init[j].name != Some(key);
      assert maps[k] == init[k];
      assert forall j :: k < j < |maps| - 1 ==> maps[j] == init[j];
      assert LastNamed(maps, key, before[key]);
    } else {
      assert LastNamed(maps, key, m);
    }
  }

  /** The fold over the map names in order: `map_map[key].map(acc).unwrap()`,
      panicking on a name that is not in the map. Each step uses the
      corrected range test (`MapFixed`); see `SevenMapsOnePastTheEnd`. */
  function Location(byName: map<string, AlmanacMap>, order: seq<string>, seed: int): (r: Result<int>)
    ensures r.Ok? <==> forall k :: 0 <= k < |order| ==> order[k] in byName
    ensures r.Panic? ==> r.reason == NoEntry
    decreases |order|
  {
    assert forall k :: 0 <= k < |order| - 1 ==> order[..|order| - 1][k] == order[k];
    if order == [] then Ok(seed)
    else
      var acc :- Location(byName, order[..|order| - 1], seed);
      var key := order[|order| - 1];
      if key !in byName then Panic(NoEntry) else Ok(MapFixed(byName[key], acc).value)
  }

  /** The fold composes: the maps of `a + b` are the maps of `a` and then
      those of `b`. */
  lemma {:induction false} LocationAppend(byName: map<string, AlmanacMap>, a: seq<string>, b: seq<string>, seed: int)
    ensures Location(byName, a + b, seed) ==
      (match Location(byName, a, seed)
       case Ok(v) => Location(byName, b, v)
       case Panic(why) => Panic(why))
    decreases |b|
  {
    if b == [] {
      assert a + b == a;
    } else {
      assert (a + b)[..|a + b| - 1] == a + b[..|b| - 1];
      LocationAppend(byName, a, b[..|b| - 1], seed);
    }
  }

  /** Maps without ranges leave every number alone, so the location is the
      seed itself. */
  lemma {:induction false} EmptyMapsKeepSeed(byName: map<string, AlmanacMap>, order: seq<string>, seed: int)
    requires forall k :: 0 <= k < |order| ==> order[k] in byName && byName[order[k]].ranges == []
    ensures Location(byName, order, seed) == Ok(seed)
    decreases |order|
  {
    if order != [] {
      EmptyMapsKeepSeed(byName, order[..|order| - 1], seed);
    }
  }

  /** The fold as the test writes it: every step through `Map`, with the
      written range test. */
  function LocationAsWritten(byName: map<string, AlmanacMap>, order: seq<string>, seed: int): (r: Result<int>)
    ensures r.Ok? <==> forall k :: 0 <= k < |order| ==> order[k] in byName
    ensures r.Panic? ==> r.reason == NoEntry
    decreases |order|
  {
    assert forall k :: 0 <= k < |order| - 1 ==> order[..|order| - 1][k] == order[k];
    if order == [] then Ok(seed)
    else
      var acc :- LocationAsWritten(byName, order[..|order| - 1], seed);
      var key := order[|order| - 1];
      if key !in byName then Panic(NoEntry) else Ok(Map(byName[key], acc).value)
  }

  /** `source` is not the number one past the end of any range of `m`. */
  predicate ClearOfEnds(m: AlmanacMap, source: int) {
    forall j :: 0 <= j < |m.ranges| ==> source != m.ranges[j].srcStart + m.ranges[j].length
  }

  /** Away from the ends, the written and the intended range tests pick the
      same range. */
  lemma {:induction false} FirstHitAgrees(ranges: seq<MapRange>, source: int)
    requires forall j :: 0 <= j < |ranges| ==> source != ranges[j].srcStart + ranges[j].length
    ensures FirstHit(ranges, source, true) == FirstHit(ranges, source, false)
    decreases |ranges|
  {
    if ranges != [] {
      FirstHitAgrees(ranges[1..], source);
    }
  }

  /** Away from the ends, the written map is the corrected one. */
  lemma MapAgrees(m: AlmanacMap, source: int)
    requires ClearOfEnds(m, source)
    ensures Map(m, source) == MapFixed(m, source)
  {
    FirstHitAgrees(m.ranges, source);
  }

  /** No step of the corrected fold meets the end of a range of its map. */
  ghost predicate FoldClear(byName: map<string, AlmanacMap>, order: seq<string>, seed: int)
    decreases |order|
  {
    order == [] ||
    (var init := order[..|order| - 1];
     var key := order[|order| - 1];
     && FoldClear(byName, init, seed)
     && (Location(byName, init, seed).Ok? && key in byName ==> ClearOfEnds(byName[key], Location(byName, init, seed).value)))
  }

  /** When no step meets the end of a range, the fold as written and the
      corrected fold give the same location. */
  lemma {:induction false} LocationAgrees(byName: map<string, AlmanacMap>, order: seq<string>, seed: int)
    requires FoldClear(byName, order, seed)
    ensures LocationAsWritten(byName, order, seed) == Location(byName, order, seed)
    decreases |order|
  {
    if order != [] {
      var init := order[..|order| - 1];
      var key := order[|order| - 1];
      LocationAgrees(byName, init, seed);
      if Location(byName, init, seed).Ok? && key in byName {
        MapAgrees(byName[key], Location(byName, init, seed).value);
      }
    }
  }

  /** Maps without ranges after the first `n` names leave both folds where
      the first `n` left them. */
  lemma {:induction false} EmptyTail(byName: map<string, AlmanacMap>, order: seq<string>, seed: int, n: nat)
    requires n <= |order|
    requires forall k :: n <= k < |order| ==> order[k] in byName && byName[order[k]].ranges == []
    ensures LocationAsWritten(byName, order, seed) == LocationAsWritten(byName, order[..n], seed)
    ensures Location(byName, order, seed) == Location(byName, order[..n], seed)
    decreases |order|
  {
    if |order| == n {
      assert order[..n] == order;
    } else {
      var init := order[..|order| - 1];
      assert init[..n] == order[..n];
      assert forall k :: n <= k < |init| ==> init[k] == order[k];
      EmptyTail(byName, init, seed, n);
    }
  }

  /** The seven maps, the first holding only "50 98 2" and the others no
      range. */
  function OneRangeAlmanac(): map<string, AlmanacMap> {
    map k | k in MapOrder :: if k == MapOrder[0] then AlmanacMap([MapRange(98, 50, 2)], Some(k)) else AlmanacMap([], Some(k))
  }

  /** Seed 100 through the seven maps: the fold as written sends it to 52, the
      corrected fold leaves it at 100. */
  lemma SevenMapsOnePastTheEnd()
    ensures LocationAsWritten(OneRangeAlmanac(), MapOrder, 100) == Ok(52)
    ensures Location(OneRangeAlmanac(), MapOrder, 100) == Ok(100)
  {
    var byName := OneRangeAlmanac();
    assert MapOrder[0] in byName;
    OnePastTheEnd();
    assert LocationAsWritten(byName, MapOrder[..1], 100) == Ok(52) by {
      assert MapOrder[..1][..0] == [];
    }
    assert Location(byName, MapOrder[..1], 100) == Ok(100) by {
      assert MapOrder[..1][..0] == [];
    }
    forall k | 1 <= k < |MapOrder| ensures MapOrder[k] in byName && byName[MapOrder[k]].ranges == [] {
    }
    EmptyTail(byName, MapOrder, 100, 1);
  }

  function LocationResults(byName: map<string, AlmanacMap>, seeds: seq<nat>): (r: seq<Result<int>>)
    ensures |r| == |seeds|
    ensures forall k :: 0 <= k < |seeds| ==> r[k] == Location(byName, MapOrder, seeds[k])
  {
    seq(|seeds|, k requires 0 <= k < |seeds| => Location(byName, MapOrder, seeds[k]))
  }

  /** `output.into_iter().min().unwrap()`. */
  function Min(xs: seq<int>): (r: Result<int>)
    ensures r.Ok? <==> xs != []
    ensures r.Ok? ==> forall k :: 0 <= k < |xs| ==> r.value <= xs[k]
    ensures r.Ok? ==> exists k :: 0 <= k < |xs| && xs[k] == r.value
  {
    if xs == [] then Panic(UnwrapNone)
    else if |xs| == 1 then Ok(xs[0])
    else
      var m := Min(xs[..|xs| - 1]).value;
      assert forall k :: 0 <= k < |xs| - 1 ==> xs[..|xs| - 1][k] == xs[k];
      Ok(if xs[|xs| - 1] < m then xs[|xs| - 1] else m)
  }

  /** The part-one answer: the lowest location of any seed. */
  function LowestLocation(seeds: seq<nat>, maps: seq<AlmanacMap>): (r: Result<int>)
    ensures r.Ok? ==> ByName(maps).Ok? && seeds != []
    ensures r.Ok? ==> forall k :: 0 <= k < |seeds| ==>
      Location(ByName(maps).value, MapOrder, seeds[k]).Ok? && r.value <= Location(ByName(maps).value, MapOrder, seeds[k]).value
    ensures r.Ok? ==> exists k :: 0 <= k < |seeds| && Location(ByName(maps).value, MapOrder, seeds[k]) == Ok(r.value)
    ensures ByName(maps).Ok? && seeds == [] ==> r == Panic(UnwrapNone)
  {
    var byName :- ByName(maps);
    var locations :- Collect(LocationResults(byName, seeds));
    Min(locations)
  }

  /** The part-one answer as the test computes it, with the fold as written. */
  function LowestLocationAsWritten(seeds: seq<nat>, maps: seq<AlmanacMap>): (r: Result<int>)
    ensures r.Ok? ==> ByName(maps).Ok? && seeds != []
    ensures r.Ok? ==> exists k :: 0 <= k < |seeds| && LocationAsWritten(ByName(maps).value, MapOrder, seeds[k]) == Ok(r.value)
  {
    var byName :- ByName(maps);
    var locations :- Collect(seq(|seeds|, k requires 0 <= k < |seeds| => LocationAsWritten(byName, MapOrder, seeds[k])));
    Min(locations)
  }

  /** When no seed's fold meets the end of a range, the answer as written is
      the corrected one. */
  lemma LowestAgrees(seeds: seq<nat>, maps: seq<AlmanacMap>)
    requires ByName(maps).Ok? ==> forall k :: 0 <= k < |seeds| ==> FoldClear(ByName(maps).value, MapOrder, seeds[k])
    ensures LowestLocationAsWritten(seeds, maps) == LowestLocation(seeds, maps)
  {
    if ByName(maps).Ok? {
      var byName := ByName(maps).value;
      forall k | 0 <= k < |seeds| ensures LocationAsWritten(byName, MapOrder, seeds[k]) == Location(byName, MapOrder, seeds[k]) {
        LocationAgrees(byName, MapOrder, seeds[k]);
      }
      assert seq(|seeds|, k requires 0 <= k < |seeds| => LocationAsWritten(byName, MapOrder, seeds[k])) == LocationResults(byName, seeds);
    }
  }
}
