/** The parts of Rust's `str` API that the puzzle parsers use, over `seq<char>`:
    `find`, `split`, `split_once`, `replace`, `split_whitespace`, `trim`,
    `lines`, `parse` for unsigned and signed integers, and the splits on runs of
    one character that the regular expressions `[ ]+` and `[.]+` perform.
    Integer parsing ignores the overflow of the fixed-width target type. */
module Strings {
  import opened Wrappers

  // ---------------------------------------------------------------- searching

  /** `pat` occurs in `s` starting at index `j`. */
  predicate OccursAt(s: string, pat: string, j: int) {
    0 <= j && j + |pat| <= |s| && s[j..j + |pat|] == pat
  }

  /** `s.find(pat)`: the first index at which `pat` occurs in `s`. */
  function IndexOf(s: string, pat: string): (r: Option<nat>)
    requires |pat| > 0
    ensures r.Some? ==> OccursAt(s, pat, r.value)
    ensures r.Some? ==> forall j :: 0 <= j < r.value ==> !OccursAt(s, pat, j)
    ensures r.None? ==> forall j :: !OccursAt(s, pat, j)
    decreases |s|
  {
    if |s| < |pat| then None
    else if s[..|pat|] == pat then Some(0)
    else
      match IndexOf(s[1..], pat)
      case None =>
        assert forall j :: OccursAt(s, pat, j) ==> j == 0 || OccursAt(s[1..], pat, j - 1);
        None
      case Some(k) =>
        assert forall j :: OccursAt(s, pat, j) ==> j == 0 || OccursAt(s[1..], pat, j - 1);
        assert s[k + 1..k + 1 + |pat|] == s[1..][k..k + |pat|];
        Some(k + 1)
  }

  predicate Contains(s: string, pat: string)
    requires |pat| > 0
  {
    IndexOf(s, pat).Some?
  }

  /** `Contains` holds exactly when the pattern occurs somewhere. */
  lemma ContainsOccurs(s: string, pat: string, j: int)
    requires |pat| > 0 && OccursAt(s, pat, j)
    ensures Contains(s, pat)
  {
  }

  // ---------------------------------------------------------------- splitting

  /** `s.split(sep)` for a non-empty separator: the pieces between the
      non-overlapping occurrences of `sep`, found left to right. */
  function Split(s: string, sep: string): (r: seq<string>)
    requires |sep| > 0
    ensures |r| >= 1
    ensures forall k :: 0 <= k < |r| ==> !Contains(r[k], sep)
    decreases |s|
  {
    match IndexOf(s, sep)
    case None => [s]
    case Some(k) =>
      NoEarlierOccurrence(s, sep, k);
      [s[..k]] + Split(s[k + |sep|..], sep)
  }

  /** The first piece before the first occurrence of `sep` does not contain it. */
  lemma NoEarlierOccurrence(s: string, sep: string, k: nat)
    requires |sep| > 0 && k + |sep| <= |s|
    requires forall j :: 0 <= j < k ==> !OccursAt(s, sep, j)
    ensures !Contains(s[..k], sep)
  {
    var p := IndexOf(s[..k], sep);
    if p.Some? {
      assert s[..k][p.value..p.value + |sep|] == s[p.value..p.value + |sep|];
      assert OccursAt(s, sep, p.value);
    }
  }

  /** The inverse of `Split`: the pieces glued back with the separator. */
  function Join(parts: seq<string>, sep: string): (r: string)
    ensures parts == [] ==> r == []
    ensures |parts| == 1 ==> r == parts[0]
  {
    if parts == [] then []
    else if |parts| == 1 then parts[0]
    else parts[0] + sep + Join(parts[1..], sep)
  }

  /** Splitting loses nothing: joining the pieces gives the string back. */
  lemma {:induction false} JoinSplit(s: string, sep: string)
    requires |sep| > 0
    ensures Join(Split(s, sep), sep) == s
    decreases |s|
  {
    var i := IndexOf(s, sep);
    if i.Some? {
      var k := i.value;
      var rest := s[k + |sep|..];
      var tail := Split(rest, sep);
      JoinSplit(rest, sep);
      assert Split(s, sep) == [s[..k]] + tail;
      calc {
        Join(Split(s, sep), sep);
        Join([s[..k]] + tail, sep);
        { assert ([s[..k]] + tail)[1..] == tail; }
        s[..k] + sep + Join(tail, sep);
        s[..k] + sep + rest;
        { assert s[k..k + |sep|] == sep; }
        s;
      }
    }
  }

  /** When the first occurrence of `sep` in `a + sep + b` is the one after
      `a`, the first piece is `a`. */
  lemma SplitFirst(a: string, sep: string, b: string)
    requires |sep| > 0
    requires forall j :: 0 <= j < |a| ==> !OccursAt(a + sep + b, sep, j)
    ensures Split(a + sep + b, sep) == [a] + Split(b, sep)
  {
    var s := a + sep + b;
    assert s[|a|..|a| + |sep|] == sep;
    assert OccursAt(s, sep, |a|);
    var k := IndexOf(s, sep).value;
    assert k == |a|;
    assert s[..k] == a && s[k + |sep|..] == b;
  }

  /** The same for a one-character separator that does not occur in `a`. */
  lemma SplitFirstChar(a: string, c: char, b: string)
    requires c !in a
    ensures Split(a + [c] + b, [c]) == [a] + Split(b, [c])
  {
    forall j | 0 <= j < |a| ensures !OccursAt(a + [c] + b, [c], j) {
      assert (a + [c] + b)[j] == a[j];
    }
    SplitFirst(a, [c], b);
  }

  /** The same for any separator with a character `sep[m]` that occurs
      neither in `a` nor earlier in `sep`: no occurrence can start inside `a`. */
  lemma SplitFirstBy(a: string, sep: string, b: string, m: nat)
    requires m < |sep| && sep[m] !in a && sep[m] !in sep[..m]
    ensures Split(a + sep + b, sep) == [a] + Split(b, sep)
  {
    var s := a + sep + b;
    forall j | 0 <= j < |a| ensures !OccursAt(s, sep, j) {
      if j + |sep| <= |s| {
        if j + m < |a| {
          assert s[j + m] == a[j + m];
        } else {
          assert s[j + m] == sep[..m][j + m - |a|];
        }
        assert s[j..j + |sep|][m] == s[j + m];
      }
    }
    SplitFirst(a, sep, b);
  }

  /** A character that does not occur is not contained as a one-character
      pattern. */
  lemma NotContainsChar(s: string, c: char)
    requires c !in s
    ensures !Contains(s, [c])
  {
    forall j | 0 <= j < |s| ensures !OccursAt(s, [c], j) {
      assert s[j..j + 1][0] == s[j];
    }
  }

  /** The converse: a character not contained as a pattern does not occur. */
  lemma CharNotContained(s: string, c: char)
    requires !Contains(s, [c])
    ensures c !in s
  {
    if c in s {
      var k :| 0 <= k < |s| && s[k] == c;
      assert s[k..k + 1] == [c];
      ContainsOccurs(s, [c], k);
    }
  }

  /** A separator with a character that does not occur in `s` is not
      contained in it. */
  lemma NotContainsAt(s: string, sep: string, m: nat)
    requires m < |sep| && sep[m] !in s
    ensures !Contains(s, sep)
  {
    forall j | 0 <= j && j + |sep| <= |s| ensures !OccursAt(s, sep, j) {
      assert s[j..j + |sep|][m] == s[j + m];
    }
  }

  /** A character found neither in the pieces nor in the separator is not
      in their join. */
  lemma {:induction false} JoinAvoids(parts: seq<string>, sep: string, c: char)
    requires c !in sep && forall k :: 0 <= k < |parts| ==> c !in parts[k]
    ensures c !in Join(parts, sep)
    decreases |parts|
  {
    if |parts| > 1 {
      JoinAvoids(parts[1..], sep, c);
    }
  }

  /** A join of non-empty pieces ends with the last piece's last character. */
  lemma {:induction false} JoinLast(parts: seq<string>, sep: string)
    requires |parts| > 0 && parts[|parts| - 1] != []
    ensures Join(parts, sep) != []
    ensures Join(parts, sep)[|Join(parts, sep)| - 1] == parts[|parts| - 1][|parts[|parts| - 1]| - 1]
    decreases |parts|
  {
    if |parts| > 1 {
      assert parts[1..][|parts| - 2] == parts[|parts| - 1];
      JoinLast(parts[1..], sep);
    }
  }

  /** Splitting pieces joined by a character they lack gives them back. */
  lemma {:induction false} SplitJoinChar(ws: seq<string>, c: char)
    requires |ws| > 0 && forall k :: 0 <= k < |ws| ==> c !in ws[k]
    ensures Split(Join(ws, [c]), [c]) == ws
    decreases |ws|
  {
    if |ws| == 1 {
      NotContainsChar(ws[0], c);
    } else {
      SplitJoinChar(ws[1..], c);
      SplitFirstChar(ws[0], c, Join(ws[1..], [c]));
    }
  }

  /** A string without the separator splits into itself alone. */
  lemma SplitAbsent(s: string, sep: string)
    requires |sep| > 0 && !Contains(s, sep)
    ensures Split(s, sep) == [s]
  {
  }

  /** `s.split_once(sep)`: the text before and after the first occurrence. */
  function SplitOnce(s: string, sep: string): (r: Option<(string, string)>)
    requires |sep| > 0
    ensures r.None? <==> !Contains(s, sep)
    ensures r.Some? ==> s == r.value.0 + sep + r.value.1 && !Contains(r.value.0, sep)
  {
    match IndexOf(s, sep)
    case None => None
    case Some(k) =>
      NoEarlierOccurrence(s, sep, k);
      assert s == s[..k] + sep + s[k + |sep|..];
      Some((s[..k], s[k + |sep|..]))
  }

  /** Splitting once at a character that does not occur before it. */
  lemma SplitOnceChar(a: string, c: char, b: string)
    requires c !in a
    ensures SplitOnce(a + [c] + b, [c]) == Some((a, b))
  {
    var s := a + [c] + b;
    assert OccursAt(s, [c], |a|);
    var k := IndexOf(s, [c]).value;
    assert s[k..k + 1][0] == c;
    assert k == |a|;
  }

  /** Splitting once at a separator with a character `sep[m]` that occurs
      neither in `a` nor earlier in `sep`. */
  lemma SplitOnceBy(a: string, sep: string, b: string, m: nat)
    requires m < |sep| && sep[m] !in a && sep[m] !in sep[..m]
    ensures SplitOnce(a + sep + b, sep) == Some((a, b))
  {
    var s := a + sep + b;
    forall j | 0 <= j < |a| ensures !OccursAt(s, sep, j) {
      if j + |sep| <= |s| {
        if j + m < |a| {
          assert s[j + m] == a[j + m];
        } else {
          assert s[j + m] == sep[..m][j + m - |a|];
        }
        assert s[j..j + |sep|][m] == s[j + m];
      }
    }
    assert s[|a|..|a| + |sep|] == sep;
    assert OccursAt(s, sep, |a|);
    var k := IndexOf(s, sep).value;
    assert k == |a|;
    assert s[..k] == a && s[k + |sep|..] == b;
  }

  /** Splitting pieces joined by a separator with a character that none of
      them holds gives them back. */
  lemma {:induction false} SplitJoinBy(ws: seq<string>, sep: string, m: nat)
    requires m < |sep| && sep[m] !in sep[..m]
    requires |ws| > 0 && forall k :: 0 <= k < |ws| ==> sep[m] !in ws[k]
    ensures Split(Join(ws, sep), sep) == ws
    decreases |ws|
  {
    if |ws| == 1 {
      NotContainsAt(ws[0], sep, m);
    } else {
      SplitJoinBy(ws[1..], sep, m);
      SplitFirstBy(ws[0], sep, Join(ws[1..], sep), m);
    }
  }

  /** `s.replace(pat, rep)`: every non-overlapping occurrence, left to right. */
  function Replace(s: string, pat: string, rep: string): (r: string)
    requires |pat| > 0
    ensures !Contains(s, pat) ==> r == s
  {
    Join(Split(s, pat), rep)
  }

  /** Replacing a pattern by itself changes nothing. */
  lemma ReplaceIdentity(s: string, pat: string)
    requires |pat| > 0
    ensures Replace(s, pat, pat) == s
  {
    JoinSplit(s, pat);
  }

  /** Splits on maximal runs of the character `c`, keeping the empty pieces
      that a leading or trailing run leaves: what `Regex::new("[c]+").split`
      returns. */
  function SplitRuns(s: string, c: char): (r: seq<string>)
    ensures |r| >= 1
    ensures forall k :: 0 <= k < |r| ==> c !in r[k]
    decreases |s|
  {
    if s == [] then [[]]
    else if s[0] == c then [[]] + SplitRuns(DropRun(s, c), c)
    else
      var rest := SplitRuns(s[1..], c);
      [[s[0]] + rest[0]] + rest[1..]
  }

  /** A word free of `c` glues onto the first piece. */
  lemma {:induction false} SplitRunsWord(w: string, c: char, t: string)
    requires c !in w
    ensures SplitRuns(w + t, c) == [w + SplitRuns(t, c)[0]] + SplitRuns(t, c)[1..]
    decreases |w|
  {
    if w != [] {
      assert (w + t)[1..] == w[1..] + t;
      SplitRunsWord(w[1..], c, t);
      assert [w[0]] + (w[1..] + SplitRuns(t, c)[0]) == w + SplitRuns(t, c)[0];
    } else {
      var r := SplitRuns(t, c);
      assert w + t == t && w + r[0] == r[0];
      assert [r[0]] + r[1..] == r;
    }
  }

  /** Splitting words joined by single `c`s gives the words back. */
  lemma {:induction false} SplitRunsJoin(ws: seq<string>, c: char)
    requires |ws| > 0
    requires forall k :: 0 <= k < |ws| ==> ws[k] != [] && c !in ws[k]
    ensures SplitRuns(Join(ws, [c]), c) == ws
    decreases |ws|
  {
    if |ws| == 1 {
      SplitRunsWord(ws[0], c, []);
      assert ws[0] + [] == ws[0];
    } else {
      var rest := Join(ws[1..], [c]);
      SplitRunsJoin(ws[1..], c);
      assert rest[0] == ws[1][0] by {
        assert ws[1..][0] == ws[1];
        JoinHead(ws[1..], [c]);
      }
      var t := [c] + rest;
      assert DropRun(t, c) == rest;
      assert SplitRuns(t, c) == [[]] + ws[1..];
      assert Join(ws, [c]) == ws[0] + t;
      SplitRunsWord(ws[0], c, t);
      assert ws[0] + [] == ws[0];
    }
  }

  /** A join of non-empty words starts with the first word. */
  lemma JoinHead(ws: seq<string>, sep: string)
    requires |ws| > 0 && ws[0] != []
    ensures Join(ws, sep) != [] && Join(ws, sep)[0] == ws[0][0]
  {
  }

  /** `s` without its leading run of `c`. */
  function DropRun(s: string, c: char): (r: string)
    ensures |r| <= |s| && (r == [] || r[0] != c)
    ensures r == s[|s| - |r|..]
    ensures forall k :: 0 <= k < |s| - |r| ==> s[k] == c
  {
    if s != [] && s[0] == c then DropRun(s[1..], c) else s
  }

  /** Rust's `char::is_whitespace`: the Unicode White_Space property. */
  predicate IsWhitespace(ch: char) {
    ('\t' <= ch <= '\r') || ch == ' ' || ch == '\U{85}' || ch == '\U{A0}' || ch == '\U{1680}'
    || ('\U{2000}' <= ch <= '\U{200A}') || ch == '\U{2028}' || ch == '\U{2029}'
    || ch == '\U{202F}' || ch == '\U{205F}' || ch == '\U{3000}'
  }

  /** `s.trim()`: without leading and trailing white space. */
  function Trim(s: string): (r: string)
    ensures |r| <= |s|
    ensures r != [] ==> !IsWhitespace(r[0]) && !IsWhitespace(r[|r| - 1])
    ensures forall k :: 0 <= k < |r| ==> r[k] in s
  {
    TrimEnd(TrimStart(s))
  }

  /** Trimming a string with no white space at either end changes nothing. */
  lemma TrimIdentity(s: string)
    requires s == [] || (!IsWhitespace(s[0]) && !IsWhitespace(s[|s| - 1]))
    ensures Trim(s) == s
  {
  }

  function TrimStart(s: string): (r: string)
    ensures |r| <= |s| && r == s[|s| - |r|..]
    ensures r != [] ==> !IsWhitespace(r[0])
  {
    if s != [] && IsWhitespace(s[0]) then TrimStart(s[1..]) else s
  }

  function TrimEnd(s: string): (r: string)
    ensures |r| <= |s| && r == s[..|r|]
    ensures r != [] ==> !IsWhitespace(r[|r| - 1])
  {
    if s != [] && IsWhitespace(s[|s| - 1]) then TrimEnd(s[..|s| - 1]) else s
  }

  /** `s.split_whitespace()`: the non-empty words between runs of white space. */
  function Words(s: string): (r: seq<string>)
    ensures forall k :: 0 <= k < |r| ==> r[k] != [] && forall j :: 0 <= j < |r[k]| ==> !IsWhitespace(r[k][j])
    decreases |s|
  {
    if s == [] then []
    else if IsWhitespace(s[0]) then Words(s[1..])
    else
      var w := WordPrefix(s);
      [w] + Words(s[|w|..])
  }

  /** The longest prefix of `s` without white space. */
  function WordPrefix(s: string): (r: string)
    ensures |r| <= |s| && r == s[..|r|]
    ensures forall j :: 0 <= j < |r| ==> !IsWhitespace(r[j])
    ensures |r| < |s| ==> IsWhitespace(s[|r|])
    ensures s != [] && !IsWhitespace(s[0]) ==> |r| > 0
  {
    if s == [] || IsWhitespace(s[0]) then [] else [s[0]] + WordPrefix(s[1..])
  }

  /** `s.lines()`: the text split at '\n', each line that a '\n' ends without
      the '\r' just before it, and no final empty line after a terminating
      '\n'. A last line with no '\n' after it keeps a trailing '\r'. */
  function Lines(s: string): (r: seq<string>)
    ensures forall k :: 0 <= k < |r| ==> '\n' !in r[k]
  {
    if s == [] then []
    else
      var pieces := Split(s, "\n");
      var kept := if pieces[|pieces| - 1] == [] then pieces[..|pieces| - 1] else pieces;
      assert forall k :: 0 <= k < |kept| ==> kept[k] == pieces[k];
      forall k | 0 <= k < |pieces| ensures '\n' !in pieces[k] {
        NoNewline(pieces[k]);
      }
      seq(|kept|, k requires 0 <= k < |kept| => if k < |pieces| - 1 then StripCR(kept[k]) else kept[k])
  }

  lemma NoNewline(s: string)
    requires !Contains(s, "\n")
    ensures '\n' !in s
  {
    if '\n' in s {
      var k :| 0 <= k < |s| && s[k] == '\n';
      assert OccursAt(s, "\n", k);
    }
  }

  function StripCR(s: string): (r: string)
    ensures r == s || (|s| > 0 && r == s[..|s| - 1])
  {
    if s != [] && s[|s| - 1] == '\r' then s[..|s| - 1] else s
  }

  // ------------------------------------------------------------------ numbers

  predicate IsDigit(ch: char) {
    '0' <= ch <= '9'
  }

  predicate AllDigits(s: string) {
    forall k :: 0 <= k < |s| ==> IsDigit(s[k])
  }

  function DigitValue(ch: char): (d: nat)
    requires IsDigit(ch)
    ensures d < 10
  {
    ch as int - '0' as int
  }

  function DigitChar(d: nat): (ch: char)
    requires d < 10
    ensures IsDigit(ch) && DigitValue(ch) == d
  {
    ('0' as int + d) as char
  }

  /** The value of a string of decimal digits, read left to right. */
  function DecimalValue(s: string): nat
    requires AllDigits(s)
  {
    if s == [] then 0 else 10 * DecimalValue(s[..|s| - 1]) + DigitValue(s[|s| - 1])
  }

  /** `s.parse::<u32>()` (and u64, usize): an optional '+', then at least one
      ASCII digit; anything else is an error. */
  function ParseNat(s: string): (r: Option<nat>)
    ensures r.Some? ==> |s| > 0
    ensures AllDigits(s) && |s| > 0 ==> r == Some(DecimalValue(s))
  {
    var body := if |s| > 0 && s[0] == '+' then s[1..] else s;
    if |body| > 0 && AllDigits(body) then Some(DecimalValue(body)) else None
  }

  /** `s.parse::<i64>()` (and i32): an optional sign, then at least one digit. */
  function ParseInt(s: string): (r: Option<int>)
    ensures r.Some? ==> |s| > 0
    ensures ParseNat(s).Some? ==> r == Some(ParseNat(s).value as int)
  {
    if |s| > 0 && s[0] == '-' then
      var body := s[1..];
      if |body| > 0 && AllDigits(body) then Some(-(DecimalValue(body) as int)) else None
    else
      match ParseNat(s)
      case Some(n) => Some(n as int)
      case None => None
  }

  /** The decimal digits of `n`, most significant first, without leading zeros. */
  function NatToString(n: nat): (s: string)
    ensures |s| > 0 && AllDigits(s)
    ensures s[0] != '0' || n == 0
    decreases n
  {
    if n < 10 then [DigitChar(n)] else NatToString(n / 10) + [DigitChar(n % 10)]
  }

  function IntToString(i: int): (s: string)
    ensures |s| > 0
  {
    if i < 0 then "-" + NatToString(-i) else NatToString(i)
  }

  /** The numerals of a list of numbers, as `n.to_string()` writes them. */
  function Numerals(xs: seq<nat>): (r: seq<string>)
    ensures |r| == |xs| && forall k :: 0 <= k < |xs| ==> r[k] == NatToString(xs[k])
  {
    seq(|xs|, k requires 0 <= k < |xs| => NatToString(xs[k]))
  }

  /** Each piece parsed as an unsigned integer with `unwrap`. */
  function NatResults(pieces: seq<string>): (r: seq<Result<nat>>)
    ensures |r| == |pieces|
    ensures forall k :: 0 <= k < |r| ==> r[k] == Unwrap(ParseNat(pieces[k]), UnwrapErr)
  {
    seq(|pieces|, k requires 0 <= k < |pieces| => Unwrap(ParseNat(pieces[k]), UnwrapErr))
  }

  /** Numerals parse back to their numbers. */
  lemma NatResultsOfNumerals(xs: seq<nat>)
    ensures forall k :: 0 <= k < |xs| ==> NatResults(Numerals(xs))[k] == Ok(xs[k])
  {
    forall k | 0 <= k < |xs| ensures NatResults(Numerals(xs))[k] == Ok(xs[k]) {
      ParseNatToString(xs[k]);
    }
  }

  /** The digits of a number hold no other character. */
  lemma NumeralAvoids(x: nat, c: char)
    requires !IsDigit(c)
    ensures c !in NatToString(x)
  {
    var s := NatToString(x);
    assert forall k :: 0 <= k < |s| ==> IsDigit(s[k]);
  }

  lemma NumeralsAvoid(xs: seq<nat>, c: char)
    requires !IsDigit(c)
    ensures forall k :: 0 <= k < |xs| ==> Numerals(xs)[k] != [] && c !in Numerals(xs)[k]
  {
    forall k | 0 <= k < |xs| ensures c !in Numerals(xs)[k] {
      NumeralAvoids(xs[k], c);
    }
  }

  lemma {:induction false} DecimalValueOfNatToString(n: nat)
    ensures DecimalValue(NatToString(n)) == n
    decreases n
  {
    var s := NatToString(n);
    if n >= 10 {
      DecimalValueOfNatToString(n / 10);
      assert s[..|s| - 1] == NatToString(n / 10);
    }
  }

  /** Printing then parsing a natural number gives it back. */
  lemma ParseNatToString(n: nat)
    ensures ParseNat(NatToString(n)) == Some(n)
  {
    DecimalValueOfNatToString(n);
  }

  /** Printing then parsing an integer gives it back. */
  lemma ParseIntToString(i: int)
    ensures ParseInt(IntToString(i)) == Some(i)
  {
    if i < 0 {
      DecimalValueOfNatToString(-i);
      assert IntToString(i)[1..] == NatToString(-i);
    } else {
      ParseNatToString(i);
    }
  }
}
