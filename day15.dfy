/** Day 15: the HASH algorithm, folded over each comma-separated segment of
    the initialisation sequence. */
module Day15 {
  import opened Strings
  import Numbers

  /** `(val as u8) as i32`: a char's code point truncated to its low byte. */
  function Code(c: char): (r: nat)
    ensures r < 256
  {
    (c as int) % 256
  }

  /** One step of the fold: add the code, multiply by 17, keep the remainder
      modulo 256. */
  function Step(acc: int, c: char): int {
    ((acc + Code(c)) * 17) % 256
  }

  /** The fold over `s` started from `acc`. */
  function HashFrom(acc: int, s: string): (r: int)
    ensures s == [] ==> r == acc
    ensures s != [] ==> 0 <= r < 256
    decreases |s|
  {
    if s == [] then acc else HashFrom(Step(acc, s[0]), s[1..])
  }

  /** The HASH value of one segment: the fold started from 0. */
  function Hash(s: string): (r: int)
    ensures 0 <= r < 256
    ensures s == [] ==> r == 0
  {
    HashFrom(0, s)
  }

  /** Appending a character applies one more step to the hash so far. */
  lemma {:induction false} HashFromAppend(acc: int, s: string, c: char)
    ensures HashFrom(acc, s + [c]) == Step(HashFrom(acc, s), c)
    decreases |s|
  {
    if s == [] {
      assert s + [c] == [c];
      assert [c][1..] == [];
    } else {
      assert (s + [c])[1..] == s[1..] + [c];
      HashFromAppend(Step(acc, s[0]), s[1..], c);
    }
  }

  /** The hash of `s + [c]` depends on `s` only through `Hash(s)`. */
  lemma HashAppend(s: string, c: char)
    ensures Hash(s + [c]) == ((Hash(s) + Code(c)) * 17) % 256
  {
    HashFromAppend(0, s, c);
  }

  /** The hash of the puzzle's own example word "HASH" is 52. */
  lemma HashOfHASH()
    ensures Hash("HASH") == 52
  {
    assert Step(0, 'H') == 200 && Step(200, 'A') == 153;
    assert Step(153, 'S') == 172 && Step(172, 'H') == 52;
    assert "HASH"[1..] == "ASH" && "ASH"[1..] == "SH" && "SH"[1..] == "H" && "H"[1..] == "";
    calc {
      Hash("HASH");
      HashFrom(200, "ASH");
      HashFrom(153, "SH");
      HashFrom(172, "H");
      HashFrom(52, "");
    }
  }

  function Hashes(segments: seq<string>): (r: seq<int>)
    ensures |r| == |segments|
    ensures forall k :: 0 <= k < |r| ==> r[k] == Hash(segments[k])
  {
    if segments == [] then [] else [Hash(segments[0])] + Hashes(segments[1..])
  }

  /** The part-one answer: the input is split on ',' without trimming (a final
      newline is hashed with the last segment) and the hashes are summed. */
  function SumOfHashes(input: string): (r: int)
    ensures 0 <= r <= 255 * |Split(input, ",")|
  {
    var hs := Hashes(Split(input, ","));
    Numbers.SumBounds(hs, 255);
    Numbers.Sum(hs)
  }

  /** A newline at the end of the input changes only the last segment, so it is
      hashed rather than dropped. */
  lemma TrailingNewlineIsHashed(s: string)
    requires !Contains(s, ",")
    ensures SumOfHashes(s + "\n") == Hash(s + "\n")
  {
    var t := s + "\n";
    if Contains(t, ",") {
      var j := IndexOf(t, ",").value;
      assert t[j..j + 1] == ",";
      assert t[j] == ',';
      if j < |s| {
        assert s[j..j + 1] == t[j..j + 1];
        ContainsOccurs(s, ",", j);
        assert false;
      }
      assert false;
    }
    SplitAbsent(t, ",");
    assert Hashes([t]) == [Hash(t)];
    assert [Hash(t)][..0] == [];
    assert Numbers.Sum([Hash(t)]) == Hash(t);
  }
}
