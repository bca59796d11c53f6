/** Arithmetic shared by the day modules: sums of sequences (Rust's
    `iter().sum()`), powers of two, and `num::integer::{gcd, lcm}` on
    naturals. */
module Numbers {

  /** `xs.iter().sum()`, accumulated from the left. */
  function Sum(xs: seq<int>): int {
    if xs == [] then 0 else Sum(xs[..|xs| - 1]) + xs[|xs| - 1]
  }

  /** A sum splits over a concatenation. */
  lemma {:induction false} SumAppend(xs: seq<int>, ys: seq<int>)
    ensures Sum(xs + ys) == Sum(xs) + Sum(ys)
    decreases |ys|
  {
    if ys != [] {
      var zs := xs + ys;
      assert zs[..|zs| - 1] == xs + ys[..|ys| - 1];
      assert zs[|zs| - 1] == ys[|ys| - 1];
      SumAppend(xs, ys[..|ys| - 1]);
    } else {
      assert xs + ys == xs;
    }
  }

  /** A sum of non-negative terms is non-negative and bounded by `|xs| * bound`
      when each term is. */
  lemma {:induction false} SumBounds(xs: seq<int>, bound: int)
    requires forall k :: 0 <= k < |xs| ==> 0 <= xs[k] <= bound
    ensures 0 <= Sum(xs) <= |xs| * bound
    decreases |xs|
  {
    if xs != [] {
      SumBounds(xs[..|xs| - 1], bound);
    }
  }

  /** A sum of non-negative terms is non-negative, at least each term, and
      zero when every term is. */
  lemma {:induction false} SumAtLeastTerms(xs: seq<int>)
    requires forall j :: 0 <= j < |xs| ==> xs[j] >= 0
    ensures Sum(xs) >= 0 && forall k :: 0 <= k < |xs| ==> xs[k] <= Sum(xs)
    ensures (forall k :: 0 <= k < |xs| ==> xs[k] == 0) ==> Sum(xs) == 0
    decreases |xs|
  {
    if xs != [] {
      var init := xs[..|xs| - 1];
      assert forall k :: 0 <= k < |init| ==> init[k] == xs[k];
      SumAtLeastTerms(init);
    }
  }

  function Pow2(n: nat): (r: nat)
    ensures r >= 1
  {
    if n == 0 then 1 else 2 * Pow2(n - 1)
  }

  /** `a.gcd(b)`: Euclid's algorithm. */
  function Gcd(a: nat, b: nat): nat
    decreases b
  {
    if b == 0 then a else Gcd(b, a % b)
  }

  /** A multiple of `g` leaves no remainder and divides back exactly. */
  lemma MulMod(g: nat, k: nat)
    requires g > 0
    ensures (g * k) % g == 0 && (g * k) / g == k
  {
    var x := g * k;
    var q, r := x / g, x % g;
    assert x == g * q + r && 0 <= r < g;
    assert g * (k - q) == r;
    if k - q >= 1 {
      assert false;
    } else if k - q <= -1 {
      assert false;
    }
  }

  /** If `g` divides `b` and `r` it divides `q * b + r`. */
  lemma DividesCombination(g: nat, q: nat, b: nat, r: nat)
    requires g > 0 && b % g == 0 && r % g == 0
    ensures (q * b + r) % g == 0
  {
    var m, n := b / g, r / g;
    assert b == g * m && r == g * n;
    assert q * b + r == g * (q * m + n) by {
      calc {
        q * b + r;
        q * (g * m) + g * n;
        g * (q * m) + g * n;
        g * (q * m + n);
      }
    }
    MulMod(g, q * m + n);
  }

  /** The greatest common divisor divides both arguments. */
  lemma {:induction false} GcdDivides(a: nat, b: nat)
    requires a > 0 || b > 0
    ensures Gcd(a, b) > 0 && a % Gcd(a, b) == 0 && b % Gcd(a, b) == 0
    decreases b
  {
    if b > 0 {
      GcdDivides(b, a % b);
      var g := Gcd(a, b);
      assert a == (a / b) * b + a % b;
      DividesCombination(g, a / b, b, a % b);
    }
  }

  /** `a.lcm(b)` as the `num` crate computes it: `a * (b / gcd(a, b))`, and 0
      when both are 0. */
  function Lcm(a: nat, b: nat): (r: nat)
    ensures (a > 0 && b > 0) ==> r > 0 && r % a == 0 && r % b == 0
  {
    if a == 0 && b == 0 then 0
    else
      var g := Gcd(a, b);
      GcdDivides(a, b);
      LcmDivides(a, b, g);
      a * (b / g)
  }

  lemma LcmDivides(a: nat, b: nat, g: nat)
    requires g > 0 && a % g == 0 && b % g == 0
    ensures a > 0 && b > 0 ==> a * (b / g) > 0
    ensures a > 0 ==> (a * (b / g)) % a == 0
    ensures b > 0 ==> (a * (b / g)) % b == 0
  {
    var m, n := a / g, b / g;
    assert a == g * m && b == g * n;
    assert a * n == b * m by {
      calc {
        a * n;
        (g * m) * n;
        (g * n) * m;
        b * m;
      }
    }
    if a > 0 {
      MulMod(a, n);
    }
    if b > 0 {
      MulMod(b, m);
      assert n > 0 && m >= 0;
    }
    if a > 0 && b > 0 {
      assert n > 0;
      assert a * n >= a by { assert a * n == a + a * (n - 1); assert a * (n - 1) >= 0; }
    }
  }
}
