/**
 * stringHashCode: Java's String.hashCode computed with JavaScript's 32-bit
 * operators, followed by an absolute value. The hash names the vector-store
 * point of a file.
 */
module StringHash {
  import Batching

  const Two32: int := 0x1_0000_0000
  const Two31: int := 0x8000_0000

  /** ToInt32: the signed 32-bit integer congruent to x modulo 2^32, as `x | 0` and `x << 0` give. */
  function ToInt32(x: int): (r: int)
    ensures -Two31 <= r < Two31
    ensures exists k :: x == r + Two32 * k
  {
    var r := (x + Two31) % Two32 - Two31;
    assert x == r + Two32 * ((x + Two31) / Two32);
    r
  }

  /** Two integers that differ by a multiple of 2^32 have the same ToInt32. */
  lemma ToInt32Congruent(x: int, k: int)
    ensures ToInt32(x + Two32 * k) == ToInt32(x)
  {
    var q := (x + Two31) / Two32;
    var m := (x + Two31) % Two32;
    Batching.DivUnique(x + Two32 * k + Two31, Two32, q + k, m);
  }

  /** One step of the loop: `hash = ((hash << 5) - hash) + chr; hash |= 0`. */
  function Step(hash: int, chr: char): int {
    ToInt32(ToInt32(hash * 32) - hash + chr as int)
  }

  /** The reference: Java's polynomial s[0]*31^(n-1) + ... + s[n-1], before any wrap-around. */
  function Polynomial(s: string): int
    decreases |s|
  {
    if s == [] then 0 else 31 * Polynomial(s[..|s| - 1]) + s[|s| - 1] as int
  }

  /** Java's String.hashCode: the polynomial reduced to a signed 32-bit integer. */
  function JavaHash(s: string): int {
    ToInt32(Polynomial(s))
  }

  function Abs(x: int): nat {
    if x < 0 then -x else x
  }

  /** The loop step keeps the hash equal to the reduced polynomial of the prefix read. */
  lemma StepIsPolynomial(s: string, c: char)
    ensures Step(JavaHash(s), c) == JavaHash(s + [c])
  {
    var p := Polynomial(s);
    var h := ToInt32(p);
    var k1 :| p == h + Two32 * k1;
    var s32 := ToInt32(h * 32);
    var k2 :| h * 32 == s32 + Two32 * k2;
    assert (s + [c])[..|s|] == s;
    assert Polynomial(s + [c]) == 31 * p + c as int;
    assert s32 - h + c as int == 31 * p + c as int + Two32 * (-31 * k1 - k2);
    ToInt32Congruent(31 * p + c as int, -31 * k1 - k2);
  }

  method StringHashCode(str: string) returns (h: nat)
    ensures h == Abs(JavaHash(str))
    ensures str == [] ==> h == 0
    ensures h <= Two31
  {
    var hash := 0;
    if |str| == 0 {
      return hash;
    }
    for i := 0 to |str|
      invariant hash == JavaHash(str[..i])
    {
      StepIsPolynomial(str[..i], str[i]);
      assert str[..i + 1] == str[..i] + [str[i]];
      hash := ToInt32(ToInt32(hash * 32) - hash + str[i] as int);
    }
    assert str[..|str|] == str;
    return Abs(hash);
  }

  /** A value already in the signed 32-bit range is left as it is. */
  lemma ToInt32InRange(x: int)
    requires -Two31 <= x < Two31
    ensures ToInt32(x) == x
  {
    Batching.DivUnique(x + Two31, Two32, 0, x + Two31);
  }

  /** While the polynomial stays below 2^31 nothing wraps: the hash is the polynomial itself. */
  lemma NoWrapForSmallPolynomial(s: string)
    requires Polynomial(s) < Two31
    ensures JavaHash(s) == Polynomial(s)
  {
    NonNegativePolynomial(s);
    ToInt32InRange(Polynomial(s));
  }

  lemma {:induction false} NonNegativePolynomial(s: string)
    ensures Polynomial(s) >= 0
    decreases |s|
  {
    if s != [] {
      NonNegativePolynomial(s[..|s| - 1]);
    }
  }
}
