/**
  `hashCode`: the 32-bit rolling hash that fingerprints script sources and the compiler
  configuration. Each UTF-16 code unit `c` updates the accumulator to
  `((hash << 5) - hash) + c`, truncated to a signed 32-bit integer, and the final value
  is written in radix 32 and left-padded with '0' to seven characters.
 */
module Hashing {
  import opened JsString

  const Int32Modulus: int := 0x1_0000_0000
  const HashRadix: nat := 32
  const HashWidth: nat := 7

  predicate IsInt32(x: int)
  {
    -0x8000_0000 <= x < 0x8000_0000
  }

  /** ECMAScript ToInt32 on an integral number: the value congruent to `x` modulo 2^32 in [-2^31, 2^31). */
  function ToInt32(x: int): (r: int)
    ensures IsInt32(r)
    ensures (x - r) % Int32Modulus == 0
  {
    var m := x % Int32Modulus;
    if m >= 0x8000_0000 then m - Int32Modulus else m
  }

  /** `hash << 5`: the operand is truncated to 32 bits, shifted, and the result truncated again. */
  function ShiftLeft5(h: int): int
  {
    ToInt32(ToInt32(h) * 32)
  }

  /** One iteration of the loop: `hash = ((hash << 5) - hash) + chr; hash |= 0`. */
  function Step(h: int, unit: int): (r: int)
    ensures IsInt32(r)
  {
    ToInt32(ShiftLeft5(h) - h + unit)
  }

  /** The accumulator after the loop has consumed the code units `u`, starting from 0. */
  function HashUnits(u: seq<int>): (h: int)
    ensures IsInt32(h)
  {
    if u == [] then 0 else Step(HashUnits(u[..|u| - 1]), u[|u| - 1])
  }

  /** The unwrapped polynomial `u[0]*31^(n-1) + ... + u[n-1]`, a reference definition of the hash. */
  function Poly(u: seq<int>): int
  {
    if u == [] then 0 else 31 * Poly(u[..|u| - 1]) + u[|u| - 1]
  }

  /** `hash.toString(32).padStart(7, '0')`. */
  function Render(h: int): string
  {
    PadStart(NumberToString(h, HashRadix), HashWidth, '0')
  }

  /** The string `hashCode(s)` returns. */
  function Fingerprint(s: string): string
  {
    Render(HashUnits(CodeUnits(s)))
  }

  /** `hashCode(string)`, with its early return for the empty string and its loop over `charCodeAt`. */
  method HashCode(s: string) returns (r: string)
    ensures r == Fingerprint(s)
    ensures 7 <= |r| <= 8
  {
    var units := CodeUnits(s);
    var hash := 0;
    if |units| == 0 {
      r := Render(hash);
      RenderLength(hash);
      return;
    }
    var i := 0;
    while i < |units|
      invariant 0 <= i <= |units|
      invariant hash == HashUnits(units[..i])
    {
      assert units[..i + 1][..i] == units[..i];
      hash := Step(hash, units[i]);
      i := i + 1;
    }
    assert units[..i] == units;
    r := Render(hash);
    RenderLength(hash);
  }

  // ----- arithmetic of the accumulator ------------------------------------------------

  lemma ToInt32Periodic(x: int, k: int)
    ensures ToInt32(x + k * Int32Modulus) == ToInt32(x)
  {
  }

  lemma ToInt32OfInt32(x: int)
    requires IsInt32(x)
    ensures ToInt32(x) == x
  {
  }

  /** One loop step multiplies by 31 and adds the code unit, modulo 2^32. */
  lemma StepIsWrappedAffine(h: int, unit: int)
    requires IsInt32(h)
    ensures Step(h, unit) == ToInt32(31 * h + unit)
  {
    ToInt32OfInt32(h);
    var x := h * 32;
    var k := if x % Int32Modulus >= 0x8000_0000 then -(x / Int32Modulus) - 1 else -(x / Int32Modulus);
    assert ShiftLeft5(h) == x + k * Int32Modulus;
    ToInt32Periodic(31 * h + unit, k);
    assert ShiftLeft5(h) - h + unit == 31 * h + unit + k * Int32Modulus;
  }

  /** The whole hash is the polynomial of the code units, truncated to 32 bits once at the end. */
  lemma {:induction false} HashIsWrappedPolynomial(u: seq<int>)
    ensures HashUnits(u) == ToInt32(Poly(u))
  {
    if u != [] {
      var p := u[..|u| - 1];
      var c := u[|u| - 1];
      HashIsWrappedPolynomial(p);
      StepIsWrappedAffine(HashUnits(p), c);
      var w := ToInt32(Poly(p));
      var k := (Poly(p) - w) / Int32Modulus;
      assert Poly(p) == w + k * Int32Modulus;
      assert 31 * Poly(p) + c == 31 * w + c + (31 * k) * Int32Modulus;
      ToInt32Periodic(31 * w + c, 31 * k);
    }
  }

  // ----- shape of the rendered digest -------------------------------------------------

  function Pow(b: nat, e: nat): nat
  {
    if e == 0 then 1 else b * Pow(b, e - 1)
  }

  lemma DivBound(n: nat, r: nat, p: nat)
    requires r >= 2
    ensures n / r < p <==> n < r * p
  {
    var q, m := n / r, n % r;
    DivMod(n, r);
    if q < p {
      assert q * r <= (p - 1) * r;
    } else {
      assert q * r >= p * r;
    }
  }

  /** `n` has at most `k` digits in `radix` exactly when `n < radix^k`. */
  lemma {:induction false} DigitCount(n: nat, radix: nat, k: nat)
    requires 2 <= radix <= 36 && k >= 1
    ensures |NatToRadix(n, radix)| <= k <==> n < Pow(radix, k)
    decreases k
  {
    if n < radix {
      PowAtLeastBase(radix, k);
    } else if k == 1 {
      assert |NatToRadix(n, radix)| == |NatToRadix(n / radix, radix)| + 1;
    } else {
      DigitCount(n / radix, radix, k - 1);
      DivBound(n, radix, Pow(radix, k - 1));
    }
  }

  lemma {:induction false} PowAtLeastBase(b: nat, e: nat)
    requires b >= 1 && e >= 1
    ensures Pow(b, e) >= b
    decreases e
  {
    if e > 1 {
      PowAtLeastBase(b, e - 1);
      assert Pow(b, e) == b * Pow(b, e - 1);
    }
  }

  /** The magnitude of a 32-bit hash has at most seven radix-32 digits, seven exactly from 2^30 on. */
  lemma MagnitudeDigits(m: nat)
    requires m <= 0x8000_0000
    ensures |NatToRadix(m, HashRadix)| <= 7
    ensures |NatToRadix(m, HashRadix)| == 7 <==> m >= 0x4000_0000
  {
    assert Pow(32, 6) == 0x4000_0000 && Pow(32, 7) == 0x8_0000_0000;
    DigitCount(m, HashRadix, 6);
    DigitCount(m, HashRadix, 7);
  }

  /**
    The digest of a 32-bit hash has seven characters, or eight when the hash is at most
    -2^30 (the sign plus seven digits).
   */
  lemma RenderLength(h: int)
    requires IsInt32(h)
    ensures 7 <= |Render(h)| <= 8
    ensures |Render(h)| == 8 <==> h <= -0x4000_0000
  {
    MagnitudeDigits(if h < 0 then -h else h);
  }

  /** A character `hashCode` can produce: a radix-32 digit or the minus sign. */
  predicate IsDigestChar(c: char)
  {
    '0' <= c <= '9' || 'a' <= c <= 'v' || c == '-'
  }

  lemma Radix32Digits(m: nat)
    ensures forall c | c in NatToRadix(m, HashRadix) :: '0' <= c <= '9' || 'a' <= c <= 'v'
  {
    var digits := NatToRadix(m, HashRadix);
    forall c | c in digits
      ensures '0' <= c <= '9' || 'a' <= c <= 'v'
    {
      var i :| 0 <= i < |digits| && digits[i] == c;
      assert DigitValue(c) < 32;
    }
  }

  /**
    The characters of a digest are radix-32 digits ('0'-'9', 'a'-'v', never 'w'-'z') and
    a '-', which appears exactly when the hash is negative.
   */
  lemma RenderAlphabet(h: int)
    ensures forall c | c in Render(h) :: IsDigestChar(c)
    ensures '-' in Render(h) <==> h < 0
  {
    var digits := NatToRadix(if h < 0 then -h else h, HashRadix);
    Radix32Digits(if h < 0 then -h else h);
    var s := NumberToString(h, HashRadix);
    assert s == if h < 0 then "-" + digits else digits;
    var pad := if |s| < HashWidth then seq(HashWidth - |s|, _ => '0') else [];
    assert Render(h) == pad + s;
    assert forall c | c in pad :: c == '0';
  }

  /** What the loop of `hashCode` preserves: the accumulator stays a signed 32-bit integer. */
  lemma HashStaysInt32(u: seq<int>, c: int)
    ensures IsInt32(HashUnits(u + [c]))
    ensures HashUnits(u + [c]) == ToInt32(31 * HashUnits(u) + c)
  {
    assert (u + [c])[..|u|] == u;
    StepIsWrappedAffine(HashUnits(u), c);
  }

  /** Every output of `hashCode` has length seven or eight. */
  lemma FingerprintLength(s: string)
    ensures 7 <= |Fingerprint(s)| <= 8
  {
    RenderLength(HashUnits(CodeUnits(s)));
  }

  /** The empty string hashes to the all-zero digest. */
  lemma FingerprintOfEmpty()
    ensures Fingerprint("") == "0000000"
  {
    assert CodeUnits("") == [];
    assert NumberToString(0, HashRadix) == "0";
  }

  /** `padStart` pads in front of the sign: the hash -1 renders as "00000-1". */
  lemma RenderPadsBeforeSign()
    ensures Render(-1) == "00000-1"
  {
    assert NumberToString(-1, HashRadix) == "-1";
  }
}
