// The byte encodings of the binary files: LEB128 variable-length integers
// (section 7.6 of DWARF 5), zig-zag signed integers and little-endian words.
module Codec {
  import opened Adler

  const TWO32: nat := 0x1_0000_0000
  const TWO64: nat := 0x1_0000_0000_0000_0000

  // ---------------------------------------------------------------- variable length

  function Leb(v: nat): (bytes: seq<u8>)
    ensures |bytes| > 0
  {
    if v < 128 then [v as u8] else [(v % 128 + 128) as u8] + Leb(v / 128)
  }

  function Power(base: nat, k: nat): nat { if k == 0 then 1 else base * Power(base, k - 1) }

  lemma DivideSmaller(v: nat, m: nat)
    requires v < 128 * m
    ensures v / 128 < m
  {
  }

  lemma {:induction false} LebLength(v: nat, k: nat)
    requires k > 0 && v < Power(128, k)
    ensures |Leb(v)| <= k
  {
    if v >= 128 {
      assert k > 1 by { assert Power(128, 1) == 128 * Power(128, 0); }
      DivideSmaller(v, Power(128, k - 1));
      LebLength(v / 128, k - 1);
    }
  }

  // A 64-bit value takes at most ten bytes.
  lemma LebFits(v: nat)
    requires v < TWO64
    ensures |Leb(v)| <= 10
  {
    assert Power(128, 5) == 128 * 128 * 128 * 128 * 128;
    assert Power(128, 10) == 128 * 128 * 128 * 128 * 128 * Power(128, 5);
    LebLength(v, 10);
  }

  // The encoding has k bytes at most exactly for numbers below 128^k.
  lemma {:induction false} LebLengthIff(v: nat, k: nat)
    requires k > 0
    ensures |Leb(v)| <= k <==> v < Power(128, k)
  {
    if v < Power(128, k) {
      LebLength(v, k);
    } else {
      PowerPositive(128, k - 1);
      if k > 1 {
        LebLengthIff(v / 128, k - 1);
        DivideLarger(v, Power(128, k - 1));
      }
    }
  }

  lemma {:induction false} PowerPositive(base: nat, k: nat)
    requires base > 0
    ensures Power(base, k) > 0
  {
    if k > 0 { PowerPositive(base, k - 1); }
  }

  lemma DivideLarger(v: nat, m: nat)
    requires v >= 128 * m
    ensures v / 128 >= m
  {
  }

  // Byte k holds digit k to the base 128, with the top bit set on all but the last.
  lemma {:induction false} LebDigit(v: nat, k: nat)
    requires k < |Leb(v)|
    ensures Power(128, k) > 0
    ensures Leb(v)[k] as nat == v / Power(128, k) % 128 + (if k + 1 < |Leb(v)| then 128 else 0)
  {
    PowerPositive(128, k);
    if k > 0 {
      LebDigit(v / 128, k - 1);
      assert Leb(v)[k] == Leb(v / 128)[k - 1];
      DivideTwice(v, 128, Power(128, k - 1));
    }
  }

  lemma DivideTwice(v: nat, a: nat, b: nat)
    requires a > 0 && b > 0
    ensures a * b > 0 && v / (a * b) == v / a / b
  {
    var m, r := a * b, v / a % b;
    Nested(v, a, b, v / a, v % a, v / a / b, r, m);
    DivMod(v, m, v / a / b, a * r + v % a);
  }

  lemma Nested(v: nat, a: nat, b: nat, x: nat, s: nat, q: nat, r: nat, m: nat)
    requires v == a * x + s && x == b * q + r && s < a && r < b && m == a * b
    ensures v == m * q + (a * r + s) && a * r + s < m
  {
    Expand(a, b, q, r);
    TimesBelow(a, r, b);
  }

  lemma Expand(a: nat, b: nat, q: nat, r: nat)
    ensures a * (b * q + r) == (a * b) * q + a * r
  {
    TimesSum(a, b * q, r);
    TimesTimes(a, b, q);
  }

  lemma TimesTimes(a: nat, b: nat, q: nat)
    ensures a * (b * q) == (a * b) * q
  {
  }

  lemma TimesBelow(a: nat, r: nat, b: nat)
    requires r < b
    ensures a * r + a <= a * b
  {
    TimesSum(a, r + 1, b - (r + 1));
    TimesSum(a, r, 1);
  }

  lemma TimesSum(a: nat, x: nat, y: nat)
    ensures a * (x + y) == a * x + a * y && a * y >= 0
  {
  }

  lemma DivMod(v: nat, m: nat, q: nat, r: nat)
    requires v == m * q + r && r < m
    ensures v / m == q
  {
    var d := v / m - q;
    assert m * d == r - v % m by { assert m * d == m * (v / m) - m * q; }
    assert d >= 1 ==> m * d >= m;
    assert d <= -1 ==> m * d <= -(m as int);
  }

  // The first n bytes are one number: only the last has no continuation bit.
  predicate Ended(bytes: seq<u8>, n: nat) {
    0 < n <= |bytes| && bytes[n - 1] < 128 && forall i :: 0 <= i < n - 1 ==> bytes[i] >= 128
  }

  // The value of the bytes of a number, low digit first.
  function LebValue(bytes: seq<u8>): nat {
    if bytes == [] then 0 else bytes[0] as nat % 128 + 128 * LebValue(bytes[1..])
  }

  lemma {:induction false} LebRoundTrip(v: nat)
    ensures Ended(Leb(v), |Leb(v)|) && LebValue(Leb(v)) == v
  {
    if v >= 128 {
      LebRoundTrip(v / 128);
      var tail := Leb(v / 128);
      assert Leb(v) == [(v % 128 + 128) as u8] + tail && Leb(v)[1..] == tail;
      forall i | 0 <= i < |tail| ensures Leb(v)[i + 1] == tail[i] {}
    } else {
      assert Leb(v)[1..] == [];
    }
  }

  // Reading left to right: the next digit has weight 128^n.
  lemma {:induction false} LebSnoc(bytes: seq<u8>, b: u8)
    ensures LebValue(bytes + [b]) == LebValue(bytes) + (b as nat % 128) * Power(128, |bytes|)
  {
    if bytes == [] {
      assert ([] + [b])[1..] == [];
    } else {
      LebSnoc(bytes[1..], b);
      assert (bytes + [b])[1..] == bytes[1..] + [b];
      Distribute(LebValue(bytes[1..]), b as nat % 128, Power(128, |bytes| - 1));
    }
  }

  lemma Distribute(x: nat, d: nat, p: nat)
    ensures 128 * (x + d * p) == 128 * x + d * (128 * p)
  {
  }

  // ---------------------------------------------------------------- signed

  predicate IsInt64(v: int) { -0x8000_0000_0000_0000 <= v < 0x8000_0000_0000_0000 }

  // (v << 1) ^ (v >> 63) on 64-bit words.
  function ZigZag(v: int): (z: nat)
    requires IsInt64(v)
    ensures z < TWO64
  {
    if v >= 0 then 2 * v else -2 * v - 1
  }

  // (z >> 1) ^ -(z & 1)
  function UnZigZag(z: nat): (v: int)
    requires z < TWO64
    ensures IsInt64(v)
  {
    if z % 2 == 0 then z / 2 else -(z / 2) - 1
  }

  lemma ZigZagRoundTrip(v: int)
    requires IsInt64(v)
    ensures UnZigZag(ZigZag(v)) == v
  {
  }

  // Small numbers of either sign are short: k bytes hold those of 7k - 1 bits and a sign.
  lemma ZigZagLength(v: int, k: nat)
    requires IsInt64(v) && k > 0
    ensures |Leb(ZigZag(v))| <= k <==> -(Power(128, k) as int) <= 2 * v < Power(128, k)
  {
    LebLengthIff(ZigZag(v), k);
    EvenPower(k);
  }

  lemma {:induction false} EvenPower(k: nat)
    requires k > 0
    ensures Power(128, k) % 2 == 0
  {
    assert Power(128, k) == 2 * (64 * Power(128, k - 1));
  }

  // The same on machine words: the sign is spread over all bits and mixed in.
  function ZigZagWord(v: bv64): bv64 { (v << 1) ^ (if v < 0x8000_0000_0000_0000 then 0 else 0xffff_ffff_ffff_ffff) }

  function UnZigZagWord(z: bv64): bv64 { (z >> 1) ^ (0 - (z & 1)) }

  lemma ZigZagWordCases(v: bv64)
    ensures v < 0x8000_0000_0000_0000 ==> ZigZagWord(v) == v + v
    ensures v >= 0x8000_0000_0000_0000 ==> ZigZagWord(v) == 0 - (v + v) - 1
  {
  }

  lemma UnZigZagWordCases(z: bv64)
    ensures z & 1 == 0 ==> UnZigZagWord(z) == z >> 1
    ensures z & 1 == 1 ==> UnZigZagWord(z) == 0 - (z >> 1) - 1
  {
  }

  // ---------------------------------------------------------------- fixed length

  function Fixed(u: nat, k: nat): (bytes: seq<u8>)
    ensures |bytes| == k
  {
    if k == 0 then [] else [(u % 256) as u8] + Fixed(u / 256, k - 1)
  }

  function FixedValue(bytes: seq<u8>): nat {
    if bytes == [] then 0 else bytes[0] as nat + 256 * FixedValue(bytes[1..])
  }

  lemma {:induction false} FixedRoundTrip(u: nat, k: nat)
    requires u < Power(256, k)
    ensures FixedValue(Fixed(u, k)) == u
  {
    if k > 0 {
      DivideSmaller256(u, Power(256, k - 1));
      FixedRoundTrip(u / 256, k - 1);
      assert Fixed(u, k)[1..] == Fixed(u / 256, k - 1);
    }
  }

  // Byte j holds digit j to the base 256.
  lemma {:induction false} FixedDigit(u: nat, k: nat, j: nat)
    requires j < k
    ensures Power(256, j) > 0 && Fixed(u, k)[j] as nat == u / Power(256, j) % 256
  {
    PowerPositive(256, j);
    if j > 0 {
      FixedDigit(u / 256, k - 1, j - 1);
      DivideTwice(u, 256, Power(256, j - 1));
    }
  }

  lemma DivideSmaller256(v: nat, m: nat)
    requires v < 256 * m
    ensures v / 256 < m
  {
  }
}
