// The signed encoding on machine words, bit by bit, and the arithmetic form of it.
module SignedWords {
  import Words
  import opened Codec
  import opened Probing

  // ---------------------------------------------------------------- the value of a word

  function Bit(b: bool): nat { if b then 1 else 0 }

  function Value(bits: seq<bool>): nat { if bits == [] then 0 else Bit(bits[0]) + 2 * Value(bits[1..]) }

  // The lowest n bits of a number.
  function Bits(u: nat, n: nat): (bits: seq<bool>)
    ensures |bits| == n
    decreases n
  {
    if n == 0 then [] else [u % 2 == 1] + Bits(u / 2, n - 1)
  }

  // The number a word stands for in two's complement.
  function Signed(w: Words.Word): int { Value(w[..63]) - if w[63] then 0x8000_0000_0000_0000 else 0 }

  lemma {:induction false} ValueOfBits(u: nat, n: nat)
    requires u < Pow2(n)
    ensures Value(Bits(u, n)) == u
    decreases n
  {
    if n > 0 {
      ValueOfBits(u / 2, n - 1);
      assert Bits(u, n)[1..] == Bits(u / 2, n - 1);
    }
  }

  lemma {:induction false} ValueBound(bits: seq<bool>)
    ensures Value(bits) < Pow2(|bits|)
  {
    if bits != [] { ValueBound(bits[1..]); }
  }

  lemma {:induction false} ValueConcat(a: seq<bool>, b: seq<bool>)
    ensures Value(a + b) == Value(a) + Pow2(|a|) * Value(b)
    decreases |a|
  {
    if a == [] {
      assert a + b == b;
    } else {
      ValueConcat(a[1..], b);
      assert (a + b)[1..] == a[1..] + b;
      Distribute2(Value(a[1..]), Pow2(|a| - 1), Value(b));
    }
  }

  lemma Distribute2(x: nat, p: nat, y: nat)
    ensures 2 * (x + p * y) == 2 * x + (2 * p) * y
  {
  }

  function Flip(bits: seq<bool>, mask: bool): (flipped: seq<bool>)
    ensures |flipped| == |bits|
  {
    seq(|bits|, i requires 0 <= i < |bits| => bits[i] != mask)
  }

  lemma {:induction false} FlipValue(bits: seq<bool>)
    ensures Value(Flip(bits, true)) == Pow2(|bits|) - 1 - Value(bits) && Flip(bits, false) == bits
  {
    if bits != [] {
      FlipValue(bits[1..]);
      assert Flip(bits, true)[1..] == Flip(bits[1..], true);
    }
  }

  lemma Powers()
    ensures Pow2(63) == 0x8000_0000_0000_0000 && Pow2(64) == TWO64
  {
    assert Pow2(8) == 256;
    assert Pow2(16) == 256 * Pow2(8);
    assert Pow2(24) == 256 * Pow2(16);
    assert Pow2(32) == 256 * Pow2(24);
    assert Pow2(40) == 256 * Pow2(32);
    assert Pow2(48) == 256 * Pow2(40);
    assert Pow2(56) == 256 * Pow2(48);
    assert Pow2(63) == 128 * Pow2(56);
  }

  // ---------------------------------------------------------------- every number has its word

  // The 64-bit two's complement of a number.
  function Unsigned(v: int): nat
    requires IsInt64(v)
  {
    if v < 0 then v + TWO64 else v
  }

  // The word has the bits of the number.
  predicate Holds(w: bv64, u: nat) { Words.Unpack(w) == Bits(u, 64) }

  function Low(bits: Words.Word, n: nat): Words.Word { seq(64, i requires 0 <= i < 64 => i < n && bits[i]) }

  lemma {:induction false} Packed(bits: Words.Word, n: nat) returns (w: bv64)
    requires n <= 64
    ensures Words.Unpack(w) == Low(bits, n)
  {
    if n == 0 {
      w := 0;
      Words.ConstantsRefine();
      assert Low(bits, 0) == Words.Zero();
    } else {
      w := Packed(bits, n - 1);
      if bits[n - 1] {
        w := OneMore(w, n - 1);
        assert Words.Or(Low(bits, n - 1), Words.Range(n - 1, n - 1)) == Low(bits, n);
      } else {
        assert Low(bits, n - 1) == Low(bits, n);
      }
    }
  }

  lemma OneMore(w: bv64, n: nat) returns (w': bv64)
    requires n < 64
    ensures Words.Unpack(w') == Words.Or(Words.Unpack(w), Words.Range(n, n))
  {
    w' := w | (1 << Words.Pos(n));
    Words.OrRefines(w, 1 << Words.Pos(n));
    Words.OneRefines(n);
  }

  // The lowest 64 bits of a number are held by exactly one word.
  lemma OneWord(u: nat) returns (w: bv64)
    ensures Holds(w, u) && forall x :: Holds(x, u) ==> x == w
  {
    w := Packed(Bits(u, 64), 64);
    assert Low(Bits(u, 64), 64) == Bits(u, 64);
    forall x | Holds(x, u) ensures x == w {
      Words.UnpackInjective(x, w);
    }
  }

  lemma TopBit(bits: Words.Word)
    ensures Value(bits) == Value(bits[..63]) + (if bits[63] then 0x8000_0000_0000_0000 else 0)
    ensures Value(bits[..63]) < 0x8000_0000_0000_0000
  {
    Powers();
    ValueConcat(bits[..63], [bits[63]]);
    assert bits == bits[..63] + [bits[63]] && [bits[63]][1..] == [];
    ValueBound(bits[..63]);
  }

  lemma SignedOfBits(v: int)
    requires IsInt64(v)
    ensures Signed(Bits(Unsigned(v), 64)) == v
  {
    Powers();
    ValueOfBits(Unsigned(v), 64);
    TopBit(Bits(Unsigned(v), 64));
  }

  // ---------------------------------------------------------------- the two formulas

  lemma PositiveAt(v: bv64, b: bv7)
    requires b < 64 && v < 0x8000_0000_0000_0000
    ensures Words.At(v << 1, b) == ((b > 0 && Words.At(v, b - 1)) != Words.At(v, 63))
  {
  }

  lemma NegativeAt(v: bv64, b: bv7)
    requires b < 64 && v >= 0x8000_0000_0000_0000
    ensures Words.At((v << 1) ^ 0xffff_ffff_ffff_ffff, b) == ((b > 0 && Words.At(v, b - 1)) != Words.At(v, 63))
  {
  }

  lemma ZigZagCases(v: bv64)
    ensures v < 0x8000_0000_0000_0000 ==> ZigZagWord(v) == v << 1
    ensures v >= 0x8000_0000_0000_0000 ==> ZigZagWord(v) == (v << 1) ^ 0xffff_ffff_ffff_ffff
  {
  }

  lemma ZigZagAt(v: bv64, b: bv7)
    requires b < 64
    ensures Words.At(ZigZagWord(v), b) == ((b > 0 && Words.At(v, b - 1)) != Words.At(v, 63))
  {
    ZigZagCases(v);
    if v < 0x8000_0000_0000_0000 { PositiveAt(v, b); } else { NegativeAt(v, b); }
  }

  lemma UnZigZagAt(z: bv64, b: bv7)
    requires b < 64
    ensures Words.At(UnZigZagWord(z), b) == ((b < 63 && Words.At(z, b + 1)) != Words.At(z, 0))
  {
  }

  lemma PosNext(i: nat)
    requires i < 63
    ensures Words.Pos(i + 1) == Words.Pos(i) + 1 && Words.Pos(i + 1) > 0 && Words.Pos(i) < 63
  {
    Words.PosOrder(i, 63);
    Ends();
  }

  lemma Ends()
    ensures Words.Pos(0) == 0 && Words.Pos(63) == 63
  {
    var i := Words.PosOnto(63);
    Words.PosBound(i);
    Words.PosBound(63);
  }

  lemma ZigZagBit(v: bv64, i: nat)
    requires i < 64
    ensures var bits := Words.Unpack(v);
            Words.Unpack(ZigZagWord(v))[i] == if i == 0 then bits[63] else bits[i - 1] != bits[63]
  {
    Ends();
    ZigZagAt(v, Words.Pos(i));
    if i > 0 { PosNext(i - 1); }
  }

  lemma UnZigZagBit(z: bv64, i: nat)
    requires i < 64
    ensures var bits := Words.Unpack(z);
            Words.Unpack(UnZigZagWord(z))[i] == if i == 63 then bits[0] else bits[i + 1] != bits[0]
  {
    Ends();
    UnZigZagAt(z, Words.Pos(i));
    if i < 63 { PosNext(i); }
  }

  lemma ZigZagBits(v: bv64)
    ensures var bits := Words.Unpack(v); Words.Unpack(ZigZagWord(v)) == [bits[63]] + Flip(bits[..63], bits[63])
  {
    var bits, z := Words.Unpack(v), Words.Unpack(ZigZagWord(v));
    forall i | 0 <= i < 64 ensures z[i] == ([bits[63]] + Flip(bits[..63], bits[63]))[i] {
      ZigZagBit(v, i);
    }
  }

  lemma UnZigZagBits(z: bv64)
    ensures var bits := Words.Unpack(z); Words.Unpack(UnZigZagWord(z)) == Flip(bits[1..], bits[0]) + [bits[0]]
  {
    var bits, v := Words.Unpack(z), Words.Unpack(UnZigZagWord(z));
    forall i | 0 <= i < 64 ensures v[i] == (Flip(bits[1..], bits[0]) + [bits[0]])[i] {
      UnZigZagBit(z, i);
    }
  }

  // The value of the mixed bits.
  lemma MixedValue(bits: seq<bool>, sign: bool)
    requires |bits| == 63
    ensures Value([sign] + Flip(bits, sign)) == if sign then TWO64 - 1 - 2 * Value(bits) else 2 * Value(bits)
  {
    Powers();
    FlipValue(bits);
    assert ([sign] + Flip(bits, sign))[1..] == Flip(bits, sign);
  }

  lemma UnmixedValue(bits: seq<bool>, sign: bool)
    requires |bits| == 63
    ensures Signed(Flip(bits, sign) + [sign]) == if sign then -1 - Value(bits) else Value(bits)
  {
    Powers();
    FlipValue(bits);
    var v := Flip(bits, sign) + [sign];
    assert v[..63] == Flip(bits, sign) && v[63] == sign;
  }

  // For every 64-bit number: shifting its two's complement and mixing in the sign gives
  // the word of the encoded number.
  lemma ZigZagOfWord(v: int, w: bv64)
    requires IsInt64(v) && Holds(w, Unsigned(v))
    ensures Value(Words.Unpack(ZigZagWord(w))) == ZigZag(v)
  {
    var bits: Words.Word := Bits(Unsigned(v), 64);
    SignedOfBits(v);
    ZigZagBits(w);
    MixedValue(bits[..63], bits[63]);
    TopBit(bits);
  }

  // And back: the word of an encoded number becomes the two's complement of the number.
  lemma UnZigZagOfWord(z: nat, w: bv64)
    requires z < TWO64 && Holds(w, z)
    ensures Signed(Words.Unpack(UnZigZagWord(w))) == UnZigZag(z)
  {
    var bits: Words.Word := Bits(z, 64);
    Powers();
    ValueOfBits(z, 64);
    UnZigZagBits(w);
    UnmixedValue(bits[1..], bits[0]);
  }
}
