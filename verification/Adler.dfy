// Adler-32 sums (section 2.2 of RFC 1950) with deferred reduction: the scalar
// update and the update on 32-byte vectors.  Every register is a 32-bit value,
// so that verification includes the absence of overflow.
module Adler {

  newtype u8 = x: int | 0 <= x < 256
  newtype u32 = x: int | 0 <= x < 0x1_0000_0000

  const MOD := 65521
  const CHUNK := 5552
  const CHUNK_SIMD := 5552 / 32 * 32

  datatype Sums = Sums(s1: nat, s2: nat)

  // ------------------------------------------------------------ reference

  function Feed(s: Sums, b: u8): Sums {
    var s1 := (s.s1 + b as nat) % MOD;
    Sums(s1, (s.s2 + s1) % MOD)
  }

  // The definition: both sums reduced after every byte.
  function Adler32(s: Sums, data: seq<u8>): Sums {
    if data == [] then s else Feed(Adler32(s, data[..|data| - 1]), data[|data| - 1])
  }

  // Summing block by block is summing the whole.
  lemma {:induction false} Blockwise(s: Sums, a: seq<u8>, b: seq<u8>)
    ensures Adler32(Adler32(s, a), b) == Adler32(s, a + b)
    decreases |b|
  {
    if b == [] {
      assert a + b == a;
    } else {
      Blockwise(s, a, b[..|b| - 1]);
      assert (a + b)[..|a + b| - 1] == a + b[..|b| - 1];
    }
  }

  // The well-known sums of the nine bytes of "Wikipedia".
  lemma KnownSums()
    ensures Adler32(Sums(1, 0), [0x57, 0x69, 0x6b, 0x69, 0x70, 0x65, 0x64, 0x69, 0x61]) == Sums(0x398, 0x11e6)
  {
    var d: seq<u8> := [0x57, 0x69, 0x6b, 0x69, 0x70, 0x65, 0x64, 0x69, 0x61];
    assert d[..0] == [] && d[..9] == d;
    OneMoreByte(d, 1, Sums(1, 0), Sums(88, 88));
    OneMoreByte(d, 2, Sums(88, 88), Sums(193, 281));
    OneMoreByte(d, 3, Sums(193, 281), Sums(300, 581));
    OneMoreByte(d, 4, Sums(300, 581), Sums(405, 986));
    OneMoreByte(d, 5, Sums(405, 986), Sums(517, 1503));
    OneMoreByte(d, 6, Sums(517, 1503), Sums(618, 2121));
    OneMoreByte(d, 7, Sums(618, 2121), Sums(718, 2839));
    OneMoreByte(d, 8, Sums(718, 2839), Sums(823, 3662));
    OneMoreByte(d, 9, Sums(823, 3662), Sums(920, 4582));
  }

  lemma OneMoreByte(d: seq<u8>, n: nat, before: Sums, after: Sums)
    requires 0 < n <= |d| && Adler32(Sums(1, 0), d[..n - 1]) == before
    requires after.s1 == before.s1 + d[n - 1] as nat < MOD && after.s2 == before.s2 + after.s1 < MOD
    ensures Adler32(Sums(1, 0), d[..n]) == after
  {
    assert d[..n][..n - 1] == d[..n - 1];
  }

  // ------------------------------------------------------------ closed form

  // Plain byte sum, and the sum weighted by the distance to the end.
  function Plain(d: seq<u8>): nat {
    if d == [] then 0 else Plain(d[..|d| - 1]) + d[|d| - 1] as nat
  }

  function Weighted(d: seq<u8>): nat {
    if d == [] then 0 else Weighted(d[..|d| - 1]) + Plain(d)
  }

  lemma SnocSums(d: seq<u8>, b: u8)
    ensures Plain(d + [b]) == Plain(d) + b as nat && Weighted(d + [b]) == Weighted(d) + Plain(d) + b as nat
  {
    assert (d + [b])[..|d|] == d;
  }

  lemma OneMore(n: nat, x: nat)
    ensures (n + 1) * x == n * x + x
  {
  }

  lemma {:induction false} ConcatSums(a: seq<u8>, b: seq<u8>)
    ensures Plain(a + b) == Plain(a) + Plain(b)
    ensures Weighted(a + b) == Weighted(a) + |b| * Plain(a) + Weighted(b)
    decreases |b|
  {
    if b == [] {
      assert a + b == a;
    } else {
      var e, x := b[..|b| - 1], b[|b| - 1];
      ConcatSums(a, e);
      SnocSums(a + e, x);
      assert a + e + [x] == a + b;
      OneMore(|e|, Plain(a));
    }
  }

  lemma {:induction false} SumBounds(d: seq<u8>)
    ensures Plain(d) <= 255 * |d|
    ensures 2 * Weighted(d) <= 255 * (|d| * (|d| + 1))
  {
    if d != [] {
      SumBounds(d[..|d| - 1]);
      var n := |d|;
      assert n * (n + 1) == (n - 1) * n + 2 * n;
    }
  }

  lemma Monotone(a: nat, b: nat, c: nat, d: nat)
    requires a <= c && b <= d
    ensures 0 <= a * b <= c * d
  {
    assert a * b <= a * d <= c * d;
  }

  lemma ChunkBounds(d: seq<u8>)
    requires |d| <= CHUNK_SIMD
    ensures Plain(d) <= 255 * 5536 && Weighted(d) <= 3908236080
  {
    SumBounds(d);
    Monotone(|d|, |d| + 1, 5536, 5537);
  }

  // The sums without any reduction.
  function Unreduced(s: Sums, d: seq<u8>): Sums {
    if d == [] then s else
    var p, b := Unreduced(s, d[..|d| - 1]), d[|d| - 1] as nat;
    Sums(p.s1 + b, p.s2 + p.s1 + b)
  }

  lemma UnreducedSnoc(s: Sums, d: seq<u8>, b: u8)
    ensures var p := Unreduced(s, d); Unreduced(s, d + [b]) == Sums(p.s1 + b as nat, p.s2 + p.s1 + b as nat)
  {
    assert (d + [b])[..|d|] == d;
  }

  // Reduction may wait until the end.
  lemma {:induction false} ReduceLate(s: Sums, d: seq<u8>)
    requires s.s1 < MOD && s.s2 < MOD
    ensures Adler32(s, d) == Sums(Unreduced(s, d).s1 % MOD, Unreduced(s, d).s2 % MOD)
  {
    if d != [] {
      var e := d[..|d| - 1];
      ReduceLate(s, e);
      FeedLate(Unreduced(s, e).s1, Unreduced(s, e).s2, d[|d| - 1]);
    }
  }

  lemma FeedLate(x: nat, y: nat, b: u8)
    ensures Feed(Sums(x % MOD, y % MOD), b) == Sums((x + b as nat) % MOD, (y + x + b as nat) % MOD)
  {
    AddMod(x, b as nat);
    AddMod(y, x % MOD + b as nat);
    AddMod(y, x + b as nat);
    assert (y % MOD + (x % MOD + b as nat) % MOD) % MOD == (y + x + b as nat) % MOD;
  }

  lemma AddMod(x: nat, y: nat)
    ensures (x % MOD + y) % MOD == (x + y) % MOD && (x % MOD + y % MOD) % MOD == (x + y) % MOD
  {
  }

  lemma {:induction false} ClosedForm(s: Sums, d: seq<u8>)
    ensures Unreduced(s, d) == Sums(s.s1 + Plain(d), s.s2 + |d| * s.s1 + Weighted(d))
    decreases |d|
  {
    if d != [] {
      ClosedForm(s, d[..|d| - 1]);
      OneMore(|d| - 1, s.s1);
    }
  }

  // ------------------------------------------------------------ scalar update

  // The registers are the unreduced sums less multiples q1, q2 of the modulus.
  predicate Stands(r1: u32, r2: u32, q1: nat, q2: nat, s: Sums, d: seq<u8>) {
    r1 as int + 65521 * q1 == Unreduced(s, d).s1 && r2 as int + 65521 * q2 == Unreduced(s, d).s2
  }

  method AddByte(s1: u32, s2: u32, b: u8, ghost q1: nat, ghost q2: nat, ghost s: Sums, ghost d: seq<u8>)
    returns (r1: u32, r2: u32)
    requires s1 < 70000 && s2 < 4000000000 && Stands(s1, s2, q1, q2, s, d)
    ensures r1 as int == s1 as int + b as int && r2 as int == s2 as int + r1 as int
    ensures Stands(r1, r2, q1, q2 + q1, s, d + [b])
  {
    UnreducedSnoc(s, d, b);
    r1 := s1 + b as u32;
    r2 := s2 + r1;
  }

  method AddFour(s1: u32, s2: u32, c: seq<u8>, ghost q1: nat, ghost q2: nat, ghost s: Sums, ghost d: seq<u8>)
    returns (r1: u32, r2: u32)
    requires s1 < 67000 && s2 < 3900000000 && |c| == 4 && Stands(s1, s2, q1, q2, s, d)
    ensures r1 as int <= s1 as int + 4 * 255 && r2 as int <= s2 as int + 4 * (s1 as int + 4 * 255)
    ensures Stands(r1, r2, q1, q2 + 4 * q1, s, d + c)
  {
    r1, r2 := AddByte(s1, s2, c[0], q1, q2, s, d);
    r1, r2 := AddByte(r1, r2, c[1], q1, q2 + q1, s, d + [c[0]]);
    r1, r2 := AddByte(r1, r2, c[2], q1, q2 + 2 * q1, s, d + [c[0]] + [c[1]]);
    r1, r2 := AddByte(r1, r2, c[3], q1, q2 + 3 * q1, s, d + [c[0]] + [c[1]] + [c[2]]);
    assert d + [c[0]] + [c[1]] + [c[2]] + [c[3]] == d + c;
  }

  // Eight bytes without any reduction.
  method AddEight(s1: u32, s2: u32, c: seq<u8>, ghost q1: nat, ghost q2: nat, ghost s: Sums, ghost d: seq<u8>)
    returns (r1: u32, r2: u32)
    requires s1 < 65521 && s2 < 3000000000 && |c| == 8 && Stands(s1, s2, q1, q2, s, d)
    ensures r1 as int <= s1 as int + 8 * 255 && r2 as int <= s2 as int + 8 * (65520 + 8 * 255)
    ensures Stands(r1, r2, q1, q2 + 8 * q1, s, d + c)
  {
    r1, r2 := AddFour(s1, s2, c[..4], q1, q2, s, d);
    r1, r2 := AddFour(r1, r2, c[4..], q1, q2 + 4 * q1, s, d + c[..4]);
    assert d + c[..4] + c[4..] == d + c;
  }

  // One conditional subtraction reduces a value below twice the modulus.
  method SubtractOnce(r: u32, ghost q: nat) returns (t: u32, ghost p: nat)
    requires r < 131042
    ensures t < 65521 && t as int + 65521 * p == r as int + 65521 * q
  {
    t, p := r, q;
    if r >= 65521 { t, p := r - 65521, q + 1; }
  }

  method Reduce(r: u32, ghost q: nat) returns (t: u32, ghost p: nat)
    ensures t < 65521 && t as int + 65521 * p == r as int + 65521 * q
  {
    t, p := r % 65521, q + r as nat / 65521;
  }

  // The first length % 8 bytes.
  method UpdateHead(s1: u32, s2: u32, input: seq<u8>) returns (r1: u32, r2: u32, i: nat, ghost q1: nat, ghost q2: nat)
    requires s1 < 65521 && s2 < 65521
    ensures i <= |input| && (|input| - i) % 8 == 0 && r1 < 65521 && r2 < 65521
    ensures Stands(r1, r2, q1, q2, Sums(s1 as nat, s2 as nat), input[..i])
  {
    ghost var s := Sums(s1 as nat, s2 as nat);
    r1, r2, i, q1, q2 := s1, s2, 0, 0, 0;
    var length := |input|;
    assert input[..0] == [];
    if length % 8 != 0 {
      while length % 8 != 0
        invariant 0 <= length && i + length == |input| && i <= 7 && i + length % 8 == |input| % 8
        invariant r1 as int <= 65520 + 255 * i && r2 as int <= 65520 + i * 67305
        invariant q1 == 0 && Stands(r1, r2, 0, 0, s, input[..i])
        decreases length
      {
        r1, r2 := AddByte(r1, r2, input[i], 0, 0, s, input[..i]);
        assert input[..i] + [input[i]] == input[..i + 1];
        i, length := i + 1, length - 1;
      }
      r1, q1 := SubtractOnce(r1, 0);
      r2, q2 := Reduce(r2, 0);
    }
  }

  // `since` bytes were added to s2 after it was last reduced, with `length` to go.
  predicate SinceOk(length: nat, since: nat) {
    length % 8 == 0 && if length % 0x8000 == 0 then since == 0 else since <= 0x8000 - length % 0x8000
  }

  lemma SinceStep(length: nat, since: nat)
    requires SinceOk(length, since) && length > 0
    ensures length >= 8 && since <= 0x8000 - 8
    ensures SinceOk(length - 8, if (length - 8) % 0x8000 == 0 then 0 else since + 8)
  {
  }

  // adler32_update: one conditional subtraction for s1 per eight bytes, and s2
  // reduced only when the remaining length is a multiple of 0x8000.
  method Update(s1: u32, s2: u32, input: seq<u8>) returns (r1: u32, r2: u32)
    requires s1 < 65521 && s2 < 65521
    ensures r1 < 65521 && r2 < 65521
    ensures Sums(r1 as nat, r2 as nat) == Adler32(Sums(s1 as nat, s2 as nat), input)
  {
    ghost var s := Sums(s1 as nat, s2 as nat);
    var i: nat;
    ghost var q1: nat, q2: nat;
    r1, r2, i, q1, q2 := UpdateHead(s1, s2, input);
    var length: nat := |input| - i;
    ghost var since: nat := if length % 0x8000 == 0 then 0 else 0x8000 - length % 0x8000;
    while length > 0
      invariant i + length == |input| && r1 < 65521 && SinceOk(length, since)
      invariant r2 as int <= 65520 + since * 67560
      invariant Stands(r1, r2, q1, q2, s, input[..i])
    {
      SinceStep(length, since);
      r1, r2 := AddEight(r1, r2, input[i..i + 8], q1, q2, s, input[..i]);
      q2 := q2 + 8 * q1;
      assert input[..i] + input[i..i + 8] == input[..i + 8];
      length, i := length - 8, i + 8;
      r1, q1 := SubtractOnce(r1, q1);
      if length % 0x8000 == 0 {
        r2, q2 := Reduce(r2, q2);
        since := 0;
      } else {
        since := since + 8;
      }
    }
    assert input[..i] == input;
    Settled(r1, r2, q1, q2, s, input);
  }

  // Reduced registers that stand for the sums are the Adler-32 sums.
  lemma Settled(r1: u32, r2: u32, q1: nat, q2: nat, s: Sums, d: seq<u8>)
    requires s.s1 < MOD && s.s2 < MOD && r1 < 65521 && r2 < 65521 && Stands(r1, r2, q1, q2, s, d)
    ensures Sums(r1 as nat, r2 as nat) == Adler32(s, d)
  {
    ReduceLate(s, d);
    Remainder(r1 as nat, q1);
    Remainder(r2 as nat, q2);
  }

  lemma Remainder(r: nat, q: nat)
    requires r < MOD
    ensures (r + 65521 * q) % MOD == r
  {
  }

  // ------------------------------------------------------------ vector update

  // Eight 32-bit lanes.
  type Lanes = v: seq<u32> | |v| == 8 witness [0, 0, 0, 0, 0, 0, 0, 0]

  function Total(v: Lanes): nat {
    v[0] as nat + v[1] as nat + v[2] as nat + v[3] as nat + v[4] as nat + v[5] as nat + v[6] as nat + v[7] as nat
  }

  // Signed saturation of a 16-bit lane.
  function Sat16(x: nat): (r: nat)
  {
    if x > 32767 then 32767 else x
  }

  // maddubs: adjacent products of 32 bytes with the coefficients 32, 31, ..., 1.
  function MulPair(c: seq<u8>, k: nat): (r: nat)
    requires |c| == 32 && k < 16
    ensures r == (32 - 2 * k) * c[2 * k] as nat + (31 - 2 * k) * c[2 * k + 1] as nat
  {
    var a, b := c[2 * k] as nat, c[2 * k + 1] as nat;
    assert (32 - 2 * k) * a <= 32 * 255 && (31 - 2 * k) * b <= 31 * 255;
    Sat16((32 - 2 * k) * a + (31 - 2 * k) * b)
  }

  // maddubs followed by madd with ones.
  function MulLane(c: seq<u8>, l: nat): (r: u32)
    requires |c| == 32 && l < 8
    ensures r as nat == MulPair(c, 2 * l) + MulPair(c, 2 * l + 1)
  {
    assert MulPair(c, 2 * l) <= 32767 && MulPair(c, 2 * l + 1) <= 32767;
    (MulPair(c, 2 * l) + MulPair(c, 2 * l + 1)) as u32
  }

  function MulSum(c: seq<u8>): (v: Lanes)
    requires |c| == 32
  {
    [MulLane(c, 0), MulLane(c, 1), MulLane(c, 2), MulLane(c, 3), MulLane(c, 4), MulLane(c, 5), MulLane(c, 6),
        MulLane(c, 7)]
  }

  function EightBytes(c: seq<u8>, q: nat): (r: u32)
    requires |c| == 32 && q < 4
  {
    c[8 * q] as u32 + c[8 * q + 1] as u32 + c[8 * q + 2] as u32 + c[8 * q + 3] as u32
    + c[8 * q + 4] as u32 + c[8 * q + 5] as u32 + c[8 * q + 6] as u32 + c[8 * q + 7] as u32
  }

  // sad: sums of eight bytes in the even lanes.
  function Sad(c: seq<u8>): (v: Lanes)
    requires |c| == 32
  {
    [EightBytes(c, 0), 0, EightBytes(c, 1), 0, EightBytes(c, 2), 0, EightBytes(c, 3), 0]
  }

  function Four(c: seq<u8>, l: nat): nat
    requires |c| == 32 && l < 8
  {
    c[4 * l] as nat + c[4 * l + 1] as nat + c[4 * l + 2] as nat + c[4 * l + 3] as nat
  }

  function FourWeighted(c: seq<u8>, l: nat): nat
    requires |c| == 32 && l < 8
  {
    4 * c[4 * l] as nat + 3 * c[4 * l + 1] as nat + 2 * c[4 * l + 2] as nat + c[4 * l + 3] as nat
  }

  lemma AppendFour(c: seq<u8>, l: nat)
    requires |c| == 32 && l < 8
    ensures var d, e := c[..4 * l], c[..4 * l + 4];
            Plain(e) == Plain(d) + Four(c, l) && Weighted(e) == Weighted(d) + 4 * Plain(d) + FourWeighted(c, l)
  {
    var i := 4 * l;
    assert c[..i + 1] == c[..i] + [c[i]] && c[..i + 2] == c[..i + 1] + [c[i + 1]];
    assert c[..i + 3] == c[..i + 2] + [c[i + 2]] && c[..i + 4] == c[..i + 3] + [c[i + 3]];
    SnocSums(c[..i], c[i]);
    SnocSums(c[..i + 1], c[i + 1]);
    SnocSums(c[..i + 2], c[i + 2]);
    SnocSums(c[..i + 3], c[i + 3]);
  }

  // Each lane carries the weight of its four bytes up to the end of the vector.
  lemma LaneValue(c: seq<u8>, l: nat)
    requires |c| == 32 && l < 8
    ensures MulLane(c, l) as nat == FourWeighted(c, l) + (28 - 4 * l) * Four(c, l)
  {
    Distribute(28 - 4 * l, c[4 * l] as nat, c[4 * l + 1] as nat, c[4 * l + 2] as nat, c[4 * l + 3] as nat);
  }

  lemma Distribute(w: nat, a: nat, b: nat, c: nat, d: nat)
    ensures (w + 4) * a + (w + 3) * b + (w + 2) * c + (w + 1) * d == 4 * a + 3 * b + 2 * c + d + w * (a + b + c + d)
  {
    assert (w + 4) * a == w * a + 4 * a && (w + 3) * b == w * b + 3 * b && (w + 2) * c == w * c + 2 * c;
    assert w * (a + b + c + d) == w * a + w * b + w * c + w * d;
  }

  function PlainTotal(c: seq<u8>): nat
    requires |c| == 32
  {
    Four(c, 0) + Four(c, 1) + Four(c, 2) + Four(c, 3) + Four(c, 4) + Four(c, 5) + Four(c, 6) + Four(c, 7)
  }

  function WeightedTotal(c: seq<u8>): nat
    requires |c| == 32
  {
    FourWeighted(c, 0) + FourWeighted(c, 1) + FourWeighted(c, 2) + FourWeighted(c, 3)
    + FourWeighted(c, 4) + FourWeighted(c, 5) + FourWeighted(c, 6) + FourWeighted(c, 7)
    + 28 * Four(c, 0) + 24 * Four(c, 1) + 20 * Four(c, 2) + 16 * Four(c, 3) + 12 * Four(c, 4)
    + 8 * Four(c, 5) + 4 * Four(c, 6)
  }

  lemma MulTotal(c: seq<u8>)
    requires |c| == 32
    ensures Total(MulSum(c)) == WeightedTotal(c)
  {
    assert forall l :: 0 <= l < 8 ==> MulSum(c)[l] == MulLane(c, l);
    forall l | 0 <= l < 8 ensures MulLane(c, l) as nat == FourWeighted(c, l) + (28 - 4 * l) * Four(c, l) {
      LaneValue(c, l);
    }
  }

  lemma SadTotal(c: seq<u8>)
    requires |c| == 32
    ensures Total(Sad(c)) == PlainTotal(c)
  {
  }

  lemma HalfTotals(c: seq<u8>, l: nat)
    requires |c| == 32 && l <= 4
    ensures var d, e := c[..4 * l], c[..4 * l + 16];
            && Plain(e) == Plain(d) + Four(c, l) + Four(c, l + 1) + Four(c, l + 2) + Four(c, l + 3)
            && Weighted(e) == Weighted(d) + 16 * Plain(d) + 12 * Four(c, l) + 8 * Four(c, l + 1) + 4 * Four(c, l + 2)
                 + FourWeighted(c, l) + FourWeighted(c, l + 1) + FourWeighted(c, l + 2) + FourWeighted(c, l + 3)
  {
    AppendFour(c, l); AppendFour(c, l + 1); AppendFour(c, l + 2); AppendFour(c, l + 3);
  }

  lemma ByteTotals(c: seq<u8>)
    requires |c| == 32
    ensures Weighted(c) == WeightedTotal(c) && Plain(c) == PlainTotal(c)
  {
    HalfTotals(c, 0);
    HalfTotals(c, 4);
    assert c[..0] == [] && c[..32] == c;
  }

  // One vector step adds exactly the weighted and the plain sum of its 32 bytes.
  lemma VectorSums(c: seq<u8>)
    requires |c| == 32
    ensures Total(MulSum(c)) == Weighted(c) && Total(Sad(c)) == Plain(c)
  {
    ByteTotals(c);
    MulTotal(c);
    SadTotal(c);
  }

  // Lane-wise addition.
  function AddLanes(a: Lanes, b: Lanes): (v: Lanes)
    requires Total(a) + Total(b) < 0x1_0000_0000
    ensures Total(v) == Total(a) + Total(b)
  {
    [a[0] + b[0], a[1] + b[1], a[2] + b[2], a[3] + b[3], a[4] + b[4], a[5] + b[5], a[6] + b[6], a[7] + b[7]]
  }

  // Lane-wise shift left by five.
  function Shift5(a: Lanes): (v: Lanes)
    requires 32 * Total(a) < 0x1_0000_0000
    ensures Total(v) == 32 * Total(a)
  {
    [32 * a[0], 32 * a[1], 32 * a[2], 32 * a[3], 32 * a[4], 32 * a[5], 32 * a[6], 32 * a[7]]
  }

  // The body of the inner loop.
  method AddVector(sumV: Lanes, sum2V: Lanes, c: seq<u8>, ghost before: seq<u8>) returns (newSum: Lanes, newSum2: Lanes)
    requires |c| == 32 && |before| + 32 <= CHUNK_SIMD
    requires Total(sumV) == Plain(before) && Total(sum2V) == Weighted(before)
    ensures Total(newSum) == Plain(before + c) && Total(newSum2) == Weighted(before + c)
  {
    VectorSums(c);
    ConcatSums(before, c);
    ChunkBounds(before + c);
    newSum2 := AddLanes(sum2V, MulSum(c));
    newSum2 := AddLanes(newSum2, Shift5(sumV));
    newSum := AddLanes(sumV, Sad(c));
  }

  // The inner loop over one chunk: lane totals are the plain and weighted sums.
  method SumChunk(chunk: seq<u8>) returns (sum: u32, sum2: u32)
    requires |chunk| <= CHUNK_SIMD && |chunk| % 32 == 0
    ensures sum as nat == Plain(chunk) && sum2 as nat == Weighted(chunk)
  {
    var sumV: Lanes, sum2V: Lanes := [0, 0, 0, 0, 0, 0, 0, 0], [0, 0, 0, 0, 0, 0, 0, 0];
    var i := 0;
    while i < |chunk|
      invariant 0 <= i <= |chunk| && i % 32 == 0
      invariant Total(sumV) == Plain(chunk[..i]) && Total(sum2V) == Weighted(chunk[..i])
    {
      sumV, sum2V := AddVector(sumV, sum2V, chunk[i..i + 32], chunk[..i]);
      assert chunk[..i] + chunk[i..i + 32] == chunk[..i + 32];
      i := i + 32;
    }
    assert chunk[..i] == chunk;
    ChunkBounds(chunk);
    sum, sum2 := Total(sumV) as u32, Total(sum2V) as u32;
  }

  // One chunk of the outer loop, reduced once at its end.
  method AddChunk(s1: u32, s2: u32, chunk: seq<u8>) returns (sum: u32, sum2: u32)
    requires s1 < 65521 && s2 < 65521 && |chunk| <= CHUNK_SIMD && |chunk| % 32 == 0
    ensures sum < 65521 && sum2 < 65521
    ensures Sums(sum as nat, sum2 as nat) == Adler32(Sums(s1 as nat, s2 as nat), chunk)
  {
    var a, b := SumChunk(chunk);
    ChunkBounds(chunk);
    ghost var s := Sums(s1 as nat, s2 as nat);
    var product := |chunk| * s1 as nat;
    Monotone(|chunk|, s1 as nat, 5536, 65520);
    sum2 := s2 + product as u32;
    sum2 := sum2 + b;
    sum := s1 + a;
    ClosedForm(s, chunk);
    ReduceLate(s, chunk);
    sum, sum2 := sum % 65521, sum2 % 65521;
  }

  // The scalar loop over the bytes left at the end.
  method AddTail(s1: u32, s2: u32, data: seq<u8>) returns (sum: u32, sum2: u32)
    requires s1 < 65521 && s2 < 65521 && |data| <= CHUNK
    ensures sum < 65521 && sum2 < 65521
    ensures Sums(sum as nat, sum2 as nat) == Adler32(Sums(s1 as nat, s2 as nat), data)
  {
    ghost var s := Sums(s1 as nat, s2 as nat);
    sum, sum2 := s1, s2;
    var i := 0;
    assert data[..0] == [];
    while i != |data|
      invariant 0 <= i <= |data|
      invariant sum as int == Unreduced(s, data[..i]).s1 && sum2 as int == Unreduced(s, data[..i]).s2
    {
      UnreducedSnoc(s, data[..i], data[i]);
      assert data[..i + 1] == data[..i] + [data[i]];
      TailBounds(s, data[..i + 1]);
      sum := sum + data[i] as u32;
      sum2 := sum2 + sum;
      i := i + 1;
    }
    assert data[..i] == data;
    ReduceLate(s, data);
    sum, sum2 := sum % 65521, sum2 % 65521;
  }

  // 5552 is the largest length for which the second sum always fits 32 bits.
  lemma TailBounds(s: Sums, d: seq<u8>)
    requires s.s1 < MOD && s.s2 < MOD && |d| <= CHUNK
    ensures Unreduced(s, d).s1 < 0x1_0000_0000 && Unreduced(s, d).s2 < 0x1_0000_0000
  {
    ClosedForm(s, d);
    SumBounds(d);
    Monotone(|d|, |d| + 1, 5552, 5553);
    Monotone(|d|, s.s1, 5552, 65520);
  }

  function VectorChunk(length: nat): (n: nat)
    requires length >= 32
    ensures 32 <= n <= length && n <= CHUNK_SIMD && n % 32 == 0
  {
    var n := length - length % 32;
    if n > CHUNK_SIMD then CHUNK_SIMD else n
  }

  lemma Extend(s: Sums, data: seq<u8>, i: nat, n: nat)
    requires i + n <= |data|
    ensures Adler32(Adler32(s, data[..i]), data[i..i + n]) == Adler32(s, data[..i + n])
  {
    Blockwise(s, data[..i], data[i..i + n]);
    assert data[..i] + data[i..i + n] == data[..i + n];
  }

  // The chunks of whole vectors.
  method AddVectors(s1: u32, s2: u32, data: seq<u8>) returns (sum: u32, sum2: u32, i: nat)
    requires s1 < 65521 && s2 < 65521
    ensures sum < 65521 && sum2 < 65521 && |data| - 32 < i <= |data|
    ensures Sums(sum as nat, sum2 as nat) == Adler32(Sums(s1 as nat, s2 as nat), data[..i])
  {
    ghost var s := Sums(s1 as nat, s2 as nat);
    sum, sum2, i := s1, s2, 0;
    var length: nat := |data|;
    assert data[..0] == [];
    while length >= 32
      invariant i + length == |data| && sum < 65521 && sum2 < 65521
      invariant Sums(sum as nat, sum2 as nat) == Adler32(s, data[..i])
    {
      var n := VectorChunk(length);
      length := length - n;
      Extend(s, data, i, n);
      sum, sum2 := AddChunk(sum, sum2, data[i..i + n]);
      i := i + n;
    }
  }

  // adler32_update_avx2: chunks of at most 5536 bytes, then a scalar tail.
  method UpdateAvx2(s1: u32, s2: u32, data: seq<u8>) returns (sum: u32, sum2: u32)
    requires s1 < 65521 && s2 < 65521
    ensures sum < 65521 && sum2 < 65521
    ensures Sums(sum as nat, sum2 as nat) == Adler32(Sums(s1 as nat, s2 as nat), data)
  {
    ghost var s := Sums(s1 as nat, s2 as nat);
    var i;
    sum, sum2, i := AddVectors(s1, s2, data);
    var length := |data| - i;
    while length > 0
      invariant 0 <= length < 32 && i + length == |data| && sum < 65521 && sum2 < 65521
      invariant Sums(sum as nat, sum2 as nat) == Adler32(s, data[..i])
    {
      var n := if length > CHUNK then CHUNK else length;
      length := length - n;
      Extend(s, data, i, n);
      sum, sum2 := AddTail(sum, sum2, data[i..i + n]);
      i := i + n;
    }
    assert data[..i] == data;
  }
}
