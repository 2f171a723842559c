// Probe sequences: triangular in the identifier table, where slot k of a key is
// found by adding 1, 2, 3, ... to its home slot modulo a power of two, and linear
// in the hash tables.
module Probing {

  function Pow2(n: nat): (r: nat)
    ensures r >= 1
  {
    if n == 0 then 1 else 2 * Pow2(n - 1)
  }

  ghost predicate IsPow2(size: nat) {
    exists n: nat :: size == Pow2(n)
  }

  function Tri(k: nat): nat {
    if k == 0 then 0 else Tri(k - 1) + k
  }

  lemma {:induction false} TriValue(k: nat)
    ensures 2 * Tri(k) == k * (k + 1)
  {
    if k > 0 {
      TriValue(k - 1);
      assert k * (k + 1) == (k - 1) * k + 2 * k;
    }
  }

  // The k-th slot tried for a given hash in a table of the given size.
  function PathSlot(hash: nat, k: nat, size: nat): (slot: nat)
    requires size > 0
    ensures slot < size
  {
    (hash + Tri(k)) % size
  }

  // One step of the incremental form in the source: slot = (slot + i) & (size - 1), i++.
  lemma PathStep(hash: nat, k: nat, size: nat)
    requires size > 0
    ensures PathSlot(hash, k + 1, size) == (PathSlot(hash, k, size) + (k + 1)) % size
  {
    ModAdd(hash + Tri(k), k + 1, size);
  }

  lemma ModAdd(a: nat, b: nat, m: nat)
    requires m > 0
    ensures (a % m + b) % m == (a + b) % m
  {
    var x := a % m + b;
    var p, q := a / m, x / m;
    assert a + b == m * p + m * q + x % m;
    assert m * p + m * q == m * (p + q);
    DivModUnique(a + b, m, p + q, x % m);
  }

  // Quotient and remainder are determined by the division equation.
  lemma DivModUnique(x: nat, m: nat, q: int, r: nat)
    requires m > 0 && x == m * q + r && r < m
    ensures x % m == r && x / m == q
  {
    var d := q - x / m;
    assert m * d == x % m - r by { assert m * d == m * q - m * (x / m); }
    MulBounds(m, d);
  }

  // Below twice the modulus a remainder is found by one subtraction.
  lemma WrapOnce(x: nat, m: nat)
    requires x < 2 * m
    ensures x % m == if x < m then x else x - m
  {
    DivModUnique(x, m, if x < m then 0 else 1, if x < m then x else x - m);
  }

  // Linear probing; masking with a power of two minus one is written as a remainder.
  function LinearSlot(hash: nat, k: nat, size: nat): (slot: nat)
    requires size > 0
    ensures slot < size
  {
    (hash + k) % size
  }

  // Linear probing: the next slot, and every slot is reached in one round.
  lemma LinearStep(hash: nat, k: nat, m: nat)
    requires m > 0
    ensures ((hash + k) % m + 1) % m == (hash + (k + 1)) % m
  {
    ModAdd(hash + k, 1, m);
  }

  lemma LinearVisitsAll(hash: nat, m: nat, q: nat) returns (k: nat)
    requires q < m
    ensures k < m && (hash + k) % m == q
  {
    var r := hash % m;
    k := if q >= r then q - r else q + m - r;
    ModAdd(hash, k, m);
    WrapOnce(r + k, m);
  }

  // If 2^m divides a * b and b is odd then 2^m divides a, so a positive a is at least 2^m.
  lemma {:induction false} OddFactor(m: nat, a: nat, b: nat, c: nat)
    requires b % 2 == 1 && 0 < a
    requires a * b == Pow2(m) * c
    ensures a >= Pow2(m)
  {
    if m > 0 {
      DoubleProduct(Pow2(m - 1), c);
      EvenProduct(a, b, Pow2(m - 1) * c);
      DoubleProduct(a / 2, b);
      OddFactor(m - 1, a / 2, b, c);
    }
  }

  lemma DoubleProduct(a: nat, c: nat)
    ensures (2 * a) * c == 2 * (a * c)
  {
  }

  lemma EvenProduct(a: nat, b: nat, half: nat)
    requires b % 2 == 1 && a * b == 2 * half
    ensures a % 2 == 0
  {
    var y := b / 2;
    assert a * b == a * (2 * y) + a;
    assert a * (2 * y) == 2 * (a * y);
  }

  lemma MulBounds(p: nat, d: int)
    ensures d >= 1 ==> p * d >= p
    ensures d <= -1 ==> p * d + p <= 0
  {
  }

  // Two different steps below the table size never land on the same slot.
  lemma TriangularDistinct(hash: nat, n: nat, k: nat, l: nat)
    requires k < l < Pow2(n)
    ensures PathSlot(hash, k, Pow2(n)) != PathSlot(hash, l, Pow2(n))
  {
    if PathSlot(hash, k, Pow2(n)) == PathSlot(hash, l, Pow2(n)) {
      var c := Collision(hash, k, l, Pow2(n));
      SmallFactors(n + 1, l - k, l + k + 1, c);
    }
  }

  // Factors of different parity: one of them is at least 2^m if 2^m divides the product.
  lemma SmallFactors(m: nat, a: nat, b: nat, c: nat)
    requires 0 < a && 0 < b && (a + b) % 2 == 1 && a * b == Pow2(m) * c
    ensures a >= Pow2(m) || b >= Pow2(m)
  {
    OneIsOdd(a, b);
    if b % 2 == 1 {
      OddFactor(m, a, b, c);
    } else {
      MulCommutes(a, b);
      OddFactor(m, b, a, c);
    }
  }

  lemma OneIsOdd(a: nat, b: nat)
    requires (a + b) % 2 == 1
    ensures b % 2 == 1 || a % 2 == 1
  {
  }

  lemma MulCommutes(a: nat, b: nat)
    ensures a * b == b * a
  {
  }

  lemma Collision(hash: nat, k: nat, l: nat, size: nat) returns (c: nat)
    requires k <= l && 0 < size && PathSlot(hash, k, size) == PathSlot(hash, l, size)
    ensures (l - k) * (l + k + 1) == (2 * size) * c
  {
    TriMonotone(k, l);
    c := SameRemainder(hash + Tri(k), hash + Tri(l), size);
    TriDifference(k, l);
    DoubleProduct(size, c);
  }

  lemma SameRemainder(x: nat, y: nat, m: nat) returns (c: nat)
    requires m > 0 && x <= y && x % m == y % m
    ensures y - x == m * c
  {
    var d := y / m - x / m;
    assert y - x == m * d by { assert m * d == m * (y / m) - m * (x / m); }
    MulBounds(m, d);
    c := d;
  }

  lemma TriDifference(k: nat, l: nat)
    requires k <= l
    ensures (l - k) * (l + k + 1) == 2 * (Tri(l) - Tri(k))
  {
    TriValue(k);
    TriValue(l);
    assert (l - k) * (l + k + 1) == l * (l + 1) - k * (k + 1);
  }

  lemma {:induction false} TriMonotone(k: nat, l: nat)
    requires k <= l
    ensures Tri(k) <= Tri(l)
    decreases l
  {
    if k < l { TriMonotone(k, l - 1); }
  }

  // A sequence longer than the number of values it may take repeats one.
  lemma {:induction false} Pigeonhole(s: seq<nat>, n: nat)
    requires |s| > n
    requires forall i :: 0 <= i < |s| ==> s[i] < n
    ensures exists i, j :: 0 <= i < j < |s| && s[i] == s[j]
    decreases n
  {
    var last := |s| - 1;
    if i :| 0 <= i < last && s[i] == s[last] {
    } else {
      assert n > 0 by { assert s[0] < n; }
      // Rename the value n - 1 to s[last], which no other position uses.
      var t := seq(last, i requires 0 <= i < last => if s[i] == n - 1 then s[last] else s[i]);
      forall i | 0 <= i < |t| ensures t[i] < n - 1 {
        assert s[i] < n && s[i] != s[last] && s[last] < n;
      }
      Pigeonhole(t, n - 1);
      var i, j :| 0 <= i < j < |t| && t[i] == t[j];
      assert s[i] == s[j];
    }
  }

  // Triangular probing modulo a power of two visits every slot.
  lemma TriangularVisitsAll(hash: nat, n: nat, slot: nat)
    requires slot < Pow2(n)
    ensures exists k :: 0 <= k < Pow2(n) && PathSlot(hash, k, Pow2(n)) == slot
  {
    var size := Pow2(n);
    if forall k :: 0 <= k < size ==> PathSlot(hash, k, size) != slot {
      var path := seq(size, k requires 0 <= k < size => PathSlot(hash, k, size));
      var all := path + [slot];
      Pigeonhole(all, size);
      var i, j :| 0 <= i < j < |all| && all[i] == all[j];
      if j < size { TriangularDistinct(hash, n, i, j); }
      assert false;
    }
  }
}
