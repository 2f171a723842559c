// 64-bit words: the machine operations on them agree, position by position,
// with operations on 64 booleans.
module Words {

  // ---------------------------------------------------------------- words of booleans

  type Word = w: seq<bool> | |w| == 64 witness seq(64, _ => false)

  function Zero(): Word { seq(64, _ => false) }
  function Ones(): Word { seq(64, _ => true) }
  function And(v: Word, w: Word): Word { seq(64, i requires 0 <= i < 64 => v[i] && w[i]) }
  function Or(v: Word, w: Word): Word { seq(64, i requires 0 <= i < 64 => v[i] || w[i]) }
  function Not(v: Word): Word { seq(64, i requires 0 <= i < 64 => !v[i]) }

  // The positions low to high, both included.
  function Range(low: int, high: int): Word { seq(64, i requires 0 <= i < 64 => low <= i <= high) }

  // ---------------------------------------------------------------- machine words

  predicate At(w: bv64, b: bv7)
    requires b < 64
  {
    (w >> b) & 1 == 1
  }

  // mask_for_range for low <= high, in two halves.
  function Upto(high: bv7): bv64 {
    var all: bv64 := 0xffff_ffff_ffff_ffff;
    if high < 63 then all & ((1 << (high + 1)) - 1) else all
  }

  function From(low: bv7): bv64
    requires low < 64
  {
    !((1 << low) - 1)
  }

  function RangeMask(low: bv7, high: bv7): bv64 {
    if 0 < low < 64 then Upto(high) & From(low) else Upto(high)
  }

  lemma AndAt(x: bv64, v: bv64, w: bv64, b: bv7)
    requires b < 64 && x == v & w
    ensures At(x, b) <==> At(v, b) && At(w, b)
  {
  }

  lemma OrAt(x: bv64, v: bv64, w: bv64, b: bv7)
    requires b < 64 && x == v | w
    ensures At(x, b) <==> At(v, b) || At(w, b)
  {
  }

  lemma NotAt(v: bv64, b: bv7)
    requires b < 64
    ensures At(!v, b) <==> !At(v, b)
  {
  }

  lemma OneAt(a: bv7, b: bv7)
    requires a < 64 && b < 64
    ensures At(1 << a, b) <==> a == b
  {
  }

  lemma UptoAt(high: bv7, b: bv7)
    requires high < 64 && b < 64
    ensures At(Upto(high), b) <==> b <= high
  {
  }

  lemma FromAt(low: bv7, b: bv7)
    requires 0 < low < 64 && b < 64
    ensures At(From(low), b) <==> low <= b
  {
  }

  lemma RangeAt(low: bv7, high: bv7, b: bv7)
    requires low <= high < 64 && b < 64
    ensures At(RangeMask(low, high), b) <==> low <= b <= high
  {
    UptoAt(high, b);
    if low > 0 {
      AndAt(RangeMask(low, high), Upto(high), From(low), b);
      FromAt(low, b);
    }
  }

  // ---------------------------------------------------------------- the correspondence

  // A position as a shift count.
  function Pos(i: nat): (b: bv7)
    requires i < 64
    ensures b < 64
  {
    PosBound(i);
    Count(i)
  }

  function Count(i: nat): bv7 { if i == 0 then 0 else Count(i - 1) + 1 }

  lemma {:induction false} PosBound(i: nat)
    requires i < 64
    ensures Count(i) as nat == i && Count(i) < 64
  {
    if i > 0 { PosBound(i - 1); }
  }

  lemma PosOrder(i: nat, j: nat)
    requires i < 64 && j < 64
    ensures Pos(i) <= Pos(j) <==> i <= j
    ensures Pos(i) == Pos(j) <==> i == j
  {
    PosBound(i);
    PosBound(j);
  }

  function Unpack(w: bv64): Word { seq(64, i requires 0 <= i < 64 => At(w, Pos(i))) }

  // The machine's and, or and complement work position by position.
  lemma AndRefines(v: bv64, w: bv64)
    ensures Unpack(v & w) == And(Unpack(v), Unpack(w))
  {
    var x := v & w;
    forall i | 0 <= i < 64 ensures Unpack(x)[i] == And(Unpack(v), Unpack(w))[i] {
      AndAt(x, v, w, Pos(i));
    }
  }

  lemma OrRefines(v: bv64, w: bv64)
    ensures Unpack(v | w) == Or(Unpack(v), Unpack(w))
  {
    var x := v | w;
    forall i | 0 <= i < 64 ensures Unpack(x)[i] == Or(Unpack(v), Unpack(w))[i] {
      OrAt(x, v, w, Pos(i));
    }
  }

  lemma NotRefines(v: bv64)
    ensures Unpack(!v) == Not(Unpack(v))
  {
    var x := !v;
    forall i | 0 <= i < 64 ensures Unpack(x)[i] == Not(Unpack(v))[i] {
      NotAt(v, Pos(i));
    }
  }

  lemma RangePos(low: nat, high: nat, i: nat)
    requires low <= high < 64 && i < 64
    ensures At(RangeMask(Pos(low), Pos(high)), Pos(i)) <==> low <= i <= high
  {
    PosOrder(low, high);
    PosOrder(low, i);
    PosOrder(i, high);
    RangeAt(Pos(low), Pos(high), Pos(i));
  }

  lemma ByPositions(m: bv64, w: Word)
    requires forall i :: 0 <= i < 64 ==> At(m, Pos(i)) == w[i]
    ensures Unpack(m) == w
  {
  }

  // Shifting, subtracting and masking yields exactly the requested positions.
  lemma RangeRefines(low: nat, high: nat)
    requires low <= high < 64
    ensures Unpack(RangeMask(Pos(low), Pos(high))) == Range(low, high)
  {
    forall i | 0 <= i < 64 ensures At(RangeMask(Pos(low), Pos(high)), Pos(i)) == Range(low, high)[i] {
      RangePos(low, high, i);
    }
    ByPositions(RangeMask(Pos(low), Pos(high)), Range(low, high));
  }

  lemma OneRefines(i: nat)
    requires i < 64
    ensures Unpack(1 << Pos(i)) == Range(i, i)
  {
    var w: bv64 := 1 << Pos(i);
    forall j | 0 <= j < 64 ensures Unpack(w)[j] == Range(i, i)[j] {
      PosOrder(i, j);
      OneAt(Pos(i), Pos(j));
    }
  }

  // The constants that words are compared with and set to.
  lemma ConstantsRefine()
    ensures Unpack(0) == Zero() && Unpack(0xffff_ffff_ffff_ffff) == Ones()
  {
    forall i | 0 <= i < 64 ensures At(0, Pos(i)) == Zero()[i] && At(0xffff_ffff_ffff_ffff, Pos(i)) == Ones()[i] {
      ConstantsAt(Pos(i));
    }
    ByPositions(0, Zero());
    ByPositions(0xffff_ffff_ffff_ffff, Ones());
  }

  lemma ConstantsAt(b: bv7)
    requires b < 64
    ensures !At(0, b) && At(0xffff_ffff_ffff_ffff, b)
  {
  }

  // Words that agree on every position are equal, so that comparing words is
  // comparing their positions.
  lemma UnpackInjective(v: bv64, w: bv64)
    ensures Unpack(v) == Unpack(w) ==> v == w
  {
    if v != w {
      var b := SomeBit(v ^ w);
      XorAt(v, w, b);
      var i := PosOnto(b);
      PositionsDiffer(v, w, i);
    }
  }

  lemma PositionsDiffer(v: bv64, w: bv64, i: nat)
    requires i < 64 && At(v, Pos(i)) != At(w, Pos(i))
    ensures Unpack(v) != Unpack(w)
  {
    assert Unpack(v)[i] != Unpack(w)[i];
  }

  lemma PosOnto(b: bv7) returns (i: nat)
    requires b < 64
    ensures i < 64 && Pos(i) == b
  {
    i := b as nat;
    PosBound(i);
  }

  // The position of the lowest bit of a word that is not zero.
  lemma SomeBit(x: bv64) returns (b: bv7)
    requires x != 0
    ensures b < 64 && At(x, b)
  {
    var y := x;
    b := 0;
    if y & 0xffff_ffff == 0 { y, b := y >> 32, b + 32; }
    if y & 0xffff == 0 { y, b := y >> 16, b + 16; }
    if y & 0xff == 0 { y, b := y >> 8, b + 8; }
    if y & 0xf == 0 { y, b := y >> 4, b + 4; }
    if y & 0x3 == 0 { y, b := y >> 2, b + 2; }
    if y & 0x1 == 0 { y, b := y >> 1, b + 1; }
  }

  lemma XorAt(v: bv64, w: bv64, b: bv7)
    requires b < 64 && At(v ^ w, b)
    ensures At(v, b) != At(w, b)
  {
  }
}
