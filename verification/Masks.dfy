// Bit masks: a set of positions below `size`, kept in one word when there are
// at most 64 and in an array of words otherwise.
module Masks {
  import opened Words

  // ---------------------------------------------------------------- word intrinsics

  // Find first set: one plus the lowest position, or 0.
  function Ffs(w: Word): (r: nat)
    ensures r <= 64 && (r > 0 ==> w[r - 1])
    ensures forall j :: 0 <= j < 64 && w[j] ==> 0 < r <= j + 1
  {
    LowestFrom(w, 0)
  }

  function LowestFrom(w: Word, i: nat): (r: nat)
    requires i <= 64 && forall j :: 0 <= j < i ==> !w[j]
    ensures r <= 64 && (r > 0 ==> w[r - 1])
    ensures forall j :: 0 <= j < 64 && w[j] ==> 0 < r <= j + 1
    decreases 64 - i
  {
    if i == 64 then 0 else if w[i] then i + 1 else LowestFrom(w, i + 1)
  }

  // Count leading zeros of a word that is not zero.
  function Clz(w: Word): (r: nat)
    requires w != Zero()
    ensures r < 64 && w[63 - r] && forall j :: 63 - r < j < 64 ==> !w[j]
  {
    LeadingFrom(w, 0)
  }

  function LeadingFrom(w: Word, r: nat): (n: nat)
    requires w != Zero() && r < 64 && forall j :: 63 - r < j < 64 ==> !w[j]
    ensures n < 64 && w[63 - n] && forall j :: 63 - n < j < 64 ==> !w[j]
    decreases 64 - r
  {
    if w[63 - r] then r else
    assert r == 63 ==> w == Zero();
    LeadingFrom(w, r + 1)
  }

  function WordPopcount(w: seq<bool>): nat {
    if w == [] then 0 else WordPopcount(w[..|w| - 1]) + (if w[|w| - 1] then 1 else 0)
  }

  // ---------------------------------------------------------------- sequences of words

  // Position i is offset j of word k.
  ghost predicate Has(ws: seq<Word>, i: int) {
    exists k, j :: 0 <= k < |ws| && 0 <= j < 64 && i == 64 * k + j && ws[k][j]
  }

  // Exactly the positions from start on, count of them, have been given the value v.
  ghost predicate RangeChanged(ws: seq<Word>, ws': seq<Word>, start: nat, count: nat, v: bool) {
    && |ws'| == |ws|
    && forall k, j :: 0 <= k < |ws| && 0 <= j < 64 ==>
         (ws'[k][j] <==> if start <= 64 * k + j < start + count then v else ws[k][j])
  }

  lemma WordChanged(ws: seq<Word>, k: nat, w: Word, low: nat, high: int, v: bool)
    requires k < |ws| && low <= high + 1 <= 64
    requires w == if v then Or(ws[k], Range(low, high)) else And(ws[k], Not(Range(low, high)))
    ensures RangeChanged(ws, ws[k := w], 64 * k + low, high + 1 - low, v)
  {
  }

  lemma RangesJoin(a: seq<Word>, b: seq<Word>, c: seq<Word>, start: nat, m: nat, n: nat, v: bool)
    requires RangeChanged(a, b, start, m, v) && RangeChanged(b, c, start + m, n, v)
    ensures RangeChanged(a, c, start, m + n, v)
  {
  }

  // Filling or clearing a whole word changes exactly its 64 positions.
  lemma FullWord(ws: seq<Word>, k: nat, v: bool)
    requires k < |ws|
    ensures RangeChanged(ws, ws[k := if v then Ones() else Zero()], 64 * k, 64, v)
  {
    var w: Word := if v then Ones() else Zero();
    assert w == if v then Or(ws[k], Range(0, 63)) else And(ws[k], Not(Range(0, 63)));
    WordChanged(ws, k, w, 0, 63, v);
  }

  // ---------------------------------------------------------------- the mask

  class BitMask {
    const size: nat
    var bits: Word                 // used when size <= 64
    const ptr: array<Word>         // used when size > 64

    ghost function Contents(): (ws: seq<Word>)
      reads this, ptr
      ensures |ws| > 0 || size > 64
    {
      if size > 64 then ptr[..] else [bits]
    }

    ghost predicate Valid()
      reads this, ptr
    {
      && (size > 64 ==> ptr.Length == (size + 63) / 64)
      && Clear(Contents(), size, 64 * |Contents()|)
    }

    // The positions in the mask.
    ghost function Members(): set<nat>
      reads this, ptr
    {
      set i: nat | i < size && Has(Contents(), i)
    }

    constructor (size: nat)
      ensures Valid() && this.size == size && Members() == {} && fresh(ptr)
    {
      this.size := size;
      bits := Zero();
      ptr := new Word[if size > 64 then (size + 63) / 64 else 0](_ => Zero());
    }

    method Test(bit: nat) returns (r: bool)
      requires Valid() && bit < size
      ensures r <==> bit in Members()
    {
      HasAt(Contents(), bit / 64, bit % 64);
      r := if size > 64 then ptr[bit / 64][bit % 64] else bits[bit % 64];
    }

    // mask_set_range and mask_clear_range, which differ in the value only.
    method FillRange(start: nat, count: nat, v: bool)
      requires Valid() && start + count <= size
      modifies this`bits, ptr
      ensures Valid()
      ensures forall i: nat :: i in Members() <==> if start <= i < start + count then v else i in old(Members())
    {
      if size <= 64 {
        FillInline(start, count, v);
      } else {
        FillWords(start, count, v);
      }
      StillClear(old(Contents()), Contents(), start, count, v, size);
    }

    // mask_set and mask_clear.
    method SetBit(bit: nat, v: bool)
      requires Valid() && bit < size
      modifies this`bits, ptr
      ensures Valid() && forall i: nat :: i in Members() <==> if i == bit then v else i in old(Members())
    {
      if size > 64 {
        FillPart(bit / 64, bit % 64, bit % 64, v);
      } else {
        FillInline(bit, 1, v);
      }
      StillClear(old(Contents()), Contents(), bit, 1, v, size);
    }

    method TestAndSet(bit: nat) returns (was: bool)
      requires Valid() && bit < size
      modifies this`bits, ptr
      ensures Valid() && (was <==> bit in old(Members())) && Members() == old(Members()) + {bit}
    {
      was := Test(bit);
      if !was {
        SetBit(bit, true);
      }
    }

    method FillInline(start: nat, count: nat, v: bool)
      requires size <= 64 && start + count <= size
      modifies this`bits
      ensures RangeChanged(old([bits]), [bits], start, count, v)
    {
      var m := Range(start, start + count - 1);
      var w := if v then Or(bits, m) else And(bits, Not(m));
      WordChanged([bits], 0, w, start, start + count - 1, v);
      assert [bits][0 := w] == [w];
      bits := w;
    }

    method FillWords(start0: nat, count0: nat, v: bool)
      requires ptr.Length == (size + 63) / 64 && start0 + count0 <= size
      modifies ptr
      ensures RangeChanged(old(ptr[..]), ptr[..], start0, count0, v)
    {
      var start: nat, count: nat := start0, count0;
      if count > 0 && start % 64 != 0 {
        var low := start % 64;
        var high := if low + count - 1 < 63 then low + count - 1 else 63;
        FillPart(start / 64, low, high, v);
        start, count := start + (high - low + 1), count - (high - low + 1);
      }
      while count >= 64
        invariant start0 <= start && start + count == start0 + count0 && (count > 0 ==> start % 64 == 0)
        invariant RangeChanged(old(ptr[..]), ptr[..], start0, start - start0, v)
      {
        ghost var was := ptr[..];
        FullWord(was, start / 64, v);
        ptr[start / 64] := if v then Ones() else Zero();
        RangesJoin(old(ptr[..]), was, ptr[..], start0, start - start0, 64, v);
        start, count := start + 64, count - 64;
      }
      if count > 0 {
        ghost var was := ptr[..];
        FillPart(start / 64, 0, count - 1, v);
        assert 64 * (start / 64) + 0 == start && count - 1 + 1 - 0 == count;
        RangesJoin(old(ptr[..]), was, ptr[..], start0, start - start0, count, v);
      }
    }

    method FillPart(k: nat, low: nat, high: nat, v: bool)
      requires k < ptr.Length && low <= high < 64
      modifies ptr
      ensures RangeChanged(old(ptr[..]), ptr[..], 64 * k + low, high + 1 - low, v)
    {
      var w := if v then Or(ptr[k], Range(low, high)) else And(ptr[k], Not(Range(low, high)));
      WordChanged(ptr[..], k, w, low, high, v);
      ptr[k] := w;
    }

    // Whether some position of the range is in the mask.
    method TestRange(start: nat, count: nat) returns (r: bool)
      requires Valid() && start + count <= size
      ensures r <==> Hits(Members(), start, count)
    {
      if size <= 64 {
        MeetsIff([bits], 0, start, start + count - 1);
        r := Meets(bits, start, start + count - 1);
      } else {
        r := TestWords(start, count);
      }
      ClearIff(Contents(), start, start + count);
      if r {
        ghost var i :| start <= i < start + count && Has(Contents(), i);
        assert i in Members();
      }
    }

    method TestWords(start0: nat, count0: nat) returns (r: bool)
      requires ptr.Length == (size + 63) / 64 && start0 + count0 <= size
      ensures r <==> Meeting(ptr[..], start0, count0)
    {
      ghost var ws := ptr[..];
      var start: nat, count: nat := start0, count0;
      if count > 0 && start % 64 != 0 {
        var low := start % 64;
        var high := if low + count - 1 < 63 then low + count - 1 else 63;
        MeetsIff(ws, start / 64, low, high);
        if Meets(ptr[start / 64], low, high) {
          return true;
        }
        start, count := start + (high - low + 1), count - (high - low + 1);
      }
      while count >= 64
        invariant start0 <= start && start + count == start0 + count0 && (count > 0 ==> start % 64 == 0)
        invariant !Meeting(ws, start0, start - start0)
      {
        MeetsIff(ws, start / 64, 0, 63);
        if ptr[start / 64] != Zero() {
          return true;
        }
        start, count := start + 64, count - 64;
      }
      if count > 0 {
        MeetsIff(ws, start / 64, 0, count - 1);
        assert 64 * (start / 64) + 0 == start && count - 1 + 1 - 0 == count;
        if Meets(ptr[start / 64], 0, count - 1) {
          assert Meeting(ws, start, count);
          return true;
        }
      }
      return false;
    }

    method Popcount() returns (n: nat)
      requires Valid()
      ensures n == |Members()|
    {
      ghost var ws := Contents();
      MembersBelow(ws, size, 64 * |ws|);
      if size > 64 {
        n := 0;
        for k := 0 to ptr.Length
          invariant n == |Below(ws, 64 * k)|
        {
          WordCount(ws, k);
          n := n + WordPopcount(ptr[k]);
        }
      } else {
        WordCount(ws, 0);
        assert Below(ws, 0) == {};
        n := WordPopcount(bits);
      }
      assert Members() == Below(ws, 64 * |ws|);
    }

    // The highest member not above a position, or -1.
    method ScanBackwards(bit: nat) returns (r: int)
      requires Valid() && bit < size
      ensures -1 <= r <= bit && (r >= 0 ==> Has(Contents(), r)) && Clear(Contents(), r + 1, bit + 1)
    {
      ghost var ws := Contents();
      if size <= 64 {
        var word0 := And(bits, Range(0, bit));
        LastIn(ws, 0, bit, word0);
        return if word0 == Zero() then -1 else 63 - Clz(word0);
      }
      var word0 := And(ptr[bit / 64], Range(0, bit % 64));
      LastIn(ws, bit / 64, bit % 64, word0);
      if word0 != Zero() {
        return 64 * (bit / 64) + 63 - Clz(word0);
      }
      r := ScanWords(bit - (bit % 64 + 1));
    }

    // The part of the scan that starts at the end of a word.
    method ScanWords(from: int) returns (r: int)
      requires Valid() && size > 64 && -1 <= from < size && (from + 1) % 64 == 0
      ensures -1 <= r <= from && (r >= 0 ==> Has(Contents(), r)) && Clear(Contents(), r + 1, from + 1)
    {
      ghost var ws := Contents();
      var i := from;
      while i > 0 && ptr[i / 64] == Zero()
        invariant -1 <= i <= from && (i + 1) % 64 == 0 && Clear(ws, i + 1, from + 1)
      {
        LastOfWord(i);
        LastIn(ws, i / 64, 63, ptr[i / 64]);
        i := i - 64;
      }
      if i > 0 {
        LastOfWord(i);
        LastIn(ws, i / 64, 63, ptr[i / 64]);
        return i - Clz(ptr[i / 64]);
      }
      return -1;
    }

    // How many positions from a given one on are clear.
    method CountClear(bit: nat) returns (n: nat)
      requires Valid() && bit < size
      ensures bit + n <= size && (bit + n < size ==> Has(Contents(), bit + n)) && Clear(Contents(), bit, bit + n)
    {
      if size <= 64 {
        var fs := Ffs(And(bits, Range(bit, 63)));
        FirstIn(Contents(), 0, bit, 63, fs);
        return if fs > 0 then fs - 1 - bit else size - bit;
      }
      n := CountLarge(bit);
    }

    method CountLarge(bit: nat) returns (n: nat)
      requires Valid() && size > 64 && bit < size
      ensures bit + n <= size && (bit + n < size ==> Has(Contents(), bit + n)) && Clear(Contents(), bit, bit + n)
    {
      WordStart(bit);
      var modbits := bit % 64;
      var maxbits := if 64 < size - (bit - modbits) then 64 else size - (bit - modbits);
      if modbits == 0 {
        n := CountWords(bit);
        return;
      }
      var fs := Ffs(And(ptr[bit / 64], Range(modbits, maxbits - 1)));
      FirstIn(ptr[..], bit / 64, modbits, maxbits - 1, fs);
      if fs > 0 {
        return fs - 1 - modbits;
      }
      n := maxbits - modbits;
      if bit + n < size {
        var rest := CountWords(bit + n);
        n := n + rest;
      }
    }

    // The part of the count that starts on a word.
    method CountWords(start: nat) returns (n: nat)
      requires Valid() && size > 64 && start < size && start % 64 == 0
      ensures start + n <= size && (start + n < size ==> Has(Contents(), start + n))
              && Clear(Contents(), start, start + n)
    {
      ghost var ws := Contents();
      var bit, count: nat := start, 0;
      while bit + 64 < size && ptr[bit / 64] == Zero()
        invariant bit < size && bit % 64 == 0 && bit == start + count && Clear(ws, start, bit)
      {
        FirstIn(ws, bit / 64, 0, 63, Ffs(ptr[bit / 64]));
        bit, count := bit + 64, count + 64;
      }
      var fs := Ffs(ptr[bit / 64]);
      FirstIn(ws, bit / 64, 0, 63, fs);
      return if fs > 0 then count + fs - 1 else count + size - bit;
    }

    // The next member after a position (-1 to start), if there is one.
    method Iter(bit: int) returns (more: bool, next: int)
      requires Valid() && bit >= -1
      ensures if more then bit < next < size && Has(Contents(), next) && Clear(Contents(), bit + 1, next)
              else Clear(Contents(), bit + 1, size)
    {
      if bit + 1 >= size {
        return false, bit;
      }
      if size <= 64 {
        var fs := Ffs(And(bits, Not(Range(0, bit))));
        FirstAfter(Contents(), 0, bit, fs);
        return fs > 0, (fs as int) - 1;
      }
      more, next := IterLarge(bit);
    }

    method IterLarge(bit: int) returns (more: bool, next: int)
      requires Valid() && size > 64 && -1 <= bit && bit + 1 < size
      ensures if more then bit < next < size && Has(Contents(), next) && Clear(Contents(), bit + 1, next)
              else Clear(Contents(), bit + 1, size)
    {
      ghost var ws := Contents();
      var word := (bit + 1) / 64;
      NextWord(bit);
      if (bit + 1) % 64 > 0 {
        var fs := Ffs(And(ptr[word], Not(Range(0, bit % 64))));
        FirstAfter(ws, word, bit % 64, fs);
        if fs > 0 {
          return true, word * 64 + fs - 1;
        }
        word := word + 1;
      }
      more, next := IterWords(word);
      if !more { next := bit; }
    }

    method IterWords(first: nat) returns (more: bool, next: int)
      requires Valid() && size > 64
      ensures if more then 64 * first <= next < size && Has(Contents(), next) && Clear(Contents(), 64 * first, next)
              else Clear(Contents(), 64 * first, size)
    {
      ghost var ws := Contents();
      var word := first;
      while word < ptr.Length
        invariant first <= word && Clear(ws, 64 * first, 64 * word)
      {
        var fs := Ffs(ptr[word]);
        FirstIn(ws, word, 0, 63, fs);
        if fs > 0 {
          return true, word * 64 + fs - 1;
        }
        word := word + 1;
      }
      return false, -1;
    }

    // A whole iteration yields every member once, in ascending order.
    method Elements() returns (s: seq<nat>)
      requires Valid()
      ensures forall i, j :: 0 <= i < j < |s| ==> s[i] < s[j]
      ensures (set x | x in s) == Members()
    {
      s := [];
      ghost var ws := Contents();
      ghost var done: nat := 0;
      var more, bit := Iter(-1);
      while more
        invariant if more then done <= bit < size && Has(ws, bit) && Clear(ws, done, bit) else Clear(ws, done, size)
        invariant done <= size && (set x | x in s) == Below(ws, done)
        invariant forall i :: 0 <= i < |s| ==> s[i] < done
        invariant forall i, j :: 0 <= i < j < |s| ==> s[i] < s[j]
        decreases size - done
      {
        NextMember(ws, done, bit);
        s := s + [bit];
        done := bit + 1;
        more, bit := Iter(bit);
      }
      MembersBelow(ws, done, size);
      assert Members() == Below(ws, size);
    }
  }

  // A range inside the mask leaves the positions at or above its size clear.
  lemma StillClear(ws: seq<Word>, ws': seq<Word>, start: nat, count: nat, v: bool, size: nat)
    requires RangeChanged(ws, ws', start, count, v) && start + count <= size
    requires Clear(ws, size, 64 * |ws|)
    ensures Clear(ws', size, 64 * |ws'|)
    ensures forall i :: 0 <= i < 64 * |ws| ==> (Has(ws', i) <==> if start <= i < start + count then v else Has(ws, i))
  {
    forall i | 0 <= i < 64 * |ws| ensures Has(ws', i) <==> if start <= i < start + count then v else Has(ws, i) {
      HasAt(ws, i / 64, i % 64);
      HasAt(ws', i / 64, i % 64);
    }
  }

  ghost predicate Hits(s: set<nat>, start: nat, count: nat) { exists i :: i in s && start <= i < start + count }

  ghost predicate Meeting(ws: seq<Word>, start: nat, count: nat) { !Clear(ws, start, start + count) }

  predicate Meets(w: Word, low: int, high: int) { And(w, Range(low, high)) != Zero() }

  lemma MeetsIff(ws: seq<Word>, k: nat, low: nat, high: int)
    requires k < |ws| && low <= high + 1 <= 64
    ensures Meets(ws[k], low, high) <==> Meeting(ws, 64 * k + low, high + 1 - low)
    ensures low == 0 && high == 63 ==> (Meets(ws[k], low, high) <==> ws[k] != Zero())
  {
    var m := And(ws[k], Range(low, high));
    if j :| 0 <= j < 64 && m[j] {
      assert ws[k][j];
    } else {
      assert m == Zero();
      assert forall j :: low <= j <= high ==> ws[k][j] == m[j];
      WordClear(ws, k, low, high + 1);
    }
    if low == 0 && high == 63 { assert m == ws[k]; }
  }

  // ---------------------------------------------------------------- counting and scanning

  ghost function Below(ws: seq<Word>, n: nat): set<nat> { set i: nat | i < n && Has(ws, i) }

  lemma {:induction false} PrefixCount(ws: seq<Word>, k: nat, j: nat)
    requires k < |ws| && j <= 64
    ensures |Below(ws, 64 * k + j)| == |Below(ws, 64 * k)| + WordPopcount(ws[k][..j])
  {
    if j > 0 {
      PrefixCount(ws, k, j - 1);
      OneBelow(ws, 64 * k + (j - 1));
      HasAt(ws, k, j - 1);
      assert ws[k][..j][..j - 1] == ws[k][..j - 1];
    }
  }

  lemma OneBelow(ws: seq<Word>, n: nat)
    ensures |Below(ws, n + 1)| == |Below(ws, n)| + if Has(ws, n) then 1 else 0
  {
    assert n !in Below(ws, n);
    assert Below(ws, n + 1) == if Has(ws, n) then Below(ws, n) + {n} else Below(ws, n);
  }

  lemma WordCount(ws: seq<Word>, k: nat)
    requires k < |ws|
    ensures |Below(ws, 64 * (k + 1))| == |Below(ws, 64 * k)| + WordPopcount(ws[k])
  {
    PrefixCount(ws, k, 64);
    assert ws[k][..64] == ws[k];
  }

  lemma NextMember(ws: seq<Word>, done: nat, bit: nat)
    requires done <= bit && Clear(ws, done, bit) && Has(ws, bit)
    ensures Below(ws, bit + 1) == Below(ws, done) + {bit}
  {
    ClearIff(ws, done, bit);
  }

  lemma MembersBelow(ws: seq<Word>, size: nat, n: nat)
    requires Clear(ws, size, n) && size <= n
    ensures Below(ws, n) == Below(ws, size)
  {
    ClearIff(ws, size, n);
  }

  // No position from `from` up to `to` is in the mask.
  ghost predicate Clear(ws: seq<Word>, from: int, to: int) {
    forall k, j :: 0 <= k < |ws| && 0 <= j < 64 && from <= 64 * k + j < to ==> !ws[k][j]
  }

  // Positions and their word and offset.
  lemma HasAt(ws: seq<Word>, k: nat, j: nat)
    requires k < |ws| && j < 64
    ensures Has(ws, 64 * k + j) <==> ws[k][j]
  {
    if Has(ws, 64 * k + j) {
      var k', j' :| 0 <= k' < |ws| && 0 <= j' < 64 && 64 * k + j == 64 * k' + j' && ws[k'][j'];
      assert k == k';
    }
  }

  lemma ClearIff(ws: seq<Word>, from: int, to: int)
    ensures Clear(ws, from, to) <==> forall i :: from <= i < to ==> !Has(ws, i)
  {
    if forall i :: from <= i < to ==> !Has(ws, i) {
      forall k, j | 0 <= k < |ws| && 0 <= j < 64 && from <= 64 * k + j < to ensures !ws[k][j] {
        HasAt(ws, k, j);
        assert !Has(ws, 64 * k + j);
      }
    }
  }

  lemma LastOfWord(i: nat)
    requires (i + 1) % 64 == 0
    ensures 64 * (i / 64) + 63 == i
  {
  }

  lemma NextWord(bit: int)
    requires bit >= -1
    ensures if (bit + 1) % 64 > 0 then 64 * ((bit + 1) / 64) + bit % 64 == bit && 0 <= bit % 64 < 63
            else 64 * ((bit + 1) / 64) == bit + 1
  {
  }

  lemma WordStart(bit: nat)
    ensures bit - bit % 64 == 64 * (bit / 64) && (bit - bit % 64 + 64) % 64 == 0
  {
  }

  lemma WordClear(ws: seq<Word>, k: nat, from: nat, to: nat)
    requires k < |ws| && from <= to <= 64 && forall j :: from <= j < to ==> !ws[k][j]
    ensures Clear(ws, 64 * k + from, 64 * k + to)
  {
  }

  // What the lowest position of part of a word means for the mask.
  lemma FirstIn(ws: seq<Word>, k: nat, low: nat, high: nat, fs: nat)
    requires k < |ws| && low <= high < 64
    requires fs == Ffs(And(ws[k], Range(low, high))) || (low == 0 && high == 63 && fs == Ffs(ws[k]))
    ensures if fs > 0 then low <= fs - 1 <= high && Has(ws, 64 * k + fs - 1) && Clear(ws, 64 * k + low, 64 * k + fs - 1)
            else Clear(ws, 64 * k + low, 64 * k + high + 1)
  {
    var w := And(ws[k], Range(low, high));
    assert low == 0 && high == 63 ==> w == ws[k];
    assert forall j :: low <= j <= high ==> w[j] == ws[k][j];
    WordClear(ws, k, low, if fs > 0 then fs - 1 else high + 1);
    if fs > 0 { HasAt(ws, k, fs - 1); }
  }

  lemma LastIn(ws: seq<Word>, k: nat, high: nat, w: Word)
    requires k < |ws| && high < 64 && (w == And(ws[k], Range(0, high)) || (high == 63 && w == ws[k]))
    ensures if w == Zero() then Clear(ws, 64 * k, 64 * k + high + 1)
            else var r := 63 - Clz(w); r <= high && Has(ws, 64 * k + r) && Clear(ws, 64 * k + r + 1, 64 * k + high + 1)
  {
    assert forall j :: 0 <= j <= high ==> w[j] == ws[k][j];
    WordClear(ws, k, if w == Zero() then 0 else 64 - Clz(w), high + 1);
    if w != Zero() { HasAt(ws, k, 63 - Clz(w)); }
  }

  lemma FirstAfter(ws: seq<Word>, k: nat, after: int, fs: nat)
    requires k < |ws| && -1 <= after < 63 && fs == Ffs(And(ws[k], Not(Range(0, after))))
    ensures if fs > 0 then after < fs - 1 && Has(ws, 64 * k + fs - 1) && Clear(ws, 64 * k + after + 1, 64 * k + fs - 1)
            else Clear(ws, 64 * k + after + 1, 64 * k + 64)
  {
    var w := And(ws[k], Not(Range(0, after)));
    assert forall j :: after < j < 64 ==> w[j] == ws[k][j];
    WordClear(ws, k, after + 1, if fs > 0 then fs - 1 else 64);
    if fs > 0 { HasAt(ws, k, fs - 1); }
  }
}
