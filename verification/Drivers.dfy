// Whether a signal has exactly one driver for each of its elements.
module Drivers {
  import opened Options
  import opened Masks

  datatype Bounds = Bounds(low: int, high: int)

  // The static prefix a driver was recorded for, as far as the analysis looks at it;
  // a value that could not be folded is None.
  datatype Prefix =
    | Whole                              // the signal itself
    | Element(index: Option<int>)
    | Slice(bounds: Option<Bounds>)
    | Field(pos: nat)
    | Deeper                             // part of an element or field
    | Other

  datatype Driver = Driver(where: nat, prefix: Prefix, tentative: bool)

  datatype Direction = To | Downto

  // The type of the signal; an array carries its range when it could be folded.
  datatype Shape =
    | Unconstrained
    | Vector(dir: Direction, left: int, right: int)
    | Record(fields: nat)
    | Opaque

  function Length(t: Shape): nat {
    match t
    case Vector(To, left, right) => if left <= right then right - left + 1 else 0
    case Vector(Downto, left, right) => if right <= left then left - right + 1 else 0
    case Record(n) => n
    case _ => 0
  }

  // The position of index i, counted from the lowest.
  function Offset(t: Shape, i: int): int
    requires t.Vector?
  {
    if t.dir == To then i - t.left else i - t.right
  }

  // The indices of the type, whatever its direction, have the positions from 0 up to
  // the length, in ascending order.
  lemma OffsetIsPosition(t: Shape, i: int)
    requires t.Vector?
    ensures 0 <= Offset(t, i) < Length(t) <==> if t.dir == To then t.left <= i <= t.right else t.right <= i <= t.left
    ensures Offset(t, i + 1) == Offset(t, i) + 1
  {
  }

  // ---------------------------------------------------------------- what the drivers mean

  // Sub-element e of the signal is named by the prefix.
  predicate Names(t: Shape, p: Prefix, e: nat) {
    match p
    case Whole => true
    case Element(Some(i)) => t.Vector? && Offset(t, i) == e
    case Slice(Some(b)) => t.Vector? && Offset(t, b.low) <= e <= Offset(t, b.high)
    case Field(pos) => pos == e
    case _ => false
  }

  // A prefix whose sub-elements are known: no null slices, nothing deeper than one level.
  predicate Known(p: Prefix) {
    match p
    case Element(i) => i.Some?
    case Slice(b) => b.Some? && b.value.low <= b.value.high
    case Field(_) => true
    case _ => false
  }

  // Static indices that could be folded have been checked against the type.
  predicate InRange(t: Shape, p: Prefix) {
    match p
    case Element(Some(i)) => t.Vector? && 0 <= Offset(t, i) < Length(t)
    case Slice(Some(b)) => t.Vector? && (b.low <= b.high ==> 0 <= Offset(t, b.low) && Offset(t, b.high) < Length(t))
    case Field(pos) => t.Record? && pos < Length(t)
    case _ => true
  }

  ghost predicate Named(t: Shape, chain: seq<Driver>, e: nat) {
    exists n :: 0 <= n < |chain| && Names(t, chain[n].prefix, e)
  }

  // Every sub-element is named by exactly one of the drivers.
  ghost predicate OneEach(t: Shape, chain: seq<Driver>) {
    && (forall e: nat :: e < Length(t) ==> Named(t, chain, e))
    && NoOverlap(t, chain)
  }

  ghost predicate NoOverlap(t: Shape, chain: seq<Driver>) {
    forall m, n, e: nat :: 0 <= m < n < |chain| && e < Length(t) ==>
        !(Names(t, chain[m].prefix, e) && Names(t, chain[n].prefix, e))
  }

  ghost predicate SingleProcess(chain: seq<Driver>) {
    && (forall m, n :: 0 <= m < |chain| && 0 <= n < |chain| ==> chain[m].where == chain[n].where)
    && exists n :: 0 <= n < |chain| && chain[n].prefix.Whole?
  }

  ghost predicate Definite(chain: seq<Driver>) {
    chain != [] && forall n :: 0 <= n < |chain| ==> !chain[n].tentative
  }

  ghost predicate Partition(t: Shape, chain: seq<Driver>) {
    && Length(t) > 0 && (forall n :: 0 <= n < |chain| ==> Known(chain[n].prefix))
    && OneEach(t, chain)
  }

  // ---------------------------------------------------------------- the analysis

  ghost predicate Covers(t: Shape, chain: seq<Driver>, members: set<nat>) {
    forall e: nat :: e < Length(t) ==> (e in members <==> Named(t, chain, e))
  }

  // The positions one prefix adds to the mask.
  function Start(t: Shape, p: Prefix): int
    requires InRange(t, p) && Known(p)
  {
    match p
    case Element(i) => Offset(t, i.value)
    case Slice(b) => Offset(t, b.value.low)
    case Field(pos) => pos
  }

  function Count(p: Prefix): nat
    requires Known(p)
  {
    if p.Slice? then p.bounds.value.high - p.bounds.value.low + 1 else 1
  }

  lemma NamesRange(t: Shape, p: Prefix)
    requires InRange(t, p) && Known(p)
    ensures 0 <= Start(t, p) && Start(t, p) + Count(p) <= Length(t)
    ensures forall e: nat :: Names(t, p, e) <==> Start(t, p) <= e < Start(t, p) + Count(p)
  {
  }

  // A process that drives the whole signal, with no other process driving any of it.
  method WholeSignal(chain: seq<Driver>) returns (definite: bool, single: bool)
    requires chain != []
    ensures definite <==> Definite(chain)
    ensures definite ==> (single <==> SingleProcess(chain))
  {
    var sawRef, sawMultiple := false, false;
    var proc := chain[0].where;
    for n := 0 to |chain|
      invariant forall m :: 0 <= m < n ==> !chain[m].tentative
      invariant sawMultiple <==> exists m :: 0 <= m < n && chain[m].where != proc
      invariant !sawMultiple ==> (sawRef <==> exists m :: 0 <= m < n && chain[m].prefix.Whole?)
    {
      if chain[n].tentative {
        return false, false;
      } else if chain[n].where != proc {
        sawMultiple := true;
      } else if chain[n].prefix.Whole? {
        sawRef := true;
      }
    }
    return true, sawRef && !sawMultiple;
  }

  // Marks the sub-elements one by one; stops at the first named twice.
  method Disjoint(t: Shape, chain: seq<Driver>) returns (r: bool)
    requires Length(t) > 0 && forall n :: 0 <= n < |chain| ==> InRange(t, chain[n].prefix)
    ensures r <==> Partition(t, chain)
  {
    var mask := new BitMask(Length(t));
    for n := 0 to |chain|
      invariant mask.Valid() && fresh(mask) && fresh(mask.ptr) && mask.size == Length(t)
      invariant forall m :: 0 <= m < n ==> Known(chain[m].prefix)
      invariant Covers(t, chain[..n], mask.Members()) && NoOverlap(t, chain[..n])
    {
      var p := chain[n].prefix;
      if !Known(p) {
        return false;
      }
      ghost var members := mask.Members();
      var clash := Mark(mask, t, p);
      if clash {
        Overlap(t, chain, n, members);
        return false;
      }
      ExtendCover(t, chain, n, members, mask.Members());
    }
    assert chain[..|chain|] == chain;
    var n := mask.Popcount();
    FullSet(mask.Members(), Length(t));
    return n == Length(t);
  }

  method Mark(mask: BitMask, t: Shape, p: Prefix) returns (clash: bool)
    requires mask.Valid() && mask.size == Length(t) && InRange(t, p) && Known(p)
    modifies mask, mask.ptr
    ensures mask.Valid()
    ensures clash <==> exists e: nat :: Names(t, p, e) && e in old(mask.Members())
    ensures !clash ==> forall e: nat :: e in mask.Members() <==> e in old(mask.Members()) || Names(t, p, e)
  {
    NamesRange(t, p);
    ghost var members := mask.Members();
    if p.Slice? {
      clash := mask.TestRange(Start(t, p), Count(p));
    } else {
      clash := mask.Test(Start(t, p));
      ghost var first: nat := Start(t, p);
      assert clash <==> first in members;
    }
    assert clash <==> Hits(members, Start(t, p), Count(p));
    assert clash <==> exists e: nat :: Names(t, p, e) && e in members;
    if !clash {
      if p.Slice? {
        mask.FillRange(Start(t, p), Count(p), true);
      } else {
        mask.SetBit(Start(t, p), true);
      }
    }
  }

  lemma Overlap(t: Shape, chain: seq<Driver>, n: nat, members: set<nat>)
    requires n < |chain| && Covers(t, chain[..n], members) && forall e :: e in members ==> e < Length(t)
    requires exists e: nat :: Names(t, chain[n].prefix, e) && e in members
    ensures !NoOverlap(t, chain)
  {
    var e: nat :| Names(t, chain[n].prefix, e) && e in members;
    var m :| 0 <= m < n && Names(t, chain[..n][m].prefix, e);
    assert Names(t, chain[m].prefix, e);
  }

  lemma ExtendCover(t: Shape, chain: seq<Driver>, n: nat, members: set<nat>, members': set<nat>)
    requires n < |chain| && Covers(t, chain[..n], members) && NoOverlap(t, chain[..n])
    requires forall e: nat :: Names(t, chain[n].prefix, e) ==> e !in members
    requires forall e: nat :: e in members' <==> e in members || Names(t, chain[n].prefix, e)
    ensures Covers(t, chain[..n + 1], members') && NoOverlap(t, chain[..n + 1])
  {
    var was, now := chain[..n], chain[..n + 1];
    assert forall m :: 0 <= m < n ==> now[m] == was[m];
    assert now[n] == chain[n];
    forall e: nat | e < Length(t) ensures e in members' <==> Named(t, now, e) {
      if e in members {
        var m :| 0 <= m < |was| && Names(t, was[m].prefix, e);
        assert Names(t, now[m].prefix, e);
      }
      assert forall m :: 0 <= m < n && Names(t, now[m].prefix, e) ==> Names(t, was[m].prefix, e);
    }
    forall m, e: nat | 0 <= m < n && e < Length(t) && Names(t, now[m].prefix, e) ensures !Names(t, now[n].prefix, e) {
      assert Names(t, was[m].prefix, e);
    }
  }

  lemma {:induction false} FullSet(s: set<nat>, n: nat)
    requires forall e :: e in s ==> e < n
    ensures |s| <= n && (|s| == n <==> forall e: nat :: e < n ==> e in s)
  {
    if n > 0 {
      FullSet(s - {n - 1}, n - 1);
      assert n - 1 in s ==> |s - {n - 1}| == |s| - 1;
      assert n - 1 !in s ==> s - {n - 1} == s;
    } else {
      assert s == {};
    }
  }

  // True exactly when the drivers are certain and either one process drives the
  // whole signal alone or every sub-element has exactly one recorded driver.
  method HasUniqueDriver(t: Shape, chain: seq<Driver>) returns (r: bool)
    requires forall n :: 0 <= n < |chain| ==> InRange(t, chain[n].prefix)
    ensures r <==> Definite(chain) && (SingleProcess(chain) || Partition(t, chain))
  {
    if chain == [] {
      return false;
    }
    var definite, single := WholeSignal(chain);
    if !definite {
      return false;
    }
    if single {
      return true;
    }
    if Length(t) == 0 {
      return false;
    }
    r := Disjoint(t, chain);
  }
}
