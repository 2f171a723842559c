// Which values the choices of a case statement or aggregate cover
// (section 10.9 of IEEE 1076-2008).
module Coverage {

  datatype Interval = Interval(low: int, high: int)

  function Max(a: int, b: int): int { if a < b then b else a }
  function Min(a: int, b: int): int { if a < b then a else b }

  predicate Within(x: Interval, v: int) { x.low <= v <= x.high }

  predicate Covered(xs: seq<Interval>, v: int) { exists n :: 0 <= n < |xs| && Within(xs[n], v) }

  predicate Meet(x: Interval, y: Interval) { x.low <= y.high && y.low <= x.high }

  // Not null, ascending, and without overlap.
  ghost predicate Sorted(xs: seq<Interval>) {
    && (forall n :: 0 <= n < |xs| ==> xs[n].low <= xs[n].high)
    && (forall m, n :: 0 <= m < n < |xs| ==> xs[m].high < xs[n].low)
  }

  // Some value of the choice is already covered.
  ghost predicate Repeats(xs: seq<Interval>, x: Interval) { exists n :: 0 <= n < |xs| && Meet(xs[n], x) }

  // The choice starts right after an interval.
  ghost predicate Touches(xs: seq<Interval>, low: int) { exists n :: 0 <= n < |xs| && xs[n].high + 1 == low }

  // ---------------------------------------------------------------- one choice

  datatype Placed = Placed(list: seq<Interval>, duplicate: bool)

  // What becomes of the list, and whether a repeated value is reported.
  function Place(xs: seq<Interval>, x: Interval): Placed {
    if xs == [] || xs[0].low > x.high then Placed([x] + xs, false)
    else if x.low <= xs[0].high then Placed([Interval(Min(x.low, xs[0].low), Max(x.high, xs[0].high))] + xs[1..], true)
    else if x.low == xs[0].high + 1 then Placed([Interval(xs[0].low, x.high)] + xs[1..], false)
    else var p := Place(xs[1..], x); Placed([xs[0]] + p.list, p.duplicate)
  }

  lemma CoveredCons(xs: seq<Interval>, v: int)
    requires xs != []
    ensures Covered(xs, v) <==> Within(xs[0], v) || Covered(xs[1..], v)
  {
    if n :| 0 <= n < |xs| && Within(xs[n], v) { assert n > 0 ==> Within(xs[1..][n - 1], v); }
    if n :| 0 <= n < |xs[1..]| && Within(xs[1..][n], v) { assert Within(xs[n + 1], v); }
  }

  // The values covered afterwards are those covered before and those of the choice.
  lemma {:induction false} PlaceCovers(xs: seq<Interval>, x: Interval, v: int)
    requires (forall n :: 0 <= n < |xs| ==> xs[n].low <= xs[n].high) && x.low <= x.high
    ensures Covered(Place(xs, x).list, v) <==> Covered(xs, v) || Within(x, v)
  {
    var ys := Place(xs, x).list;
    CoveredCons(ys, v);
    if xs != [] {
      CoveredCons(xs, v);
      if xs[0].low > x.high {
        assert ys[1..] == xs;
      } else if x.low <= xs[0].high + 1 {
        assert ys[1..] == xs[1..];
      } else {
        PlaceCovers(xs[1..], x, v);
        assert ys[1..] == Place(xs[1..], x).list;
      }
    } else {
      assert ys[1..] == [];
    }
  }

  lemma RepeatsCons(xs: seq<Interval>, x: Interval)
    requires xs != []
    ensures Repeats(xs, x) <==> Meet(xs[0], x) || Repeats(xs[1..], x)
    ensures Touches(xs, x.low) <==> xs[0].high + 1 == x.low || Touches(xs[1..], x.low)
  {
    if n :| 0 <= n < |xs| && Meet(xs[n], x) { assert n > 0 ==> Meet(xs[1..][n - 1], x); }
    if n :| 0 <= n < |xs[1..]| && Meet(xs[1..][n], x) { assert Meet(xs[n + 1], x); }
    if n :| 0 <= n < |xs| && xs[n].high + 1 == x.low { assert n > 0 ==> xs[1..][n - 1].high + 1 == x.low; }
    if n :| 0 <= n < |xs[1..]| && xs[1..][n].high + 1 == x.low { assert xs[n + 1].high + 1 == x.low; }
  }

  // The first interval that the choice meets or directly follows, it meets.
  ghost predicate FirstMeets(xs: seq<Interval>, x: Interval) {
    exists n :: 0 <= n < |xs| && Meet(xs[n], x) && AllBefore(xs[..n], x)
  }

  // Not null and with ascending lower bounds: what every run of choices keeps.
  ghost predicate Ordered(xs: seq<Interval>) {
    && (forall n :: 0 <= n < |xs| ==> xs[n].low <= xs[n].high)
    && (forall m, n :: 0 <= m < n < |xs| ==> xs[m].low < xs[n].low)
  }

  ghost predicate AllBefore(xs: seq<Interval>, x: Interval) {
    forall n :: 0 <= n < |xs| ==> xs[n].high + 1 < x.low
  }

  lemma FirstMeetsCons(xs: seq<Interval>, x: Interval)
    requires xs != []
    ensures FirstMeets(xs, x) <==> Meet(xs[0], x) || (xs[0].high + 1 < x.low && FirstMeets(xs[1..], x))
  {
    var ys := xs[1..];
    if Meet(xs[0], x) {
      assert AllBefore(xs[..0], x);
    }
    if n :| 0 <= n < |xs| && Meet(xs[n], x) && AllBefore(xs[..n], x) {
      if n > 0 {
        assert xs[..n][0] == xs[0] && ys[..n - 1] == xs[..n][1..];
        assert Meet(ys[n - 1], x) && AllBefore(ys[..n - 1], x);
      }
    }
    if xs[0].high + 1 < x.low && FirstMeets(ys, x) {
      var n :| 0 <= n < |ys| && Meet(ys[n], x) && AllBefore(ys[..n], x);
      assert xs[..n + 1] == [xs[0]] + ys[..n];
      assert Meet(xs[n + 1], x) && AllBefore(xs[..n + 1], x);
    }
  }

  // On any list that a run of choices can leave, overlapping or not: a choice is
  // reported exactly when the first interval it meets or follows is one it meets.
  lemma {:induction false} ReportsIff(xs: seq<Interval>, x: Interval)
    requires Ordered(xs) && x.low <= x.high
    ensures Place(xs, x).duplicate <==> FirstMeets(xs, x)
  {
    if xs != [] {
      FirstMeetsCons(xs, x);
      assert Ordered(xs[1..]);
      if xs[0].low > x.high {
        assert forall n :: 0 <= n < |xs| ==> xs[0].low <= xs[n].low;
      } else if xs[0].high + 1 < x.low {
        ReportsIff(xs[1..], x);
      }
    }
  }

  // On a list without overlaps: a repeated value is reported exactly when the
  // choice does not start right after a covered interval.
  lemma {:induction false} ReportsIffSorted(xs: seq<Interval>, x: Interval)
    requires Sorted(xs) && x.low <= x.high
    ensures Place(xs, x).duplicate <==> Repeats(xs, x) && !Touches(xs, x.low)
  {
    if xs != [] {
      RepeatsCons(xs, x);
      assert Sorted(xs[1..]);
      if xs[0].low <= x.high && xs[0].high + 1 < x.low { ReportsIffSorted(xs[1..], x); }
    }
  }

  lemma {:induction false} PlaceOrdered(xs: seq<Interval>, x: Interval)
    requires Ordered(xs) && x.low <= x.high
    ensures Ordered(Place(xs, x).list)
    ensures xs != [] ==> Place(xs, x).list[0].low == Min(xs[0].low, x.low)
  {
    if xs != [] && xs[0].low <= x.high {
      var rest := xs[1..];
      assert Ordered(rest) && forall n :: 0 <= n < |rest| ==> rest[n] == xs[n + 1];
      if xs[0].high + 1 < x.low {
        PlaceOrdered(rest, x);
        var ys := Place(rest, x).list;
        assert xs[0].low < ys[0].low;
        PrependOrdered(xs[0], ys);
      } else {
        PrependOrdered(Place(xs, x).list[0], rest);
      }
    } else if xs != [] {
      PrependOrdered(x, xs);
    }
  }

  lemma PrependOrdered(x: Interval, xs: seq<Interval>)
    requires x.low <= x.high && Ordered(xs) && (xs != [] ==> x.low < xs[0].low)
    ensures Ordered([x] + xs)
  {
    var ys := [x] + xs;
    assert forall n :: 0 < n < |ys| ==> ys[n] == xs[n - 1];
  }

  lemma SortedCons(x: Interval, xs: seq<Interval>)
    ensures Sorted([x] + xs) <==> x.low <= x.high && Sorted(xs) && (xs != [] ==> x.high < xs[0].low)
  {
    var ys := [x] + xs;
    assert forall n :: 0 < n < |ys| ==> ys[n] == xs[n - 1];
    if Sorted(ys) {
      assert forall n :: 0 <= n < |xs| ==> xs[n] == ys[n + 1];
      assert xs != [] ==> ys[0].high < ys[1].low;
    }
  }

  // The choice meets or directly follows an interval.
  predicate Joins(y: Interval, x: Interval) { y.low <= x.high && x.low <= y.high + 1 }

  ghost predicate JoinsAtMostOne(xs: seq<Interval>, x: Interval) {
    forall m, n :: 0 <= m < n < |xs| ==> !(Joins(xs[m], x) && Joins(xs[n], x))
  }

  ghost predicate JoinsNone(xs: seq<Interval>, x: Interval) { forall n :: 0 <= n < |xs| ==> !Joins(xs[n], x) }

  lemma JoinsCons(xs: seq<Interval>, x: Interval)
    requires xs != []
    ensures JoinsAtMostOne(xs, x) <==>
            JoinsAtMostOne(xs[1..], x) && (Joins(xs[0], x) ==> JoinsNone(xs[1..], x))
  {
    var ys := xs[1..];
    assert forall n :: 0 <= n < |ys| ==> ys[n] == xs[n + 1];
    assert forall n :: 0 < n < |xs| ==> xs[n] == ys[n - 1];
  }

  // The list stays without overlaps exactly when the choice joins at most one interval.
  lemma {:induction false} PlaceSortedIff(xs: seq<Interval>, x: Interval)
    requires Ordered(xs) && x.low <= x.high
    ensures Sorted(Place(xs, x).list) <==> Sorted(xs) && JoinsAtMostOne(xs, x)
  {
    if xs == [] {
      assert Place(xs, x).list == [x];
    } else if xs[0].low > x.high {
      FrontIff(xs, x);
    } else if xs[0].high + 1 < x.low {
      OrderedTail(xs);
      PlaceSortedIff(xs[1..], x);
      PlaceOrdered(xs[1..], x);
      SkipIff(xs, Place(xs[1..], x).list, x);
    } else {
      JoinIff(xs, x);
    }
  }

  lemma OrderedTail(xs: seq<Interval>)
    requires Ordered(xs) && xs != []
    ensures Ordered(xs[1..])
  {
  }

  lemma SkipIff(xs: seq<Interval>, ys: seq<Interval>, x: Interval)
    requires Ordered(xs) && xs != [] && xs[0].high + 1 < x.low && ys != []
    requires ys[0].low == if |xs| == 1 then x.low else Min(xs[1].low, x.low)
    requires Sorted(ys) <==> Sorted(xs[1..]) && JoinsAtMostOne(xs[1..], x)
    ensures Sorted([xs[0]] + ys) <==> Sorted(xs) && JoinsAtMostOne(xs, x)
  {
    assert xs == [xs[0]] + xs[1..];
    SortedCons(xs[0], xs[1..]);
    SortedCons(xs[0], ys);
    JoinsCons(xs, x);
  }

  lemma JoinIff(xs: seq<Interval>, x: Interval)
    requires Ordered(xs) && xs != [] && Joins(xs[0], x) && x.low <= x.high
    ensures Sorted([Interval(Min(x.low, xs[0].low), Max(x.high, xs[0].high))] + xs[1..]) <==>
            Sorted(xs) && JoinsAtMostOne(xs, x)
  {
    assert xs == [xs[0]] + xs[1..];
    SortedCons(xs[0], xs[1..]);
    JoinsCons(xs, x);
    MergeIff(xs[0], xs[1..], x);
  }

  lemma FrontIff(xs: seq<Interval>, x: Interval)
    requires Ordered(xs) && xs != [] && x.low <= x.high < xs[0].low
    ensures Sorted([x] + xs) <==> Sorted(xs)
    ensures JoinsAtMostOne(xs, x)
  {
    SortedCons(x, xs);
    assert forall n :: 0 <= n < |xs| ==> xs[0].low <= xs[n].low;
  }

  lemma MergeIff(y: Interval, rest: seq<Interval>, x: Interval)
    requires Joins(y, x) && y.low <= y.high && x.low <= x.high
    ensures Sorted([Interval(Min(x.low, y.low), Max(x.high, y.high))] + rest) <==>
            Sorted(rest) && (rest != [] ==> y.high < rest[0].low) && JoinsNone(rest, x)
    ensures JoinsNone(rest, x) ==> JoinsAtMostOne(rest, x)
  {
    SortedCons(Interval(Min(x.low, y.low), Max(x.high, y.high)), rest);
    if Sorted(rest) && (rest != [] ==> y.high < rest[0].low) { MergeSorted(y, rest, x); }
  }

  lemma MergeSorted(y: Interval, rest: seq<Interval>, x: Interval)
    requires Joins(y, x) && y.low <= y.high && Sorted(rest) && (rest != [] ==> y.high < rest[0].low)
    ensures JoinsNone(rest, x) <==> rest == [] || x.high < rest[0].low
  {
    if rest != [] {
      assert forall n :: 0 <= n < |rest| ==> rest[0].low <= rest[n].low && y.high < rest[n].high;
      assert !Joins(rest[0], x) ==> x.high < rest[0].low;
    }
  }

  // ---------------------------------------------------------------- missing values

  // Where the walk is after n intervals, and how many values it has found missing.
  function Walk(xs: seq<Interval>, tlow: int, n: nat): int
    requires n <= |xs|
  {
    if n == 0 then tlow else xs[n - 1].high + 1
  }

  function Gaps(xs: seq<Interval>, tlow: int, n: nat): int
    requires n <= |xs|
  {
    if n == 0 then 0 else Gaps(xs, tlow, n - 1) + xs[n - 1].low - Walk(xs, tlow, n - 1)
  }

  function MissingCount(xs: seq<Interval>, tlow: int, thigh: int): int {
    Gaps(xs, tlow, |xs|) + thigh + 1 - Walk(xs, tlow, |xs|)
  }

  function Span(a: int, b: int): (s: set<int>)
    ensures forall v :: v in s <==> a <= v < b
    decreases b - a
  {
    if a >= b then {} else Span(a, b - 1) + {b - 1}
  }

  lemma {:induction false} SpanSize(a: int, b: int)
    requires a <= b
    ensures |Span(a, b)| == b - a
    decreases b - a
  {
    if a < b {
      SpanSize(a, b - 1);
      assert b - 1 !in Span(a, b - 1);
    }
  }

  // The values from low up to end that no interval covers.
  function Uncovered(xs: seq<Interval>, low: int, end: int): set<int> {
    set v | v in Span(low, end) && !Covered(xs, v)
  }

  ghost predicate Inside(xs: seq<Interval>, tlow: int, thigh: int) {
    forall n :: 0 <= n < |xs| ==> tlow <= xs[n].low && xs[n].high <= thigh
  }

  ghost predicate Disjoint(xs: seq<Interval>) {
    forall m, n :: 0 <= m < n < |xs| ==> !Meet(xs[m], xs[n])
  }

  ghost predicate NonNull(xs: seq<Interval>, tlow: int, thigh: int) {
    Inside(xs, tlow, thigh) && forall n :: 0 <= n < |xs| ==> xs[n].low <= xs[n].high
  }

  // How many values the intervals hold, counted with repetition.
  function Total(xs: seq<Interval>, n: nat): int
    requires n <= |xs|
  {
    if n == 0 then 0 else Total(xs, n - 1) + xs[n - 1].high + 1 - xs[n - 1].low
  }

  // The walk telescopes: on any list it subtracts the lengths of the intervals.
  lemma {:induction false} GapsTelescope(xs: seq<Interval>, tlow: int, n: nat)
    requires n <= |xs|
    ensures Gaps(xs, tlow, n) == Walk(xs, tlow, n) - tlow - Total(xs, n)
  {
    if n > 0 { GapsTelescope(xs, tlow, n - 1); }
  }

  // The values from low up to end that some interval covers.
  function CoveredIn(xs: seq<Interval>, low: int, end: int): set<int> {
    set v | v in Span(low, end) && Covered(xs, v)
  }

  lemma UnionSize(a: set<int>, b: set<int>)
    ensures |a + b| <= |a| + |b| && (|a + b| == |a| + |b| <==> a !! b)
  {
    var c := b - a;
    assert a + b == a + c && a !! c;
    assert b == c + a * b && c !! a * b;
    assert a !! b <==> a * b == {};
  }

  ghost predicate MeetsNoEarlier(xs: seq<Interval>, n: nat)
    requires n < |xs|
  {
    forall m :: 0 <= m < n ==> !Meet(xs[m], xs[n])
  }

  lemma CoveredMore(xs: seq<Interval>, n: nat, low: int, end: int)
    requires n < |xs| && low <= xs[n].low && xs[n].high < end
    ensures CoveredIn(xs[..n + 1], low, end) == CoveredIn(xs[..n], low, end) + Span(xs[n].low, xs[n].high + 1)
  {
    assert xs[..n + 1] == xs[..n] + [xs[n]];
    forall v: int ensures Covered(xs[..n + 1], v) <==> Covered(xs[..n], v) || Within(xs[n], v) {
      CoveredSnoc(xs[..n], xs[n], v);
    }
  }

  lemma OneMoreCovered(xs: seq<Interval>, n: nat, tlow: int, thigh: int)
    requires NonNull(xs, tlow, thigh) && n < |xs|
    ensures var was, now := |CoveredIn(xs[..n], tlow, thigh + 1)|, |CoveredIn(xs[..n + 1], tlow, thigh + 1)|;
            var more := xs[n].high + 1 - xs[n].low;
            now <= was + more && (now == was + more <==> MeetsNoEarlier(xs, n))
  {
    CoveredMore(xs, n, tlow, thigh + 1);
    SpanSize(xs[n].low, xs[n].high + 1);
    UnionSize(CoveredIn(xs[..n], tlow, thigh + 1), Span(xs[n].low, xs[n].high + 1));
    ApartIff(xs, n, tlow, thigh);
  }

  // Counting with repetition is counting exactly when no two intervals meet.
  lemma {:induction false} TotalIff(xs: seq<Interval>, n: nat, tlow: int, thigh: int)
    requires NonNull(xs, tlow, thigh) && n <= |xs|
    ensures |CoveredIn(xs[..n], tlow, thigh + 1)| <= Total(xs, n)
    ensures |CoveredIn(xs[..n], tlow, thigh + 1)| == Total(xs, n) <==> Disjoint(xs[..n])
  {
    if n > 0 {
      TotalIff(xs, n - 1, tlow, thigh);
      OneMoreCovered(xs, n - 1, tlow, thigh);
      DisjointSnoc(xs, n - 1);
    } else {
      assert CoveredIn(xs[..0], tlow, thigh + 1) == {};
    }
  }

  lemma DisjointSnoc(xs: seq<Interval>, n: nat)
    requires n < |xs|
    ensures Disjoint(xs[..n + 1]) <==> Disjoint(xs[..n]) && MeetsNoEarlier(xs, n)
  {
    assert forall m :: 0 <= m < n ==> xs[..n + 1][m] == xs[m] && xs[..n][m] == xs[m];
    assert xs[..n + 1][n] == xs[n];
  }

  lemma ApartIff(xs: seq<Interval>, n: nat, tlow: int, thigh: int)
    requires NonNull(xs, tlow, thigh) && n < |xs|
    ensures CoveredIn(xs[..n], tlow, thigh + 1) !! Span(xs[n].low, xs[n].high + 1) <==> MeetsNoEarlier(xs, n)
  {
    var a, b := CoveredIn(xs[..n], tlow, thigh + 1), Span(xs[n].low, xs[n].high + 1);
    if m :| 0 <= m < n && Meet(xs[m], xs[n]) {
      var v := Max(xs[m].low, xs[n].low);
      assert Within(xs[..n][m], v) && v in a && v in b;
    } else {
      forall v | v in a ensures v !in b {
        var m :| 0 <= m < n && Within(xs[..n][m], v);
        assert !Meet(xs[m], xs[n]);
      }
    }
  }

  lemma InsideIff(xs: seq<Interval>, tlow: int, thigh: int)
    requires forall n :: 0 <= n < |xs| ==> xs[n].low <= xs[n].high
    ensures Inside(xs, tlow, thigh) <==> forall v: int :: Covered(xs, v) ==> tlow <= v <= thigh
  {
    if forall v: int :: Covered(xs, v) ==> tlow <= v <= thigh {
      forall n | 0 <= n < |xs| ensures tlow <= xs[n].low && xs[n].high <= thigh {
        assert Within(xs[n], xs[n].low) && Within(xs[n], xs[n].high);
        assert Covered(xs, xs[n].low) && Covered(xs, xs[n].high);
      }
    }
  }

  lemma SubsetSize(all: set<int>, part: set<int>)
    requires part <= all
    ensures |all - part| == |all| - |part|
  {
    assert all == (all - part) + part;
  }

  // The count never exceeds the number of values of the type that are not covered,
  // and equals it exactly when no two intervals of the list meet.
  lemma CountIff(xs: seq<Interval>, tlow: int, thigh: int)
    requires NonNull(xs, tlow, thigh) && tlow <= thigh + 1
    ensures MissingCount(xs, tlow, thigh) <= |Uncovered(xs, tlow, thigh + 1)|
    ensures MissingCount(xs, tlow, thigh) == |Uncovered(xs, tlow, thigh + 1)| <==> Disjoint(xs)
  {
    GapsTelescope(xs, tlow, |xs|);
    TotalIff(xs, |xs|, tlow, thigh);
    assert xs[..|xs|] == xs;
    SpanSize(tlow, thigh + 1);
    var all, covered := Span(tlow, thigh + 1), CoveredIn(xs, tlow, thigh + 1);
    assert Uncovered(xs, tlow, thigh + 1) == all - covered;
    SubsetSize(all, covered);
  }

  // ---------------------------------------------------------------- the analysis

  // What one more interval of the scan decides.
  lemma PlaceStep(xs: seq<Interval>, i: nat, x: Interval)
    requires i < |xs| && xs[i].low <= x.high
    ensures var p, it := Place(xs[i..], x), xs[i];
            if x.low <= it.high then
              xs[..i] + p.list == xs[i := Interval(Min(x.low, it.low), Max(x.high, it.high))] && p.duplicate
            else if x.low == it.high + 1 then
              xs[..i] + p.list == xs[i := Interval(it.low, x.high)] && !p.duplicate
            else
              var q := Place(xs[i + 1..], x); xs[..i] + p.list == xs[..i + 1] + q.list && p.duplicate == q.duplicate
  {
    assert xs[i..][1..] == xs[i + 1..];
    assert xs[..i] + [xs[i]] == xs[..i + 1];
  }

  // The list of intervals, edited in place.
  class Cover {
    var intervals: seq<Interval>

    constructor ()
      ensures intervals == []
    {
      intervals := [];
    }

    method Choice(low: int, high: int) returns (duplicate: bool)
      requires low <= high
      modifies this
      ensures Placed(intervals, duplicate) == Place(old(intervals), Interval(low, high))
    {
      var x := Interval(low, high);
      var i := 0;
      while i < |intervals| && intervals[i].low <= high
        invariant i <= |intervals| && intervals == old(intervals)
        invariant var p := Place(intervals[i..], x); Place(intervals, x) == Placed(intervals[..i] + p.list, p.duplicate)
      {
        var it := intervals[i];
        PlaceStep(intervals, i, x);
        // The source also tests for high == it.low - 1, which the loop condition excludes.
        if low <= it.high && it.low <= high {
          intervals := intervals[i := Interval(Min(low, it.low), Max(high, it.high))];
          return true;
        } else if low == it.high + 1 {
          intervals := intervals[i := Interval(it.low, high)];
          return false;
        }
        i := i + 1;
      }
      intervals := intervals[..i] + [x] + intervals[i..];
      return false;
    }

    method Missing(tlow: int, thigh: int) returns (missing: int)
      ensures missing == MissingCount(intervals, tlow, thigh)
    {
      missing := 0;
      var walk := tlow;
      for n := 0 to |intervals|
        invariant missing == Gaps(intervals, tlow, n) && walk == Walk(intervals, tlow, n)
      {
        if intervals[n].low != walk {
          missing := missing + intervals[n].low - walk;
        }
        walk := intervals[n].high + 1;
      }
      if walk != thigh + 1 {
        missing := missing + thigh + 1 - walk;
      }
    }
  }

  // All choices in turn, as a list and the number of reports.
  function PlaceAll(choices: seq<Interval>): Placed {
    if choices == [] then Placed([], false) else
    var p := PlaceAll(choices[..|choices| - 1]);
    var q := Place(p.list, choices[|choices| - 1]);
    Placed(q.list, p.duplicate || q.duplicate)
  }

  lemma CoveredSnoc(xs: seq<Interval>, x: Interval, v: int)
    ensures Covered(xs + [x], v) <==> Covered(xs, v) || Within(x, v)
  {
    var ys := xs + [x];
    if n :| 0 <= n < |ys| && Within(ys[n], v) { assert n < |xs| ==> Within(xs[n], v); }
    if n :| 0 <= n < |xs| && Within(xs[n], v) { assert Within(ys[n], v); }
    if Within(x, v) { assert Within(ys[|xs|], v); }
  }

  lemma SortedIffDisjoint(xs: seq<Interval>)
    requires Ordered(xs)
    ensures Sorted(xs) <==> Disjoint(xs)
  {
  }

  lemma CoverOneMore(xs: seq<Interval>, before: seq<Interval>, x: Interval)
    requires Ordered(xs) && x.low <= x.high && forall v: int :: Covered(xs, v) <==> Covered(before, v)
    ensures Ordered(Place(xs, x).list) && forall v: int :: Covered(Place(xs, x).list, v) <==> Covered(before + [x], v)
  {
    PlaceOrdered(xs, x);
    forall v: int ensures Covered(Place(xs, x).list, v) <==> Covered(before + [x], v) {
      PlaceCovers(xs, x, v);
      CoveredSnoc(before, x, v);
    }
  }

  // After any choices the list is in order and covers exactly their values.
  lemma {:induction false} ChoicesCovered(choices: seq<Interval>, tlow: int, thigh: int)
    requires NonNull(choices, tlow, thigh)
    ensures var xs := PlaceAll(choices).list;
            Ordered(xs) && Inside(xs, tlow, thigh) && forall v: int :: Covered(xs, v) <==> Covered(choices, v)
  {
    var xs := PlaceAll(choices).list;
    if choices != [] {
      var before, x := choices[..|choices| - 1], choices[|choices| - 1];
      ChoicesCovered(before, tlow, thigh);
      CoverOneMore(PlaceAll(before).list, before, x);
      assert choices == before + [x];
    }
    InsideIff(choices, tlow, thigh);
    InsideIff(xs, tlow, thigh);
  }

  // Each choice, when its turn comes, joins at most one interval of the list.
  ghost predicate JoinOneByOne(choices: seq<Interval>) {
    choices == [] ||
    (JoinOneByOne(choices[..|choices| - 1])
        && JoinsAtMostOne(PlaceAll(choices[..|choices| - 1]).list, choices[|choices| - 1]))
  }

  lemma {:induction false} SortedRunIff(choices: seq<Interval>, tlow: int, thigh: int)
    requires NonNull(choices, tlow, thigh)
    ensures Sorted(PlaceAll(choices).list) <==> JoinOneByOne(choices)
  {
    if choices != [] {
      var before, x := choices[..|choices| - 1], choices[|choices| - 1];
      SortedRunIff(before, tlow, thigh);
      ChoicesCovered(before, tlow, thigh);
      PlaceSortedIff(PlaceAll(before).list, x);
    }
  }

  // For any choices inside the type: the missing count is at most the number of
  // values that no choice covers, and exactly that number if and only if each
  // choice joins at most one interval when its turn comes.
  lemma ChoicesCountIff(choices: seq<Interval>, tlow: int, thigh: int)
    requires NonNull(choices, tlow, thigh) && tlow <= thigh + 1
    ensures var missing := MissingCount(PlaceAll(choices).list, tlow, thigh);
            && missing <= |Uncovered(choices, tlow, thigh + 1)|
            && (missing == |Uncovered(choices, tlow, thigh + 1)| <==> JoinOneByOne(choices))
  {
    ChoicesCovered(choices, tlow, thigh);
    SortedRunIff(choices, tlow, thigh);
    var xs := PlaceAll(choices).list;
    SortedIffDisjoint(xs);
    CountIff(xs, tlow, thigh);
    assert Uncovered(xs, tlow, thigh + 1) == Uncovered(choices, tlow, thigh + 1);
  }

  // A choice that repeats nothing joins at most one interval: that which it follows.
  lemma NoRepeatJoinsOne(xs: seq<Interval>, x: Interval)
    requires Sorted(xs) && x.low <= x.high && !Repeats(xs, x)
    ensures JoinsAtMostOne(xs, x)
  {
    assert forall n :: 0 <= n < |xs| && Joins(xs[n], x) ==> !Meet(xs[n], x) && xs[n].high + 1 == x.low;
  }

  lemma RepeatsIff(xs: seq<Interval>, before: seq<Interval>, x: Interval)
    requires forall v: int :: Covered(xs, v) <==> Covered(before, v)
    requires (forall n :: 0 <= n < |before| ==> before[n].low <= before[n].high) && x.low <= x.high
    ensures Repeats(before, x) ==> Repeats(xs, x)
  {
    if n :| 0 <= n < |before| && Meet(before[n], x) {
      var v := Max(before[n].low, x.low);
      assert Within(before[n], v);
      assert Covered(before, v);
      var m :| 0 <= m < |xs| && Within(xs[m], v);
      assert Meet(xs[m], x);
    }
  }

  lemma {:induction false} DisjointRunIff(choices: seq<Interval>, tlow: int, thigh: int)
    requires NonNull(choices, tlow, thigh)
    ensures Disjoint(choices) <==> !PlaceAll(choices).duplicate && JoinOneByOne(choices)
  {
    if choices != [] {
      var before, x := choices[..|choices| - 1], choices[|choices| - 1];
      var xs := PlaceAll(before).list;
      DisjointRunIff(before, tlow, thigh);
      ChoicesCovered(before, tlow, thigh);
      SortedRunIff(before, tlow, thigh);
      assert choices[..|choices| - 1 + 1] == choices;
      DisjointSnoc(choices, |choices| - 1);
      if JoinOneByOne(before) {
        OneChoice(xs, before, x);
        assert forall m :: 0 <= m < |before| ==> before[m] == choices[m];
      }
    }
  }

  // One more choice on a sorted list is reported or joins two intervals exactly
  // when it repeats a value of an earlier choice.
  lemma OneChoice(xs: seq<Interval>, before: seq<Interval>, x: Interval)
    requires Sorted(xs) && x.low <= x.high && forall v: int :: Covered(xs, v) <==> Covered(before, v)
    requires forall n :: 0 <= n < |before| ==> before[n].low <= before[n].high
    ensures Repeats(before, x) <==> Place(xs, x).duplicate || !JoinsAtMostOne(xs, x)
  {
    ReportsIffSorted(xs, x);
    RepeatsIff(xs, before, x);
    RepeatsIff(before, xs, x);
    if !Repeats(xs, x) {
      NoRepeatJoinsOne(xs, x);
    } else if Touches(xs, x.low) {
      var m :| 0 <= m < |xs| && xs[m].high + 1 == x.low;
      var n :| 0 <= n < |xs| && Meet(xs[n], x);
      assert Joins(xs[m], x) && Joins(xs[n], x) && m != n;
    }
  }

  // Both diagnoses are right, that is, a repeated value is reported exactly if there
  // is one and the missing count is the number of values of the type that no choice
  // covers, if and only if each choice joins at most one interval when its turn comes.
  lemma BothRightIff(choices: seq<Interval>, tlow: int, thigh: int)
    requires NonNull(choices, tlow, thigh) && tlow <= thigh + 1
    ensures var p := PlaceAll(choices);
            JoinOneByOne(choices) <==>
            (p.duplicate <==> !Disjoint(choices))
                && MissingCount(p.list, tlow, thigh) == |Uncovered(choices, tlow, thigh + 1)|
  {
    DisjointRunIff(choices, tlow, thigh);
    ChoicesCountIff(choices, tlow, thigh);
  }

  // The choices are pairwise disjoint exactly when nothing is reported and the count
  // is right.
  lemma DisjointChoicesIff(choices: seq<Interval>, tlow: int, thigh: int)
    requires NonNull(choices, tlow, thigh) && tlow <= thigh + 1
    ensures var p := PlaceAll(choices);
            Disjoint(choices) <==>
            !p.duplicate && MissingCount(p.list, tlow, thigh) == |Uncovered(choices, tlow, thigh + 1)|
  {
    DisjointRunIff(choices, tlow, thigh);
    ChoicesCountIff(choices, tlow, thigh);
  }

  // The checks of a case statement: cover each choice, then count what is missing.
  method CheckChoices(choices: seq<Interval>, tlow: int, thigh: int) returns (duplicate: bool, missing: int)
    requires NonNull(choices, tlow, thigh)
    ensures duplicate == PlaceAll(choices).duplicate
    ensures missing == MissingCount(PlaceAll(choices).list, tlow, thigh)
  {
    var cover := new Cover();
    duplicate := false;
    for n := 0 to |choices|
      invariant PlaceAll(choices[..n]) == Placed(cover.intervals, duplicate)
    {
      assert choices[..n + 1][..n] == choices[..n];
      var again := cover.Choice(choices[n].low, choices[n].high);
      duplicate := duplicate || again;
    }
    assert choices[..|choices|] == choices;
    missing := cover.Missing(tlow, thigh);
  }

  // Without disjointness both diagnoses can fail at once: of the values 1 to 7 the
  // choices 1 to 2, 5 to 6 and 3 to 5 repeat 5 and leave out 7, and neither shows.
  lemma TouchingChoiceHidesGap()
    ensures var choices := [Interval(1, 2), Interval(5, 6), Interval(3, 5)];
            && !PlaceAll(choices).duplicate && MissingCount(PlaceAll(choices).list, 1, 7) == 0
            && Meet(choices[1], choices[2]) && !Covered(choices, 7)
  {
    var a, b, c := Interval(1, 2), Interval(5, 6), Interval(3, 5);
    assert [a, b, c][..2] == [a, b] && [a, b][..1] == [a] && [a][..0] == [];
    assert Place([], a) == Placed([a], false);
    assert Place([a], b) == Placed([a, b], false) by { assert [a][1..] == []; }
    assert Place([a, b], c) == Placed([Interval(1, 5), b], false) by { assert [a, b][1..] == [b]; }
    assert PlaceAll([a]) == Placed([a], false);
    assert PlaceAll([a, b]) == Placed([a, b], false);
    var xs := [Interval(1, 5), b];
    assert PlaceAll([a, b, c]) == Placed(xs, false);
    assert Gaps(xs, 1, 0) == 0;
    assert Gaps(xs, 1, 1) == Gaps(xs, 1, 0) + xs[0].low - 1;
    assert Gaps(xs, 1, 2) == Gaps(xs, 1, 1) + xs[1].low - (xs[0].high + 1);
  }
}
