// How the chains of drivers are built, one driven name at a time, and what the
// analysis of a chain says about the names that were driven.
module DriverSets {
  import opened Options
  import opened Drivers

  // A static prefix. Comparable prefixes are the same if and only if they are
  // equal; the comparison of trees gives up on the others.
  datatype Name = Name(prefix: Prefix, comparable: bool, tree: nat)

  datatype Target =
    | Aggregate(parts: seq<Target>)
    | Parameter                          // of a procedure: handled where it is called
    | Signal(decl: nat, name: Name)
    | External                           // an external name
    | Nameless

  // One driven name; an external name has no declaration.
  datatype Info = Info(where: nat, decl: Option<nat>, name: Name, tentative: bool)

  // A later name adds nothing: the process already drives the signal or the same part of it.
  predicate Subsumes(a: Info, b: Info) {
    && a.where == b.where && a.decl.Some? && a.decl == b.decl
    && (a.name.prefix.Whole? || (a.name.comparable && a.name == b.name))
  }

  // ---------------------------------------------------------------- the chains

  ghost predicate Subsumed(chain: seq<Info>, c: Info) { exists n :: 0 <= n < |chain| && Subsumes(chain[n], c) }

  // The chain of a process; an external name starts it afresh.
  ghost function ProcChain(calls: seq<Info>, w: nat): seq<Info> {
    if calls == [] then []
    else
      var was, c := ProcChain(calls[..|calls| - 1], w), calls[|calls| - 1];
      if c.where != w then was
      else if c.decl.None? then [c]
      else if Subsumed(was, c) then was
      else was + [c]
  }

  ghost function DeclChain(calls: seq<Info>, d: nat): seq<Info> {
    if calls == [] then []
    else
      var was, c := calls[..|calls| - 1], calls[|calls| - 1];
      if c.decl == Some(d) && !Subsumed(ProcChain(was, c.where), c) then DeclChain(was, d) + [c] else DeclChain(was, d)
  }

  class DriverSet {
    var procs: map<nat, seq<Info>>
    var decls: map<nat, seq<Info>>
    ghost var calls: seq<Info>            // everything driven so far

    ghost predicate Valid()
      reads this
    {
      && (forall w: nat :: Chain(procs, w) == ProcChain(calls, w))
      && (forall d: nat :: Chain(decls, d) == DeclChain(calls, d))
    }

    constructor ()
      ensures Valid() && calls == []
    {
      procs, decls, calls := map[], map[], [];
    }

    // Looks for an entry of the process that subsumes the new one.
    method Find(c: Info) returns (found: bool)
      ensures found <==> Subsumed(Chain(procs, c.where), c)
    {
      var chain := Chain(procs, c.where);
      for n := 0 to |chain|
        invariant forall m :: 0 <= m < n ==> !Subsumes(chain[m], c)
      {
        if Subsumes(chain[n], c) {
          return true;
        }
      }
      return false;
    }

    method Record(c: Info)
      requires Valid()
      modifies this
      ensures Valid() && calls == old(calls) + [c]
    {
      var known := false;
      if c.decl.Some? {
        known := Find(c);
      }
      ghost var was := calls;
      calls := calls + [c];
      assert calls[..|calls| - 1] == was;
      if !known {
        var chain := if c.decl.Some? then Chain(procs, c.where) else [];
        procs := procs[c.where := chain + [c]];
        if c.decl.Some? {
          decls := decls[c.decl.value := Chain(decls, c.decl.value) + [c]];
        }
      }
    }

    // An aggregate drives each of its parts.
    method Drive(w: nat, target: Target, tentative: bool)
      requires Valid()
      modifies this
      ensures Valid() && calls == old(calls) + Driven(w, target, tentative)
      ensures forall c :: c in calls <==> c in old(calls) || DrivenBy(w, target, tentative, c)
      decreases target, 0
    {
      DrivenIff(w, target, tentative);
      match target
      case Aggregate(parts) => DriveAll(w, parts, tentative);
      case Signal(decl, name) => Record(Info(w, Some(decl), name, tentative));
      case External => Record(Info(w, None, Name(Other, false, 0), tentative));
      case Parameter =>
      case Nameless =>
    }

    method DriveAll(w: nat, parts: seq<Target>, tentative: bool)
      requires Valid()
      modifies this
      ensures Valid() && calls == old(calls) + DrivenAll(w, parts, tentative)
      decreases parts, 1
    {
      if parts != [] {
        Drive(w, parts[0], tentative);
        DriveAll(w, parts[1..], tentative);
      }
    }
  }

  function Chain(chains: map<nat, seq<Info>>, key: nat): seq<Info> { if key in chains then chains[key] else [] }

  function Driven(w: nat, target: Target, tentative: bool): seq<Info>
    decreases target, 0
  {
    match target
    case Aggregate(parts) => DrivenAll(w, parts, tentative)
    case Signal(decl, name) => [Info(w, Some(decl), name, tentative)]
    case External => [Info(w, None, Name(Other, false, 0), tentative)]
    case _ => []
  }

  function DrivenAll(w: nat, parts: seq<Target>, tentative: bool): seq<Info>
    decreases parts, 1
  {
    if parts == [] then [] else Driven(w, parts[0], tentative) + DrivenAll(w, parts[1..], tentative)
  }

  // ---------------------------------------------------------------- what a target drives

  // The target occurs in the other, inside aggregates at any depth.
  ghost predicate Occurs(leaf: Target, target: Target) {
    leaf == target || (target.Aggregate? && exists n :: 0 <= n < |target.parts| && Occurs(leaf, target.parts[n]))
  }

  // A signal or an external name in the target that the process then drives.
  ghost predicate DrivenBy(w: nat, target: Target, tentative: bool, c: Info) {
    && c.where == w && c.tentative == tentative
    && (if c.decl.Some? then Occurs(Signal(c.decl.value, c.name), target)
        else Occurs(External, target) && c.name == Name(Other, false, 0))
  }

  // Exactly the signals and external names that occur are driven.
  lemma {:induction false} DrivenIff(w: nat, target: Target, tentative: bool)
    ensures forall c :: c in Driven(w, target, tentative) <==> DrivenBy(w, target, tentative, c)
    decreases target, 0
  {
    if target.Aggregate? {
      DrivenAllIff(w, target.parts, tentative);
      forall c ensures c in Driven(w, target, tentative) <==> DrivenBy(w, target, tentative, c) {
        assert DrivenBy(w, target, tentative, c) <==>
               exists n :: 0 <= n < |target.parts| && DrivenBy(w, target.parts[n], tentative, c);
      }
    }
  }

  lemma {:induction false} DrivenAllIff(w: nat, parts: seq<Target>, tentative: bool)
    ensures forall c :: c in DrivenAll(w, parts, tentative) <==>
                        exists n :: 0 <= n < |parts| && DrivenBy(w, parts[n], tentative, c)
    decreases parts, 1
  {
    if parts != [] {
      var rest := parts[1..];
      DrivenIff(w, parts[0], tentative);
      DrivenAllIff(w, rest, tentative);
      forall c ensures c in DrivenAll(w, parts, tentative) <==>
                       exists n :: 0 <= n < |parts| && DrivenBy(w, parts[n], tentative, c)
      {
        if n :| 0 <= n < |rest| && DrivenBy(w, rest[n], tentative, c) {
          assert DrivenBy(w, parts[n + 1], tentative, c);
        }
        if n :| 0 <= n < |parts| && DrivenBy(w, parts[n], tentative, c) {
          assert n > 0 ==> DrivenBy(w, rest[n - 1], tentative, c);
        }
      }
    }
  }

  // Parts are driven from left to right.
  lemma {:induction false} DrivenInOrder(w: nat, a: seq<Target>, b: seq<Target>, tentative: bool)
    ensures Driven(w, Aggregate(a + b), tentative) ==
            Driven(w, Aggregate(a), tentative) + Driven(w, Aggregate(b), tentative)
    ensures |a| == 1 ==> Driven(w, Aggregate(a), tentative) == Driven(w, a[0], tentative)
    decreases |a|
  {
    if a == [] {
      assert a + b == b;
    } else {
      DrivenInOrder(w, a[1..], b, tentative);
      assert (a + b)[1..] == a[1..] + b;
    }
  }

  // ---------------------------------------------------------------- which names are recorded

  // The process drives an external name after call m.
  ghost predicate Interrupted(calls: seq<Info>, m: int, w: nat) {
    exists e :: m < e < |calls| && 0 <= e && calls[e].where == w && calls[e].decl.None?
  }

  // Nothing since the last external name of the process subsumes c.
  ghost predicate Fresh(calls: seq<Info>, c: Info) {
    forall m :: 0 <= m < |calls| && Subsumes(calls[m], c) ==> Interrupted(calls, m, c.where)
  }

  lemma SubsumesTransitive(a: Info, b: Info, c: Info)
    requires Subsumes(a, b) && Subsumes(b, c)
    ensures Subsumes(a, c)
  {
  }

  lemma InterruptedSnoc(was: seq<Info>, x: Info, m: int, w: nat)
    requires m < |was|
    ensures Interrupted(was + [x], m, w) <==> Interrupted(was, m, w) || (x.where == w && x.decl.None?)
  {
    var calls := was + [x];
    assert calls[|was|] == x;
    if Interrupted(was, m, w) {
      var e :| m < e < |was| && 0 <= e && was[e].where == w && was[e].decl.None?;
      assert calls[e] == was[e];
    }
    if Interrupted(calls, m, w) {
      var e :| m < e < |calls| && 0 <= e && calls[e].where == w && calls[e].decl.None?;
      assert e < |was| ==> calls[e] == was[e];
    }
  }

  lemma FreshSnoc(was: seq<Info>, x: Info, c: Info)
    ensures Fresh(was + [x], c) <==> (x.where == c.where && x.decl.None?) || (Fresh(was, c) && !Subsumes(x, c))
  {
    var calls := was + [x];
    assert calls[|was|] == x && !Interrupted(calls, |was|, c.where);
    forall m | 0 <= m < |was|
      ensures calls[m] == was[m]
      ensures Interrupted(calls, m, c.where) <==> Interrupted(was, m, c.where) || (x.where == c.where && x.decl.None?)
    {
      InterruptedSnoc(was, x, m, c.where);
    }
    if Fresh(calls, c) && !(x.where == c.where && x.decl.None?) {
      forall m | 0 <= m < |was| && Subsumes(was[m], c) ensures Interrupted(was, m, c.where) {
        assert Subsumes(calls[m], c);
      }
    }
  }

  lemma SubsumedSnoc(chain: seq<Info>, x: Info, c: Info)
    ensures Subsumed(chain + [x], c) <==> Subsumed(chain, c) || Subsumes(x, c)
  {
    var chain' := chain + [x];
    assert chain'[|chain|] == x;
    if Subsumed(chain, c) {
      var n :| 0 <= n < |chain| && Subsumes(chain[n], c);
      assert Subsumes(chain'[n], c);
    }
  }

  // The chain of the process answers whether a name is new since its last external name.
  lemma {:induction false} ProcChainIff(calls: seq<Info>, c: Info)
    ensures Subsumed(ProcChain(calls, c.where), c) <==> !Fresh(calls, c)
  {
    if calls != [] {
      var was, x := calls[..|calls| - 1], calls[|calls| - 1];
      var chain := ProcChain(was, c.where);
      assert calls == was + [x];
      ProcChainIff(was, c);
      FreshSnoc(was, x, c);
      SubsumedSnoc([], x, c);
      assert [] + [x] == [x];
      SubsumedSnoc(chain, x, c);
      if Subsumed(chain, x) && Subsumes(x, c) {
        var n :| 0 <= n < |chain| && Subsumes(chain[n], x);
        SubsumesTransitive(chain[n], x, c);
      }
    }
  }

  // The names recorded for d are those that were new when they were driven, in order.
  ghost function NewNames(calls: seq<Info>, d: nat): seq<Info> {
    if calls == [] then []
    else
      var was, c := calls[..|calls| - 1], calls[|calls| - 1];
      NewNames(was, d) + if c.decl == Some(d) && Fresh(was, c) then [c] else []
  }

  lemma {:induction false} DeclChainIsNewNames(calls: seq<Info>, d: nat)
    ensures DeclChain(calls, d) == NewNames(calls, d)
  {
    if calls != [] {
      var was, c := calls[..|calls| - 1], calls[|calls| - 1];
      DeclChainIsNewNames(was, d);
      ProcChainIff(was, c);
    }
  }

  // In full: a call is recorded for d unless the process has, since its last external
  // name, driven all of d or the same part by a name that compares equal.
  lemma RecordedIff(calls: seq<Info>, d: nat, n: nat)
    requires n < |calls| && calls[n].decl == Some(d)
    ensures Recorded(calls, d, n) <==>
            forall m :: 0 <= m < n && calls[m].where == calls[n].where && calls[m].decl == Some(d)
                        && (calls[m].name.prefix.Whole?
                            || (calls[m].name.comparable && calls[m].name == calls[n].name)) ==>
              exists e :: m < e < n && calls[e].where == calls[n].where && calls[e].decl.None?
  {
    var before, c := calls[..n], calls[n];
    forall m | 0 <= m < n
      ensures before[m] == calls[m]
      ensures Interrupted(before, m, c.where) <==>
              exists e :: m < e < n && calls[e].where == c.where && calls[e].decl.None?
    {
      if e :| m < e < n && calls[e].where == c.where && calls[e].decl.None? { assert before[e].where == c.where; }
      if e :| m < e < |before| && 0 <= e && before[e].where == c.where && before[e].decl.None? {
        assert calls[e].where == c.where;
      }
    }
    assert forall m :: 0 <= m < n ==> (Subsumes(before[m], c) <==>
             calls[m].where == c.where && calls[m].decl == Some(d)
             && (calls[m].name.prefix.Whole? || (calls[m].name.comparable && calls[m].name == c.name)));
  }

  // ---------------------------------------------------------------- nothing is missing, nothing is there twice

  ghost predicate Recorded(calls: seq<Info>, d: nat, n: nat) {
    n < |calls| && calls[n].decl == Some(d) && Fresh(calls[..n], calls[n])
  }

  // A recorded call sits behind those recorded before it.
  lemma {:induction false} Position(calls: seq<Info>, d: nat, n: nat)
    requires Recorded(calls, d, n)
    ensures var i := |DeclChain(calls[..n], d)|; i < |DeclChain(calls, d)| && DeclChain(calls, d)[i] == calls[n]
    decreases |calls|
  {
    var was := calls[..|calls| - 1];
    ProcChainIff(was, calls[|calls| - 1]);
    if n < |was| {
      assert was[..n] == calls[..n];
      Position(was, d, n);
    }
  }

  lemma PositionsDiffer(calls: seq<Info>, d: nat, m: nat, n: nat)
    requires m < n && Recorded(calls, d, m) && Recorded(calls, d, n)
    ensures |DeclChain(calls[..m], d)| < |DeclChain(calls[..n], d)|
  {
    assert calls[..n][..m] == calls[..m];
    Position(calls[..n], d, m);
  }

  lemma {:induction false} CallAt(calls: seq<Info>, d: nat, i: nat) returns (n: nat)
    requires i < |DeclChain(calls, d)|
    ensures Recorded(calls, d, n) && i == |DeclChain(calls[..n], d)| && DeclChain(calls, d)[i] == calls[n]
    decreases |calls|
  {
    var was := calls[..|calls| - 1];
    ProcChainIff(was, calls[|calls| - 1]);
    if i < |DeclChain(was, d)| {
      n := CallAt(was, d, i);
      assert was[..n] == calls[..n];
    } else {
      n := |was|;
    }
  }

  // Every driven name is recorded, or an earlier recorded one subsumes it.
  lemma {:induction false} NothingMissing(calls: seq<Info>, d: nat, n: nat) returns (m: nat)
    requires n < |calls| && calls[n].decl == Some(d)
    ensures m <= n && Recorded(calls, d, m) && (m == n || Subsumes(calls[m], calls[n]))
    decreases n
  {
    m := n;
    if !Fresh(calls[..n], calls[n]) {
      var k :| 0 <= k < n && Subsumes(calls[..n][k], calls[n]);
      m := NothingMissing(calls, d, k);
      assert m != k ==> Subsumes(calls[m], calls[k]);
    }
  }

  ghost predicate NoRepeats(chain: seq<Info>) {
    forall i, j :: 0 <= i < j < |chain| ==> !Subsumes(chain[i], chain[j])
  }

  // A name that is recorded is subsumed by no earlier one: no process drives d,
  // then an external name, then the same part of d.
  ghost predicate Steady(calls: seq<Info>, d: nat) {
    forall n :: 0 <= n < |calls| && calls[n].decl == Some(d) && Fresh(calls[..n], calls[n]) ==>
      forall m :: 0 <= m < n ==> !Subsumes(calls[m], calls[n])
  }

  lemma SteadySnoc(was: seq<Info>, c: Info, d: nat)
    ensures Steady(was + [c], d) <==>
              && Steady(was, d)
              && (c.decl == Some(d) && Fresh(was, c) ==> forall m :: 0 <= m < |was| ==> !Subsumes(was[m], c))
  {
    var calls := was + [c];
    assert forall n :: 0 <= n < |was| ==> calls[n] == was[n];
    forall n | 0 <= n <= |was| ensures calls[..n] == was[..n] {
    }
    assert was[..|was|] == was && calls[|was|] == c;
  }

  // No part is recorded twice, if and only if the calls are steady.
  lemma {:induction false} NoRepeatsIff(calls: seq<Info>, d: nat)
    ensures NoRepeats(DeclChain(calls, d)) <==> Steady(calls, d)
  {
    if calls != [] {
      var was, c := calls[..|calls| - 1], calls[|calls| - 1];
      var chain := DeclChain(was, d);
      assert calls == was + [c];
      NoRepeatsIff(was, d);
      SteadySnoc(was, c, d);
      ProcChainIff(was, c);
      if c.decl == Some(d) && Fresh(was, c) {
        RepeatsSnoc(chain, c);
        SubsumedIff(was, d, c);
      }
    }
  }

  lemma RepeatsSnoc(chain: seq<Info>, c: Info)
    ensures NoRepeats(chain + [c]) <==> NoRepeats(chain) && !Subsumed(chain, c)
  {
    var chain' := chain + [c];
    assert chain'[|chain|] == c && forall i :: 0 <= i < |chain| ==> chain'[i] == chain[i];
    if NoRepeats(chain') {
      forall i, j | 0 <= i < j < |chain| ensures !Subsumes(chain[i], chain[j]) {
        assert !Subsumes(chain'[i], chain'[j]);
      }
      forall i | 0 <= i < |chain| ensures !Subsumes(chain[i], c) {
        assert !Subsumes(chain'[i], chain'[|chain|]);
      }
    }
  }

  lemma SubsumedIff(calls: seq<Info>, d: nat, c: Info)
    requires c.decl == Some(d)
    ensures Subsumed(DeclChain(calls, d), c) <==> exists m :: 0 <= m < |calls| && Subsumes(calls[m], c)
  {
    var chain := DeclChain(calls, d);
    if m :| 0 <= m < |calls| && Subsumes(calls[m], c) {
      var k := NothingMissing(calls, d, m);
      Position(calls, d, k);
      assert Subsumes(chain[|DeclChain(calls[..k], d)|], c);
    }
    if Subsumed(chain, c) {
      var i :| 0 <= i < |chain| && Subsumes(chain[i], c);
      var m := CallAt(calls, d, i);
      assert Subsumes(calls[m], c);
    }
  }

  // ---------------------------------------------------------------- what the analysis of a chain decides

  function Analysed(chain: seq<Info>): (drivers: seq<Driver>)
    ensures |drivers| == |chain|
  {
    seq(|chain|, i requires 0 <= i < |chain| => Driver(chain[i].where, chain[i].name.prefix, chain[i].tentative))
  }

  ghost predicate Drives(calls: seq<Info>, d: nat, n: int) { 0 <= n < |calls| && calls[n].decl == Some(d) }

  ghost predicate NamesPart(t: Shape, calls: seq<Info>, d: nat, n: int, e: nat) {
    Drives(calls, d, n) && e < Length(t) && Names(t, calls[n].name.prefix, e)
  }

  ghost predicate PartDriven(t: Shape, calls: seq<Info>, d: nat, e: nat) { exists n :: NamesPart(t, calls, d, n, e) }

  predicate SameDriver(a: Info, b: Info) { a.where == b.where && a.name.comparable && a.name == b.name }

  // Every sub-element is driven by one process through one name.
  ghost predicate EachOnce(t: Shape, calls: seq<Info>, d: nat) {
    && Length(t) > 0
    && (forall n :: Drives(calls, d, n) ==> Known(calls[n].name.prefix))
    && (forall e: nat :: e < Length(t) ==> PartDriven(t, calls, d, e))
    && (forall m, n, e: nat :: NamesPart(t, calls, d, m, e) && NamesPart(t, calls, d, n, e) ==>
          m == n || SameDriver(calls[m], calls[n]))
  }

  ghost predicate OneProcess(calls: seq<Info>, d: nat) {
    && (forall m, n :: Drives(calls, d, m) && Drives(calls, d, n) ==> calls[m].where == calls[n].where)
    && exists n :: Drives(calls, d, n) && calls[n].name.prefix.Whole?
  }

  ghost predicate Certain(calls: seq<Info>, d: nat) {
    && (exists n :: Drives(calls, d, n))
    && forall n :: Drives(calls, d, n) ==> !calls[n].tentative
  }

  // Generate statements make all drivers of a process tentative, or none.
  ghost predicate ByProcess(calls: seq<Info>) {
    forall m, n :: 0 <= m < |calls| && 0 <= n < |calls| && calls[m].where == calls[n].where ==>
      calls[m].tentative == calls[n].tentative
  }

  // Where the chain accounts for call n.
  lemma Accounted(calls: seq<Info>, d: nat, n: int) returns (m: nat, i: nat)
    requires Drives(calls, d, n)
    ensures Drives(calls, d, m) && i < |DeclChain(calls, d)| && DeclChain(calls, d)[i] == calls[m]
    ensures calls[m].where == calls[n].where && (calls[n].name.prefix.Whole? ==> calls[m].name.prefix.Whole?)
  {
    m := NothingMissing(calls, d, n);
    Position(calls, d, m);
    i := |DeclChain(calls[..m], d)|;
  }

  lemma CertainIff(calls: seq<Info>, d: nat)
    requires ByProcess(calls)
    ensures Definite(Analysed(DeclChain(calls, d))) <==> Certain(calls, d)
  {
    var chain := DeclChain(calls, d);
    var drivers := Analysed(chain);
    if Definite(drivers) {
      var k := CallAt(calls, d, 0);
      assert Drives(calls, d, k);
      forall n | Drives(calls, d, n) ensures !calls[n].tentative {
        var m, i := Accounted(calls, d, n);
        assert !drivers[i].tentative;
      }
    }
    if Certain(calls, d) {
      var k :| Drives(calls, d, k);
      var m, j := Accounted(calls, d, k);
      forall i | 0 <= i < |drivers| ensures !drivers[i].tentative {
        var n := CallAt(calls, d, i);
        assert Drives(calls, d, n);
      }
    }
  }

  lemma OneProcessIff(calls: seq<Info>, d: nat)
    ensures SingleProcess(Analysed(DeclChain(calls, d))) <==> OneProcess(calls, d)
  {
    var chain := DeclChain(calls, d);
    var drivers := Analysed(chain);
    if SingleProcess(drivers) {
      forall m, n | Drives(calls, d, m) && Drives(calls, d, n) ensures calls[m].where == calls[n].where {
        var k, i := Accounted(calls, d, m);
        var l, j := Accounted(calls, d, n);
        assert drivers[i].where == drivers[j].where;
      }
      var i :| 0 <= i < |drivers| && drivers[i].prefix.Whole?;
      var n := CallAt(calls, d, i);
      assert Drives(calls, d, n);
    }
    if OneProcess(calls, d) {
      forall i, j | 0 <= i < |drivers| && 0 <= j < |drivers| ensures drivers[i].where == drivers[j].where {
        var m := CallAt(calls, d, i);
        var n := CallAt(calls, d, j);
        assert Drives(calls, d, m) && Drives(calls, d, n);
      }
      var n :| Drives(calls, d, n) && calls[n].name.prefix.Whole?;
      var m, i := Accounted(calls, d, n);
      assert drivers[i].prefix.Whole?;
    }
  }

  lemma PartitionSteady(t: Shape, chain: seq<Info>)
    requires Partition(t, Analysed(chain)) && forall i :: 0 <= i < |chain| ==> InRange(t, chain[i].name.prefix)
    ensures NoRepeats(chain)
  {
    var drivers := Analysed(chain);
    forall i, j | 0 <= i < j < |chain| ensures !Subsumes(chain[i], chain[j]) {
      assert Known(drivers[i].prefix) && Known(drivers[j].prefix);
      NamesRange(t, drivers[i].prefix);
      var e: nat := Start(t, drivers[i].prefix);
      assert Names(t, drivers[i].prefix, e);
    }
  }

  // A partition by the recorded names is one by all driven names.
  lemma PartitionEachOnce(t: Shape, calls: seq<Info>, d: nat)
    requires Partition(t, Analysed(DeclChain(calls, d)))
    ensures EachOnce(t, calls, d)
  {
    var chain := DeclChain(calls, d);
    var drivers := Analysed(chain);
    forall n | Drives(calls, d, n) ensures Known(calls[n].name.prefix) {
      var m := Stands(t, calls, d, n);
    }
    forall e: nat | e < Length(t) ensures PartDriven(t, calls, d, e) {
      assert Named(t, drivers, e);
      var i :| 0 <= i < |drivers| && Names(t, drivers[i].prefix, e);
      var n := CallAt(calls, d, i);
      assert NamesPart(t, calls, d, n, e);
    }
    forall m, n, e: nat | NamesPart(t, calls, d, m, e) && NamesPart(t, calls, d, n, e)
      ensures m == n || SameDriver(calls[m], calls[n])
    {
      var k := Stands(t, calls, d, m);
      var l := Stands(t, calls, d, n);
      var i, j := |DeclChain(calls[..k], d)|, |DeclChain(calls[..l], d)|;
      assert Names(t, drivers[i].prefix, e) && Names(t, drivers[j].prefix, e);
      if k < l {
        PositionsDiffer(calls, d, k, l);
      } else if l < k {
        PositionsDiffer(calls, d, l, k);
      }
    }
  }

  // The recorded call that stands for call n.
  lemma Stands(t: Shape, calls: seq<Info>, d: nat, n: int) returns (m: nat)
    requires Drives(calls, d, n) && Partition(t, Analysed(DeclChain(calls, d)))
    ensures Recorded(calls, d, m) && (m == n || SameDriver(calls[m], calls[n])) && Known(calls[m].name.prefix)
    ensures var i := |DeclChain(calls[..m], d)|; i < |DeclChain(calls, d)| && DeclChain(calls, d)[i] == calls[m]
  {
    m := NothingMissing(calls, d, n);
    Position(calls, d, m);
    assert Known(Analysed(DeclChain(calls, d))[|DeclChain(calls[..m], d)|].prefix);
  }

  lemma EachOncePartition(t: Shape, calls: seq<Info>, d: nat)
    requires EachOnce(t, calls, d) && NoRepeats(DeclChain(calls, d))
    ensures Partition(t, Analysed(DeclChain(calls, d)))
  {
    var chain := DeclChain(calls, d);
    var drivers := Analysed(chain);
    forall i | 0 <= i < |drivers| ensures Known(drivers[i].prefix) {
      var n := CallAt(calls, d, i);
      assert Drives(calls, d, n);
    }
    forall e: nat | e < Length(t) ensures Named(t, drivers, e) {
      assert PartDriven(t, calls, d, e);
      var n :| NamesPart(t, calls, d, n, e);
      var m := NothingMissing(calls, d, n);
      Position(calls, d, m);
      assert Drives(calls, d, m);
      assert Names(t, drivers[|DeclChain(calls[..m], d)|].prefix, e);
    }
    forall i, j, e: nat | 0 <= i < j < |drivers| && e < Length(t)
      ensures !(Names(t, drivers[i].prefix, e) && Names(t, drivers[j].prefix, e))
    {
      var m := CallAt(calls, d, i);
      var n := CallAt(calls, d, j);
      assert !Subsumes(chain[i], chain[j]);
      assert NamesPart(t, calls, d, m, e) && NamesPart(t, calls, d, n, e) ==> m == n || SameDriver(calls[m], calls[n]);
    }
  }

  lemma PartitionIff(t: Shape, calls: seq<Info>, d: nat)
    requires forall n :: Drives(calls, d, n) ==> InRange(t, calls[n].name.prefix)
    ensures Partition(t, Analysed(DeclChain(calls, d))) <==> EachOnce(t, calls, d) && Steady(calls, d)
  {
    var chain := DeclChain(calls, d);
    NoRepeatsIff(calls, d);
    if Partition(t, Analysed(chain)) {
      ChainInRange(t, calls, d);
      PartitionSteady(t, chain);
      PartitionEachOnce(t, calls, d);
    } else if EachOnce(t, calls, d) && Steady(calls, d) {
      EachOncePartition(t, calls, d);
    }
  }

  lemma ChainInRange(t: Shape, calls: seq<Info>, d: nat)
    requires forall n :: Drives(calls, d, n) ==> InRange(t, calls[n].name.prefix)
    ensures forall i :: 0 <= i < |DeclChain(calls, d)| ==> InRange(t, DeclChain(calls, d)[i].name.prefix)
  {
    forall i | 0 <= i < |DeclChain(calls, d)| ensures InRange(t, DeclChain(calls, d)[i].name.prefix) {
      var n := CallAt(calls, d, i);
      assert Drives(calls, d, n);
    }
  }

  // The answer in terms of everything that was driven. A sub-element that one
  // process drives again after an external name makes the answer no.
  method UniqueDriver(ds: DriverSet, d: nat, t: Shape) returns (r: bool)
    requires ds.Valid() && ByProcess(ds.calls)
    requires forall n :: Drives(ds.calls, d, n) ==> InRange(t, ds.calls[n].name.prefix)
    ensures r <==>
              Certain(ds.calls, d) && (OneProcess(ds.calls, d) || (EachOnce(t, ds.calls, d) && Steady(ds.calls, d)))
  {
    ChainInRange(t, ds.calls, d);
    CertainIff(ds.calls, d);
    OneProcessIff(ds.calls, d);
    PartitionIff(t, ds.calls, d);
    r := HasUniqueDriver(t, Analysed(Chain(ds.decls, d)));
  }

  // One process drives the only element of a signal, an external name, and the
  // element again: it alone drives the signal, but the answer is no.
  lemma DrivenAgainAfterExternal(w: nat, d: nat)
    ensures var t, a, b := Vector(To, 0, 0), Info(w, Some(d), Name(Element(Some(0)), true, 0), false),
                           Info(w, None, Name(Other, false, 0), false);
            Certain([a, b, a], d) && EachOnce(t, [a, b, a], d) && !Steady([a, b, a], d) && !OneProcess([a, b, a], d)
  {
    var t, a, b := Vector(To, 0, 0), Info(w, Some(d), Name(Element(Some(0)), true, 0), false),
        Info(w, None, Name(Other, false, 0), false);
    var calls := [a, b, a];
    assert Drives(calls, d, 0) && NamesPart(t, calls, d, 0, 0);
    assert calls[..2] == [a, b];
    assert Interrupted([a, b], 0, w) by { assert [a, b][1] == b; }
    assert Fresh(calls[..2], calls[2]) && Subsumes(calls[0], calls[2]);
  }
}
