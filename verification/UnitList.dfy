// Which units are compiled into a pack: those of the design hierarchy and
// everything they link to, directly or not.
module UnitList {

  type Name = s: string | s != "" witness "x"
  type Graph = map<Name, seq<Name>>      // the linkage of every unit that can be found

  ghost predicate Distinct(s: seq<Name>) { forall i, j :: 0 <= i < j < |s| ==> s[i] != s[j] }

  // ---------------------------------------------------------------- the hierarchy

  datatype Stmt = Nested(block: Block) | Process(name: Name) | Other
  datatype Block = Block(unit: Name, prefix: Name, stmts: seq<Stmt>)

  // The names of a block and its statements in the order they are visited.
  datatype Entry = Unit(name: Name) | Proc(name: Name)

  function Symbol(prefix: Name, name: Name): Name { prefix + "." + name }

  function Entries(b: Block): seq<Entry>
    decreases b, 1, 0
  {
    [Unit(b.unit)] + StmtEntries(b, |b.stmts|)
  }

  function StmtEntries(b: Block, n: nat): seq<Entry>
    requires n <= |b.stmts|
    decreases b, 0, n
  {
    if n == 0 then [] else StmtEntries(b, n - 1) + OneStmt(b, n - 1)
  }

  function OneStmt(b: Block, n: nat): seq<Entry>
    requires n < |b.stmts|
    decreases b, 0, n
  {
    match b.stmts[n]
    case Nested(c) => Entries(c)
    case Process(name) => [Proc(Symbol(b.prefix, name))]
    case Other => []
  }

  // The names in order of first appearance.
  function Names(es: seq<Entry>): seq<Name> {
    if es == [] then [] else
    var s, x := Names(es[..|es| - 1]), es[|es| - 1].name;
    if x in s then s else s + [x]
  }

  // No unit has a name that appeared before; the source asserts this.
  ghost predicate UnitsNew(es: seq<Entry>) {
    forall m, n :: 0 <= m < n < |es| && es[n].Unit? ==> es[m].name != es[n].name
  }

  lemma {:induction false} NamesOf(es: seq<Entry>)
    ensures Distinct(Names(es)) && forall x :: x in Names(es) <==> exists n :: 0 <= n < |es| && es[n].name == x
  {
    if es != [] {
      var before, e := es[..|es| - 1], es[|es| - 1];
      NamesOf(before);
      forall x ensures x in Names(es) <==> exists n :: 0 <= n < |es| && es[n].name == x {
        if x in Names(before) {
          var n :| 0 <= n < |before| && before[n].name == x;
          assert es[n].name == x;
        } else if n :| 0 <= n < |es| && es[n].name == x {
          assert n < |before| ==> before[n].name == x;
        }
      }
    }
  }

  lemma NamesSnoc(es: seq<Entry>, e: Entry)
    ensures Names(es + [e]) == if e.name in Names(es) then Names(es) else Names(es) + [e.name]
  {
    assert (es + [e])[..|es|] == es;
  }

  // Names are listed in the order of their first appearance.
  lemma {:induction false} FirstAppearance(es: seq<Entry>, i: nat, j: nat, n: nat)
    requires i < j < |Names(es)| && n < |es| && es[n].name == Names(es)[j]
    ensures exists m :: 0 <= m < n && es[m].name == Names(es)[i]
  {
    var before, e := es[..|es| - 1], es[|es| - 1];
    NamesOf(before);
    NamesOf(es);
    if j < |Names(before)| && n < |before| {
      FirstAppearance(before, i, j, n);
      var m :| 0 <= m < n && before[m].name == Names(before)[i];
      assert es[m].name == Names(es)[i];
    } else {
      assert Names(es)[i] in Names(before);
      var m :| 0 <= m < |before| && before[m].name == Names(before)[i];
      assert es[m].name == Names(es)[i];
    }
  }

  // Statements are visited from first to last.
  lemma {:induction false} EntriesInOrder(unit: Name, prefix: Name, a: seq<Stmt>, b: seq<Stmt>, n: nat)
    requires n <= |a| + |b|
    ensures StmtEntries(Block(unit, prefix, a + b), n) ==
            if n <= |a| then StmtEntries(Block(unit, prefix, a), n)
            else StmtEntries(Block(unit, prefix, a), |a|) + StmtEntries(Block(unit, prefix, b), n - |a|)
    decreases n
  {
    if n > 0 {
      EntriesInOrder(unit, prefix, a, b, n - 1);
      var whole, first, second := Block(unit, prefix, a + b), Block(unit, prefix, a), Block(unit, prefix, b);
      if n <= |a| {
        assert whole.stmts[n - 1] == a[n - 1];
        assert OneStmt(whole, n - 1) == OneStmt(first, n - 1);
      } else {
        assert whole.stmts[n - 1] == b[n - 1 - |a|];
        assert OneStmt(whole, n - 1) == OneStmt(second, n - 1 - |a|);
      }
    }
  }

  // ---------------------------------------------------------------- what the hierarchy names

  // The block is the other or lies in it, through nested statements.
  ghost predicate Inside(b: Block, top: Block) {
    b == top || exists n :: 0 <= n < |top.stmts| && top.stmts[n].Nested? && Inside(b, top.stmts[n].block)
  }

  // The name of the unit of a block, or of a process behind the prefix and a dot.
  ghost predicate NamedBy(b: Block, x: Name) {
    || x == b.unit
    || exists n :: 0 <= n < |b.stmts| && b.stmts[n].Process? && x == b.prefix + "." + b.stmts[n].name
  }

  ghost predicate InHierarchy(top: Block, x: Name) { exists b :: Inside(b, top) && NamedBy(b, x) }

  ghost predicate Listed(es: seq<Entry>, x: Name) { exists n :: 0 <= n < |es| && es[n].name == x }

  lemma ListedConcat(a: seq<Entry>, b: seq<Entry>, x: Name)
    ensures Listed(a + b, x) <==> Listed(a, x) || Listed(b, x)
  {
    if n :| 0 <= n < |a| && a[n].name == x { assert (a + b)[n].name == x; }
    if n :| 0 <= n < |b| && b[n].name == x { assert (a + b)[|a| + n].name == x; }
    if n :| 0 <= n < |a + b| && (a + b)[n].name == x {
      assert if n < |a| then a[n].name == x else b[n - |a|].name == x;
    }
  }

  // What statement n contributes.
  ghost predicate StmtNames(b: Block, n: nat, x: Name)
    requires n < |b.stmts|
  {
    match b.stmts[n]
    case Nested(c) => InHierarchy(c, x)
    case Process(name) => x == b.prefix + "." + name
    case Other => false
  }

  lemma {:induction false} StmtListed(b: Block, n: nat, x: Name)
    requires n < |b.stmts|
    ensures Listed(OneStmt(b, n), x) <==> StmtNames(b, n, x)
    decreases b, 0
  {
    match b.stmts[n]
    case Nested(c) => HierarchyListed(c, x);
    case Process(name) => assert Listed([Proc(Symbol(b.prefix, name))], x) <==>
        [Proc(Symbol(b.prefix, name))][0].name == x;
    case Other =>
  }

  lemma {:induction false} StmtsListed(b: Block, n: nat, x: Name)
    requires n <= |b.stmts|
    ensures Listed(StmtEntries(b, n), x) <==> exists m :: 0 <= m < n && StmtNames(b, m, x)
    decreases b, 1, n
  {
    if n > 0 {
      StmtsListed(b, n - 1, x);
      StmtListed(b, n - 1, x);
      ListedConcat(StmtEntries(b, n - 1), OneStmt(b, n - 1), x);
    }
  }

  lemma Contributed(b: Block, x: Name)
    ensures InHierarchy(b, x) <==> x == b.unit || exists n :: 0 <= n < |b.stmts| && StmtNames(b, n, x)
  {
    if InHierarchy(b, x) {
      var c :| Inside(c, b) && NamedBy(c, x);
      if c == b {
        if x != b.unit {
          var n :| 0 <= n < |b.stmts| && b.stmts[n].Process? && x == b.prefix + "." + b.stmts[n].name;
          assert StmtNames(b, n, x);
        }
      } else {
        var n :| 0 <= n < |b.stmts| && b.stmts[n].Nested? && Inside(c, b.stmts[n].block);
        assert InHierarchy(b.stmts[n].block, x);
        assert StmtNames(b, n, x);
      }
    }
    if x == b.unit { assert Inside(b, b) && NamedBy(b, x); }
    if n :| 0 <= n < |b.stmts| && StmtNames(b, n, x) {
      if b.stmts[n].Nested? {
        var c :| Inside(c, b.stmts[n].block) && NamedBy(c, x);
        assert Inside(c, b);
      } else {
        assert Inside(b, b) && NamedBy(b, x);
      }
    }
  }

  // The list of a hierarchy holds exactly the units of its blocks and its processes.
  lemma {:induction false} HierarchyListed(b: Block, x: Name)
    ensures Listed(Entries(b), x) <==> InHierarchy(b, x)
    decreases b, 2
  {
    StmtsListed(b, |b.stmts|, x);
    ListedConcat([Unit(b.unit)], StmtEntries(b, |b.stmts|), x);
    assert Listed([Unit(b.unit)], x) <==> [Unit(b.unit)][0].name == x;
    Contributed(b, x);
  }

  lemma RootsAre(top: Block)
    ensures forall x :: x in Names(Entries(top)) <==> InHierarchy(top, x)
  {
    NamesOf(Entries(top));
    forall x ensures x in Names(Entries(top)) <==> InHierarchy(top, x) {
      HierarchyListed(top, x);
      assert Listed(Entries(top), x) <==> x in Names(Entries(top));
    }
  }

  // ---------------------------------------------------------------- linkage

  // A link that is followed: names that start with a dollar sign are skipped.
  predicate Link(g: Graph, a: Name, b: Name) { a in g && b in g[a] && b[0] != '$' }

  ghost predicate Path(g: Graph, roots: seq<Name>, p: seq<Name>) {
    p != [] && p[0] in roots && forall i :: 0 <= i < |p| - 1 ==> Link(g, p[i], p[i + 1])
  }

  ghost predicate Reachable(g: Graph, roots: seq<Name>, x: Name) {
    exists p :: Path(g, roots, p) && p[|p| - 1] == x
  }

  lemma RootReachable(g: Graph, roots: seq<Name>, x: Name)
    requires x in roots
    ensures Reachable(g, roots, x)
  {
    assert Path(g, roots, [x]) && [x][|[x]| - 1] == x;
  }

  lemma LinkReachable(g: Graph, roots: seq<Name>, a: Name, b: Name)
    requires Reachable(g, roots, a) && Link(g, a, b)
    ensures Reachable(g, roots, b)
  {
    var p :| Path(g, roots, p) && p[|p| - 1] == a;
    var q := p + [b];
    assert Path(g, roots, q) && q[|q| - 1] == b;
  }

  // A list that holds the roots and is closed under links holds all that is reachable.
  lemma {:induction false} ClosedHolds(g: Graph, roots: seq<Name>, units: seq<Name>, p: seq<Name>)
    requires Path(g, roots, p) && (forall x :: x in roots ==> x in units)
    requires forall a, b :: a in units && Link(g, a, b) ==> b in units
    ensures p[|p| - 1] in units
    decreases |p|
  {
    if |p| > 1 {
      var q := p[..|p| - 1];
      assert Path(g, roots, q);
      ClosedHolds(g, roots, units, q);
      assert Link(g, p[|p| - 2], p[|p| - 1]);
    }
  }

  lemma {:induction false} DistinctFits(s: seq<Name>, keys: set<Name>)
    requires Distinct(s) && forall x :: x in s ==> x in keys
    ensures |s| <= |keys|
  {
    if s != [] {
      var t, x := s[..|s| - 1], s[|s| - 1];
      assert x !in t;
      DistinctFits(t, keys - {x});
    }
  }

  // ---------------------------------------------------------------- the list

  class Lister {
    var units: seq<Name>
    var seen: set<Name>

    ghost predicate Valid()
      reads this
    {
      Distinct(units) && forall x :: x in seen <==> x in units
    }

    constructor ()
      ensures Valid() && units == []
    {
      units, seen := [], {};
    }

    method Add(x: Name)
      requires Valid() && x !in seen
      modifies this
      ensures Valid() && units == old(units) + [x]
    {
      units, seen := units + [x], seen + {x};
    }

    // The unit of a block must be new, which the source asserts.
    method AddUnit(unit: Name, ghost done: seq<Entry>)
      requires Valid() && units == Names(done) && UnitsNew(done + [Unit(unit)])
      modifies this
      ensures Valid() && units == Names(done + [Unit(unit)])
    {
      NamesOf(done);
      ghost var es := done + [Unit(unit)];
      assert forall n :: 0 <= n < |done| ==> es[n] == done[n] && es[|done|].Unit?;
      NamesSnoc(done, Unit(unit));
      assert unit !in seen;
      Add(unit);
    }

    method WalkStmt(b: Block, n: nat, ghost now: seq<Entry>)
      requires Valid() && n < |b.stmts| && units == Names(now) && UnitsNew(now + OneStmt(b, n))
      modifies this
      ensures Valid() && units == Names(now + OneStmt(b, n))
      decreases b, 0
    {
      match b.stmts[n]
      case Nested(c) =>
        WalkHier(c, now);
      case Process(name) =>
        var sym := Symbol(b.prefix, name);
        NamesSnoc(now, Proc(sym));
        if sym !in seen {
          Add(sym);
        }
      case Other =>
        assert now + [] == now;
    }

    // Adds the names of a block and of all blocks in it.
    method WalkHier(b: Block, ghost done: seq<Entry>)
      requires Valid() && units == Names(done) && UnitsNew(done + Entries(b))
      modifies this
      ensures Valid() && units == Names(done + Entries(b))
      ensures forall x :: x in units <==> x in old(units) || InHierarchy(b, x)
      decreases b, 1
    {
      ghost var es := done + [Unit(b.unit)];
      FirstNew(done, b);
      AddUnit(b.unit, done);
      assert es + StmtEntries(b, 0) == es;
      for n := 0 to |b.stmts|
        invariant Valid() && units == Names(es + StmtEntries(b, n))
      {
        PrefixNew(done, b, n);
        WalkStmt(b, n, es + StmtEntries(b, n));
        assert es + StmtEntries(b, n + 1) == es + StmtEntries(b, n) + OneStmt(b, n);
      }
      assert es + StmtEntries(b, |b.stmts|) == done + Entries(b);
      Together(done, b);
    }

    // Adds what one unit links to; false when the unit cannot be found.
    method FindDependencies(g: Graph, name: Name) returns (found: bool)
      requires Valid()
      modifies this
      ensures Valid() && (found <==> name in g) && old(units) <= units
      ensures forall x :: x in units <==> x in old(units) || Link(g, name, x)
    {
      if name !in g {
        return false;
      }
      var links := g[name];
      for n := 0 to |links|
        invariant Valid() && old(units) <= units
        invariant forall x :: x in units <==> x in old(units) || (x in links[..n] && x[0] != '$')
      {
        var link := links[n];
        assert links[..n + 1] == links[..n] + [link];
        if link !in seen && link[0] != '$' {
          Add(link);
        }
      }
      assert links[..|links|] == links;
      return true;
    }

    // Goes through the list while it grows.
    method Close(g: Graph) returns (found: bool)
      requires Valid()
      modifies this
      ensures Valid() && old(units) <= units
      ensures found <==> forall x :: Reachable(g, old(units), x) ==> x in g
      ensures found ==> forall x :: x in units <==> Reachable(g, old(units), x)
    {
      ghost var roots := units;
      var i := 0;
      RootsReachable(g, roots);
      while i < |units|
        invariant Valid() && roots <= units && i <= |units|
        invariant AllReachable(g, roots, units) && ClosedUpTo(g, units, i)
        decreases |g| - i
      {
        ghost var was := units;
        var ok := FindDependencies(g, units[i]);
        if !ok {
          assert was[i] in was;
          return false;
        }
        OneMoreClosed(g, roots, was, units, i);
        i := i + 1;
        DistinctFits(units[..i], g.Keys);
      }
      AllClosed(g, roots, units);
      return true;
    }
  }

  ghost predicate AllReachable(g: Graph, roots: seq<Name>, units: seq<Name>) {
    forall x :: x in units ==> Reachable(g, roots, x)
  }

  // The first i units can be found, and what they link to is in the list.
  ghost predicate ClosedUpTo(g: Graph, units: seq<Name>, i: nat) {
    i <= |units| && forall j :: 0 <= j < i ==> LinksIn(g, units, units[j])
  }

  ghost predicate LinksIn(g: Graph, units: seq<Name>, a: Name) {
    a in g && forall b :: Link(g, a, b) ==> b in units
  }

  lemma RootsReachable(g: Graph, roots: seq<Name>)
    ensures AllReachable(g, roots, roots)
  {
    forall x | x in roots ensures Reachable(g, roots, x) {
      RootReachable(g, roots, x);
    }
  }

  lemma OneMoreClosed(g: Graph, roots: seq<Name>, was: seq<Name>, units: seq<Name>, i: nat)
    requires i < |was| && AllReachable(g, roots, was) && ClosedUpTo(g, was, i) && was <= units && was[i] in g
    requires forall x :: x in units <==> x in was || Link(g, was[i], x)
    ensures AllReachable(g, roots, units) && ClosedUpTo(g, units, i + 1)
  {
    forall x | x in units ensures Reachable(g, roots, x) {
      if x !in was { LinkReachable(g, roots, was[i], x); }
    }
    forall j | 0 <= j <= i ensures LinksIn(g, units, units[j]) {
      assert units[j] == was[j] && (j < i ==> LinksIn(g, was, was[j]));
    }
  }

  lemma AllClosed(g: Graph, roots: seq<Name>, units: seq<Name>)
    requires roots <= units && AllReachable(g, roots, units) && ClosedUpTo(g, units, |units|)
    ensures forall x :: x in units <==> Reachable(g, roots, x)
    ensures forall x :: x in units ==> x in g
  {
    forall a | a in units ensures LinksIn(g, units, a) {
      var j :| 0 <= j < |units| && units[j] == a;
    }
    forall x | Reachable(g, roots, x) ensures x in units {
      var p :| Path(g, roots, p) && p[|p| - 1] == x;
      ClosedHolds(g, roots, units, p);
    }
  }

  lemma Together(done: seq<Entry>, b: Block)
    ensures forall x :: x in Names(done + Entries(b)) <==> x in Names(done) || InHierarchy(b, x)
  {
    NamesOf(done);
    NamesOf(done + Entries(b));
    forall x ensures x in Names(done + Entries(b)) <==> x in Names(done) || InHierarchy(b, x) {
      ListedConcat(done, Entries(b), x);
      HierarchyListed(b, x);
      assert Listed(done, x) <==> x in Names(done);
      assert Listed(done + Entries(b), x) <==> x in Names(done + Entries(b));
    }
  }

  lemma FirstNew(done: seq<Entry>, b: Block)
    requires UnitsNew(done + Entries(b))
    ensures UnitsNew(done + [Unit(b.unit)])
  {
    var whole, part := done + Entries(b), done + [Unit(b.unit)];
    assert forall m :: 0 <= m < |part| ==> whole[m] == part[m];
  }

  lemma PrefixNew(done: seq<Entry>, b: Block, n: nat)
    requires UnitsNew(done + Entries(b)) && n < |b.stmts|
    ensures UnitsNew(done + [Unit(b.unit)] + StmtEntries(b, n) + OneStmt(b, n))
  {
    var rest := StmtPrefix(b, n + 1);
    var whole, part := done + Entries(b), done + [Unit(b.unit)] + StmtEntries(b, n) + OneStmt(b, n);
    assert whole == part + rest;
    assert forall m :: 0 <= m < |part| ==> whole[m] == part[m];
  }

  lemma {:induction false} StmtPrefix(b: Block, n: nat) returns (rest: seq<Entry>)
    requires n <= |b.stmts|
    ensures StmtEntries(b, |b.stmts|) == StmtEntries(b, n) + rest
    decreases |b.stmts| - n
  {
    if n == |b.stmts| {
      rest := [];
    } else {
      var more := StmtPrefix(b, n + 1);
      rest := OneStmt(b, n) + more;
    }
  }

  // Reached from a unit or process of the hierarchy by following links.
  ghost predicate Needed(g: Graph, top: Block, x: Name) {
    exists p :: NeedPath(g, top, p) && p[|p| - 1] == x
  }

  ghost predicate NeedPath(g: Graph, top: Block, p: seq<Name>) {
    p != [] && InHierarchy(top, p[0]) && forall i :: 0 <= i < |p| - 1 ==> Link(g, p[i], p[i + 1])
  }

  lemma NeededIff(g: Graph, top: Block, x: Name)
    ensures Needed(g, top, x) <==> Reachable(g, Names(Entries(top)), x)
  {
    RootsAre(top);
    if p :| NeedPath(g, top, p) && p[|p| - 1] == x { assert Path(g, Names(Entries(top)), p); }
    if p :| Path(g, Names(Entries(top)), p) && p[|p| - 1] == x { assert NeedPath(g, top, p); }
  }

  // The unit list of a design: without repetition, exactly what is needed by its
  // hierarchy. It fails exactly when something needed cannot be found.
  method UnitsOf(top: Block, g: Graph) returns (found: bool, units: seq<Name>)
    requires UnitsNew(Entries(top))
    ensures found <==> forall x :: Needed(g, top, x) ==> x in g
    ensures found ==> Distinct(units) && forall x :: x in units <==> Needed(g, top, x)
  {
    var l := new Lister();
    assert [] + Entries(top) == Entries(top);
    l.WalkHier(top, []);
    found := l.Close(g);
    units := l.units;
    forall x ensures Needed(g, top, x) <==> Reachable(g, Names(Entries(top)), x) {
      NeededIff(g, top, x);
    }
  }
}
