// Exactly when sensitivity is sound: reading outside the reported parts makes a
// difference, and so does an index that is only called static.
module SensitivityExact {
  import opened Options
  import opened Sensitivity
  import opened ProcessSemantics
  import opened SensitivityTerms

  // ------------------------------------------------------------ ground values

  // Values that hold no trace of a signal or a variable.
  predicate Ground(v: Val)
    decreases v, 1
  {
    match v
    case Const(_) => true
    case Quoted(_) => true
    case Unset(_, initial) => initial == 0
    case Term(op, args) => !op.SignalOp? && AllGround(args)
    case _ => false
  }

  predicate AllGround(vs: seq<Val>)
    decreases vs, 0
  {
    vs == [] || (Ground(vs[0]) && AllGround(vs[1..]))
  }

  lemma GroundCons(v: Val, vs: seq<Val>)
    ensures AllGround([v] + vs) <==> Ground(v) && AllGround(vs)
  {
    assert ([v] + vs)[1..] == vs;
  }

  lemma GroundOne(v: Val)
    ensures AllGround([v]) <==> Ground(v)
  {
    assert [v][1..] == [];
  }

  // An environment in which signals and variables leave their trace, or none of them does.
  datatype Env = Env(goal: seq<Step>, avoid: seq<Step>, sig: Signals, vars: Vars)

  ghost predicate Traces(c: Env) {
    c.vars.known == map[] && c.vars.initial != 0 && forall p, id :: !Ground(c.sig(p, id))
  }

  ghost predicate Quiet(c: Env) {
    c.vars.known == map[] && c.vars.initial == 0 && forall p, id :: Ground(c.sig(p, id))
  }

  function E(c: Env, p: Plane, e: Expr): Val { Eval(Terms(c.goal, c.avoid), c.sig, c.vars, p, e) }
  function EAll(c: Env, es: seq<Expr>): seq<Val> { EvalAll(Terms(c.goal, c.avoid), c.sig, c.vars, es) }
  function ERange(c: Env, r: Range): seq<Val> { EvalRange(Terms(c.goal, c.avoid), c.sig, c.vars, r) }
  function EShape(c: Env, e: Expr): Val { Shape(Terms(c.goal, c.avoid), c.sig, c.vars, e) }
  function EAssocs(c: Env, assocs: seq<Assoc>): seq<seq<Val>> {
    EvalAssocs(Terms(c.goal, c.avoid), c.sig, c.vars, assocs)
  }
  function EAssoc(c: Env, a: Assoc): seq<Val> { EvalAssoc(Terms(c.goal, c.avoid), c.sig, c.vars, a) }

  // A value is free of traces exactly when nothing that leaves one was read.
  lemma {:induction false} GroundIff(c: Env, p: Plane, e: Expr)
    requires Traces(c) || Quiet(c)
    ensures Ground(E(c, p, e)) <==> Quiet(c) || Reads(e) == []
    decreases e, 2
  {
    match e
    case ArrayRef(_, _) => GroundPart(c, p, e);
    case ArraySlice(_, _) => GroundPart(c, p, e);
    case RecordRef(_, _) => GroundPart(c, p, e);
    case FCall(_, _, ps) => GroundAll(c, ps);
    case Aggregate(assocs) => GroundAssocs(c, assocs);
    case AttrRef(_, _, _) => GroundAttr(c, p, e);
    case Convert(_, v) => GroundIff(c, Value, v); GroundOne(E(c, Value, v));
    case _ =>
  }

  lemma {:induction false} GroundPart(c: Env, p: Plane, e: Expr)
    requires (Traces(c) || Quiet(c)) && (e.ArrayRef? || e.ArraySlice? || e.RecordRef?)
    ensures Ground(E(c, p, e)) <==> Quiet(c) || Reads(e) == []
    decreases e, 1
  {
    GroundIff(c, p, e.value);
    if FixedName(e) { FixedNameReads(e); FixedNameReads(e.value); }
    match e
    case ArrayRef(v, ps) => GroundAll(c, ps); GroundCons(E(c, p, v), EAll(c, ps));
    case ArraySlice(v, r) => GroundRange(c, r); GroundCons(E(c, p, v), ERange(c, r));
    case RecordRef(v, _) => GroundOne(E(c, p, v));
  }

  lemma {:induction false} GroundAttr(c: Env, p: Plane, e: Expr)
    requires (Traces(c) || Quiet(c)) && e.AttrRef?
    ensures Ground(E(c, p, e)) <==> Quiet(c) || Reads(e) == []
    decreases e, 1
  {
    if e.attr.Scalar? {
      GroundAll(c, e.params);
    } else if e.attr.Bound? || e.attr.Extent? {
      GroundShape(c, e.name);
      GroundAll(c, e.params);
      GroundCons(EShape(c, e.name), EAll(c, e.params));
    } else if !e.attr.Label? {
      GroundIff(c, History(e.attr), e.name);
      GroundOne(E(c, History(e.attr), e.name));
    }
  }

  lemma {:induction false} GroundShape(c: Env, e: Expr)
    requires Traces(c) || Quiet(c)
    ensures Ground(EShape(c, e)) <==> Quiet(c) || ReadsShape(e) == []
    decreases e, 3
  {
    if e.ArrayRef? || e.ArraySlice? || e.RecordRef? {
      GroundShape(c, e.value);
      GroundOne(EShape(c, e.value));
      if e.ArraySlice? { GroundRange(c, e.range); GroundCons(EShape(c, e.value), ERange(c, e.range)); }
    } else if !e.Ref? && !e.ExternalName? {
      GroundIff(c, Value, e);
      GroundOne(E(c, Value, e));
    }
  }

  lemma {:induction false} GroundAll(c: Env, es: seq<Expr>)
    requires Traces(c) || Quiet(c)
    ensures AllGround(EAll(c, es)) <==> Quiet(c) || ReadsAll(es) == []
    decreases es, 0
  {
    if es != [] {
      GroundIff(c, Value, es[0]);
      GroundAll(c, es[1..]);
      GroundCons(E(c, Value, es[0]), EAll(c, es[1..]));
    }
  }

  lemma {:induction false} GroundRange(c: Env, r: Range)
    requires Traces(c) || Quiet(c)
    ensures AllGround(ERange(c, r)) <==> Quiet(c) || ReadsRange(r) == []
    decreases r, 0
  {
    match r
    case Bounds(l, h, _) =>
      GroundIff(c, Value, l);
      GroundIff(c, Value, h);
      GroundOne(E(c, Value, h));
      GroundCons(E(c, Value, l), [E(c, Value, h)]);
    case RangeExpr(v) => GroundIff(c, Value, v); GroundOne(E(c, Value, v));
  }

  lemma {:induction false} GroundAssocs(c: Env, assocs: seq<Assoc>)
    requires Traces(c) || Quiet(c)
    ensures AllGround(Wrap(EAssocs(c, assocs))) <==> Quiet(c) || ReadsAssocs(assocs) == []
    decreases assocs, 0
  {
    if assocs != [] {
      GroundAssoc(c, assocs[0]);
      GroundAssocs(c, assocs[1..]);
      var rows := EAssocs(c, assocs);
      assert rows[1..] == EAssocs(c, assocs[1..]);
      GroundCons(Term(AssocOp, rows[0]), Wrap(rows[1..]));
    }
  }

  lemma {:induction false} GroundAssoc(c: Env, a: Assoc)
    requires Traces(c) || Quiet(c)
    ensures AllGround(EAssoc(c, a)) <==> Quiet(c) || ReadsAssoc(a) == []
    decreases a, 0
  {
    GroundIff(c, Value, a.value);
    match a
    case Named(v, name) =>
      GroundIff(c, Value, name);
      GroundOne(E(c, Value, name));
      GroundCons(E(c, Value, v), [E(c, Value, name)]);
    case Ranged(v, r) => GroundRange(c, r); GroundCons(E(c, Value, v), ERange(c, r));
    case Pos(v) => GroundOne(E(c, Value, v));
    case Others(v) => GroundOne(E(c, Value, v));
  }

  // ------------------------------------------------------------ fixed expressions

  ghost predicate SameIn(I: Interp, s1: Signals, s2: Signals, v1: Vars, v2: Vars, p: Plane, e: Expr) {
    Eval(I, s1, v1, p, e) == Eval(I, s2, v2, p, e)
  }

  // The value is the same in all states.
  ghost predicate Independent(e: Expr) {
    forall I: Interp, s1: Signals, s2: Signals, v1: Vars, v2: Vars, p: Plane :: SameIn(I, s1, s2, v1, v2, p, e)
  }

  // It is exactly when nothing is read.
  lemma FixedIff(e: Expr)
    ensures Independent(e) <==> Fixed(e)
  {
    if Fixed(e) {
      forall I: Interp, s1: Signals, s2: Signals, v1: Vars, v2: Vars, p: Plane
        ensures SameIn(I, s1, s2, v1, v2, p, e)
      {
        FixedValue(I, s1, v1, p, e);
        FixedValue(I, s2, v2, p, e);
      }
    } else {
      var quiet: Signals := (p: Plane, id: SignalId) => Const(Num(0));
      var a, b := Env([], [], BLANK, Vars(map[], 1)), Env([], [], quiet, Vars(map[], 0));
      GroundIff(a, Value, e);
      GroundIff(b, Value, e);
      assert !SameIn(Terms([], []), BLANK, quiet, Vars(map[], 1), Vars(map[], 0), Value, e);
    }
  }

  // The length of a slice of a signal is called static whatever its bounds read.
  lemma SliceLengthIsNotFixed(s: nat, n: nat, low: Lit)
    ensures var e := AttrRef(Bound(0), ArraySlice(Ref(SignalDecl(s)), Bounds(Literal(low), Ref(VarDecl(n)), false)),
            []);
            IsStatic(e) && !Independent(e)
  {
    var slice := ArraySlice(Ref(SignalDecl(s)), Bounds(Literal(low), Ref(VarDecl(n)), false));
    assert NameToRef(slice) == Some(SignalDecl(s));
    assert Reads(Ref(VarDecl(n))) == [Ref(VarDecl(n))];
    assert ReadsRange(slice.range) == [] + [Ref(VarDecl(n))];
    assert ReadsShape(slice) == [] + ReadsRange(slice.range);
    FixedIff(AttrRef(Bound(0), slice, []));
  }

  // ------------------------------------------------------------ symbolic values again

  // Values without traces read alike in all interpretations that build terms.
  lemma {:induction false} ReadGround(goal: seq<Step>, avoid: seq<Step>, v: Val)
    requires Ground(v)
    ensures Read(Terms(goal, avoid), v) == Read(Terms([], []), v) && !Read(Terms([], []), v).Part?
    decreases v, 1
  {
    if v.Term? {
      ReadsGround(goal, avoid, v.args);
      RowsGround(goal, avoid, v.args);
    }
  }

  lemma {:induction false} ReadsGround(goal: seq<Step>, avoid: seq<Step>, vs: seq<Val>)
    requires AllGround(vs)
    ensures ReadAll(Terms(goal, avoid), vs) == ReadAll(Terms([], []), vs)
    ensures vs != [] ==> !ReadAll(Terms([], []), vs)[0].Part?
    decreases vs, 0
  {
    if vs != [] {
      ReadGround(goal, avoid, vs[0]);
      ReadsGround(goal, avoid, vs[1..]);
    }
  }

  lemma {:induction false} RowsGround(goal: seq<Step>, avoid: seq<Step>, vs: seq<Val>)
    requires AllGround(vs)
    ensures ReadRows(Terms(goal, avoid), vs) == ReadRows(Terms([], []), vs)
    decreases vs, 0
  {
    if vs != [] {
      if vs[0].Term? { ReadsGround(goal, avoid, vs[0].args); }
      RowsGround(goal, avoid, vs[1..]);
    }
  }

  // A fixed list of indices has its symbolic values in every such environment.
  lemma CodesAnywhere(c: Env, es: seq<Expr>)
    requires ReadsAll(es) == []
    ensures EAll(c, es) == EvalAll(Terms([], []), BLANK, NO_VARS, es) && AllGround(EAll(c, es))
  {
    var codes, T := EvalAll(Terms([], []), BLANK, NO_VARS, es), Terms([], []);
    GroundAll(Env([], [], BLANK, Vars(map[], 1)), es);
    FixedValues(T, BLANK, Vars(map[], 1), es);
    FixedValues(T, BLANK, NO_VARS, es);
    FixedValues(Terms(c.goal, c.avoid), c.sig, c.vars, es);
    ReadsGround(c.goal, c.avoid, codes);
  }

  lemma CodesOfRange(c: Env, r: Range)
    requires ReadsRange(r) == []
    ensures ERange(c, r) == EvalRange(Terms([], []), BLANK, NO_VARS, r) && AllGround(ERange(c, r))
  {
    var codes, T := EvalRange(Terms([], []), BLANK, NO_VARS, r), Terms([], []);
    GroundRange(Env([], [], BLANK, Vars(map[], 1)), r);
    FixedRange(T, BLANK, Vars(map[], 1), r);
    FixedRange(T, BLANK, NO_VARS, r);
    FixedRange(Terms(c.goal, c.avoid), c.sig, c.vars, r);
    ReadsGround(c.goal, c.avoid, codes);
  }
}
