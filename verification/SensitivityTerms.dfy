// What expressions read, and the interpretation that builds terms: it gives every
// fixed expression a symbolic value from which all its other values follow.
module SensitivityTerms {
  import opened Sensitivity
  import opened ProcessSemantics

  // ------------------------------------------------------------ what is read

  predicate IsVariable(e: Expr) {
    e.Ref? && (e.decl.VarDecl? || (e.decl.ConstDecl? && !e.decl.globallyStatic))
  }

  // The parts of signals and the variables that the value depends on.
  function Reads(e: Expr): seq<Expr>
    decreases e, 2
  {
    match e
    case Ref(d) => if IsSignal(d) || IsVariable(e) then [e] else []
    case ExternalName(_) => [e]
    case Literal(_) => []
    case ArrayRef(v, ps) => if FixedName(e) then [e] else Reads(v) + ReadsAll(ps)
    case ArraySlice(v, r) => if FixedName(e) then [e] else Reads(v) + ReadsRange(r)
    case RecordRef(v, _) => if FixedName(e) then [e] else Reads(v)
    case FCall(_, flagged, ps) => if flagged then [] else ReadsAll(ps)
    case Aggregate(assocs) => ReadsAssocs(assocs)
    case AttrRef(a, name, ps) =>
      (match a
       case Scalar(_) => ReadsAll(ps)
       case Bound(_) => ReadsShape(name) + ReadsAll(ps)
       case Extent(_) => ReadsShape(name) + ReadsAll(ps)
       case Label(_) => []
       case _ => Reads(name))
    case Convert(_, v) => Reads(v)
  }

  // A part of a signal that is the same whatever the state is.
  predicate FixedName(e: Expr)
    decreases e, 1
  {
    match e
    case Ref(d) => IsSignal(d)
    case ExternalName(_) => true
    case ArrayRef(v, ps) => FixedName(v) && ReadsAll(ps) == []
    case ArraySlice(v, r) => FixedName(v) && ReadsRange(r) == []
    case RecordRef(v, _) => FixedName(v)
    case _ => false
  }

  // What the bounds of a prefix depend on: the ranges of slices, and any other value.
  function ReadsShape(e: Expr): seq<Expr>
    decreases e, 3
  {
    match e
    case Ref(_) => []
    case ExternalName(_) => []
    case ArrayRef(v, _) => ReadsShape(v)
    case ArraySlice(v, r) => ReadsShape(v) + ReadsRange(r)
    case RecordRef(v, _) => ReadsShape(v)
    case _ => Reads(e)
  }

  function ReadsAll(es: seq<Expr>): seq<Expr>
    decreases es, 0
  {
    if es == [] then [] else Reads(es[0]) + ReadsAll(es[1..])
  }

  function ReadsRange(r: Range): seq<Expr>
    decreases r, 0
  {
    match r
    case Bounds(l, h, _) => Reads(l) + Reads(h)
    case RangeExpr(v) => Reads(v)
  }

  function ReadsAssocs(assocs: seq<Assoc>): seq<Expr>
    decreases assocs, 0
  {
    if assocs == [] then [] else ReadsAssoc(assocs[0]) + ReadsAssocs(assocs[1..])
  }

  function ReadsAssoc(a: Assoc): seq<Expr>
    decreases a, 0
  {
    match a
    case Named(v, name) => Reads(v) + Reads(name)
    case Ranged(v, r) => Reads(v) + ReadsRange(r)
    case Pos(v) => Reads(v)
    case Others(v) => Reads(v)
  }

  // The value does not depend on the state.
  predicate Fixed(e: Expr) { Reads(e) == [] }

  lemma FixedNameReads(e: Expr)
    requires FixedName(e)
    ensures Reads(e) == [e]
  {
  }

  // ------------------------------------------------------------ building terms

  // Marks survive along `goal`, and beyond it except through the steps in `avoid`.
  predicate Keeps(goal: seq<Step>, avoid: seq<Step>, path: seq<Step>) {
    path <= goal || (goal < path && path[|goal|] !in avoid)
  }

  function Move(goal: seq<Step>, avoid: seq<Step>, v: Val, step: Step): Val
    requires v.Part?
  {
    var path := v.path + [step];
    Part(path, if Keeps(goal, avoid, path) then v.mark else 0)
  }

  function Wrap(rows: seq<seq<Val>>): seq<Val> {
    if rows == [] then [] else [Term(AssocOp, rows[0])] + Wrap(rows[1..])
  }

  function Terms(goal: seq<Step>, avoid: seq<Step>): Interp {
    Interp(
      (d: Decl) => Quoted(Ref(d)),
      (v: Val, at: seq<Val>) => if v.Part? then Move(goal, avoid, v, Index(at)) else Term(IndexOp, [v] + at),
      (v: Val, at: seq<Val>, d: bool) =>
        if v.Part? then Move(goal, avoid, v, SliceOf(at, d)) else Term(SliceOp(d), [v] + at),
      (v: Val, f: nat) => if v.Part? then Move(goal, avoid, v, Field(f)) else Term(SelectOp(f), [v]),
      (fn: nat, vs: seq<Val>) => Term(CallOp(fn), vs),
      (e: Expr) => Quoted(e),
      (rows: seq<seq<Val>>) => Term(AggregateOp, Wrap(rows)),
      (op: nat, name: Expr, vs: seq<Val>) => Term(ScalarOp(op, name), vs),
      (a: Attr, v: Val) => Term(HistoryOp(a), [v]),
      (op: nat, name: Expr) => Term(LabelOp(op, name), []),
      (a: Attr, shape: Val, vs: seq<Val>) => Term(BoundOp(a), [shape] + vs),
      (e: Expr) => Term(RootOp(e), []),
      (shape: Val) => Term(ElemOp, [shape]),
      (shape: Val, at: seq<Val>, d: bool) => Term(BoundsOp(d), [shape] + at),
      (shape: Val, f: nat) => Term(FieldOp(f), [shape]),
      (v: Val) => Term(ShapeOp, [v]),
      (k: nat, v: Val) => Term(ConvertOp(k), [v]),
      (v: Val) => true,
      (v: Val, cs: seq<Expr>) => true,
      (vs: seq<Val>, d: bool) => [],
      (v: Val, path: seq<Step>, x: Val) => Changed(v, path, x))
  }

  // ------------------------------------------------------------ symbolic values

  const BLANK: Signals := (p: Plane, id: SignalId) => Term(SignalOp(id), [])
  const NO_VARS: Vars := Vars(map[], 0)

  function Code(e: Expr): Val { Eval(Terms([], []), BLANK, NO_VARS, Value, e) }

  // The part of a signal that a fixed name denotes.
  function CodePath(e: Expr): seq<Step> { Path(Terms([], []), BLANK, NO_VARS, e) }

  // Reading a symbolic value in any interpretation.
  function Read(I: Interp, v: Val): Val
    decreases v, 1
  {
    match v
    case Const(_) => v
    case Quoted(e) => if e.Ref? then I.consts(e.decl) else I.folded(e)
    case Term(op, args) => ReadTerm(I, v, ReadAll(I, args), ReadRows(I, args))
    case _ => v
  }

  function ReadTerm(I: Interp, v: Val, vs: seq<Val>, rows: seq<seq<Val>>): Val
    requires v.Term?
  {
    match v.op
    case IndexOp => if vs == [] then v else I.index(vs[0], vs[1..])
    case SliceOp(d) => if vs == [] then v else I.slice(vs[0], vs[1..], d)
    case SelectOp(f) => if |vs| != 1 then v else I.select(vs[0], f)
    case CallOp(fn) => I.call(fn, vs)
    case AggregateOp => I.aggregate(rows)
    case ScalarOp(op, name) => I.scalarAttr(op, name, vs)
    case HistoryOp(a) => if |vs| != 1 then v else I.historyAttr(a, vs[0])
    case LabelOp(op, name) => I.labelAttr(op, name)
    case ConvertOp(k) => if |vs| != 1 then v else I.convert(k, vs[0])
    case BoundOp(a) => if vs == [] then v else I.boundAttr(a, vs[0], vs[1..])
    case RootOp(e) => I.rootShape(e)
    case ElemOp => if |vs| != 1 then v else I.elemShape(vs[0])
    case BoundsOp(d) => if vs == [] then v else I.sliceShape(vs[0], vs[1..], d)
    case FieldOp(f) => if |vs| != 1 then v else I.fieldShape(vs[0], f)
    case ShapeOp => if |vs| != 1 then v else I.valueShape(vs[0])
    case _ => v
  }

  function ReadAll(I: Interp, vs: seq<Val>): (r: seq<Val>)
    ensures |r| == |vs|
    decreases vs, 0
  {
    if vs == [] then [] else [Read(I, vs[0])] + ReadAll(I, vs[1..])
  }

  function ReadRows(I: Interp, vs: seq<Val>): seq<seq<Val>>
    decreases vs, 0
  {
    if vs == [] then [] else [if vs[0].Term? then ReadAll(I, vs[0].args) else []] + ReadRows(I, vs[1..])
  }

  lemma ReadCons(I: Interp, v: Val, vs: seq<Val>)
    ensures ReadAll(I, [v] + vs) == [Read(I, v)] + ReadAll(I, vs)
  {
    assert ([v] + vs)[1..] == vs;
  }

  lemma ReadOne(I: Interp, v: Val)
    ensures ReadAll(I, [v]) == [Read(I, v)]
  {
    assert [v][1..] == [];
  }

  // Operations on a value and a list, and on a value alone.
  lemma ReadPair(I: Interp, op: Op, v: Val, at: seq<Val>)
    requires op.IndexOp? || op.SliceOp? || op.BoundOp? || op.BoundsOp?
    ensures Read(I, Term(op, [v] + at)) ==
            match op
            case IndexOp => I.index(Read(I, v), ReadAll(I, at))
            case SliceOp(d) => I.slice(Read(I, v), ReadAll(I, at), d)
            case BoundOp(a) => I.boundAttr(a, Read(I, v), ReadAll(I, at))
            case BoundsOp(d) => I.sliceShape(Read(I, v), ReadAll(I, at), d)
  {
    ReadCons(I, v, at);
    assert ([Read(I, v)] + ReadAll(I, at))[1..] == ReadAll(I, at);
  }

  lemma ReadSingle(I: Interp, v: Val)
    ensures forall f :: Read(I, Term(SelectOp(f), [v])) == I.select(Read(I, v), f)
    ensures forall a :: Read(I, Term(HistoryOp(a), [v])) == I.historyAttr(a, Read(I, v))
    ensures forall k :: Read(I, Term(ConvertOp(k), [v])) == I.convert(k, Read(I, v))
    ensures Read(I, Term(ElemOp, [v])) == I.elemShape(Read(I, v))
    ensures forall f :: Read(I, Term(FieldOp(f), [v])) == I.fieldShape(Read(I, v), f)
    ensures Read(I, Term(ShapeOp, [v])) == I.valueShape(Read(I, v))
  {
    ReadOne(I, v);
  }

  // The value of a fixed expression in any interpretation and state is read off
  // its symbolic value.
  lemma {:induction false} FixedValue(I: Interp, sig: Signals, vars: Vars, p: Plane, e: Expr)
    requires Reads(e) == []
    ensures Eval(I, sig, vars, p, e) == Read(I, Code(e))
    ensures Eval(Terms([], []), BLANK, NO_VARS, p, e) == Code(e) && !Code(e).Part?
    decreases e, 2
  {
    match e
    case ArrayRef(_, _) => FixedPart(I, sig, vars, p, e);
    case ArraySlice(_, _) => FixedPart(I, sig, vars, p, e);
    case RecordRef(_, _) => FixedPart(I, sig, vars, p, e);
    case FCall(_, flagged, ps) => if !flagged { FixedValues(I, sig, vars, ps); }
    case Aggregate(assocs) => FixedAssocs(I, sig, vars, assocs);
    case AttrRef(_, _, _) => FixedAttr(I, sig, vars, p, e);
    case Convert(_, v) => FixedValue(I, sig, vars, Value, v); ReadSingle(I, Code(v));
    case _ =>
  }

  lemma {:induction false} FixedAttr(I: Interp, sig: Signals, vars: Vars, p: Plane, e: Expr)
    requires e.AttrRef? && Reads(e) == []
    ensures Eval(I, sig, vars, p, e) == Read(I, Code(e))
    ensures Eval(Terms([], []), BLANK, NO_VARS, p, e) == Code(e) && !Code(e).Part?
    decreases e, 1
  {
    if e.attr.Bound? || e.attr.Extent? {
      FixedBound(I, sig, vars, p, e);
    } else if e.attr.Scalar? {
      FixedValues(I, sig, vars, e.params);
    } else if !e.attr.Label? {
      FixedHistory(I, sig, vars, p, e);
    }
  }

  lemma {:induction false} FixedPart(I: Interp, sig: Signals, vars: Vars, p: Plane, e: Expr)
    requires (e.ArrayRef? || e.ArraySlice? || e.RecordRef?) && Reads(e) == []
    ensures Eval(I, sig, vars, p, e) == Read(I, Code(e))
    ensures Eval(Terms([], []), BLANK, NO_VARS, p, e) == Code(e) && !Code(e).Part?
    decreases e, 1
  {
    if FixedName(e) { FixedNameReads(e); }
    FixedValue(I, sig, vars, p, e.value);
    match e
    case ArrayRef(v, ps) =>
      FixedValues(I, sig, vars, ps);
      ReadPair(I, IndexOp, Code(v), EvalAll(Terms([], []), BLANK, NO_VARS, ps));
    case ArraySlice(v, r) =>
      FixedRange(I, sig, vars, r);
      ReadPair(I, SliceOp(Descending(r)), Code(v), EvalRange(Terms([], []), BLANK, NO_VARS, r));
    case RecordRef(v, _) => ReadSingle(I, Code(v));
  }

  lemma {:induction false} FixedHistory(I: Interp, sig: Signals, vars: Vars, p: Plane, e: Expr)
    requires e.AttrRef? && Reads(e) == [] && !e.attr.Scalar? && !e.attr.Bound? && !e.attr.Extent? && !e.attr.Label?
    ensures Eval(I, sig, vars, p, e) == Read(I, Code(e))
    ensures Eval(Terms([], []), BLANK, NO_VARS, p, e) == Code(e) && !Code(e).Part?
    decreases e, 0
  {
    FixedValue(I, sig, vars, History(e.attr), e.name);
    ReadSingle(I, Code(e.name));
  }

  lemma {:induction false} FixedBound(I: Interp, sig: Signals, vars: Vars, p: Plane, e: Expr)
    requires e.AttrRef? && (e.attr.Bound? || e.attr.Extent?) && Reads(e) == []
    ensures Eval(I, sig, vars, p, e) == Read(I, Code(e))
    ensures Eval(Terms([], []), BLANK, NO_VARS, p, e) == Code(e) && !Code(e).Part?
    decreases e, 0
  {
    var T := Terms([], []);
    FixedShape(I, sig, vars, e.name);
    FixedValues(I, sig, vars, e.params);
    ReadPair(I, BoundOp(e.attr), Shape(T, BLANK, NO_VARS, e.name), EvalAll(T, BLANK, NO_VARS, e.params));
  }

  lemma {:induction false} FixedShape(I: Interp, sig: Signals, vars: Vars, e: Expr)
    requires ReadsShape(e) == []
    ensures Shape(I, sig, vars, e) == Read(I, Shape(Terms([], []), BLANK, NO_VARS, e))
    decreases e, 3
  {
    if e.ArrayRef? || e.ArraySlice? || e.RecordRef? {
      FixedShape(I, sig, vars, e.value);
      ReadSingle(I, Shape(Terms([], []), BLANK, NO_VARS, e.value));
      if e.ArraySlice? {
        FixedRange(I, sig, vars, e.range);
        var T := Terms([], []);
        ReadPair(I, BoundsOp(Descending(e.range)), Shape(T, BLANK, NO_VARS, e.value),
            EvalRange(T, BLANK, NO_VARS, e.range));
      }
    } else if !e.Ref? && !e.ExternalName? {
      FixedValue(I, sig, vars, Value, e);
      ReadSingle(I, Code(e));
    }
  }

  lemma {:induction false} FixedValues(I: Interp, sig: Signals, vars: Vars, es: seq<Expr>)
    requires ReadsAll(es) == []
    ensures EvalAll(I, sig, vars, es) == ReadAll(I, EvalAll(Terms([], []), BLANK, NO_VARS, es))
    decreases es, 0
  {
    if es != [] {
      FixedValue(I, sig, vars, Value, es[0]);
      FixedValues(I, sig, vars, es[1..]);
      ReadCons(I, Code(es[0]), EvalAll(Terms([], []), BLANK, NO_VARS, es[1..]));
    }
  }

  lemma {:induction false} FixedRange(I: Interp, sig: Signals, vars: Vars, r: Range)
    requires ReadsRange(r) == []
    ensures EvalRange(I, sig, vars, r) == ReadAll(I, EvalRange(Terms([], []), BLANK, NO_VARS, r))
    decreases r, 0
  {
    match r
    case Bounds(l, h, _) =>
      FixedValue(I, sig, vars, Value, l);
      FixedValue(I, sig, vars, Value, h);
      ReadOne(I, Code(h));
      ReadCons(I, Code(l), [Code(h)]);
    case RangeExpr(v) => FixedValue(I, sig, vars, Value, v); ReadOne(I, Code(v));
  }

  lemma {:induction false} FixedAssocs(I: Interp, sig: Signals, vars: Vars, assocs: seq<Assoc>)
    requires ReadsAssocs(assocs) == []
    ensures EvalAssocs(I, sig, vars, assocs) == ReadRows(I, Wrap(EvalAssocs(Terms([], []), BLANK, NO_VARS, assocs)))
    decreases assocs, 0
  {
    if assocs != [] {
      FixedAssoc(I, sig, vars, assocs[0]);
      FixedAssocs(I, sig, vars, assocs[1..]);
      var rows := EvalAssocs(Terms([], []), BLANK, NO_VARS, assocs);
      assert Wrap(rows)[1..] == Wrap(rows[1..]);
    }
  }

  lemma {:induction false} FixedAssoc(I: Interp, sig: Signals, vars: Vars, a: Assoc)
    requires ReadsAssoc(a) == []
    ensures EvalAssoc(I, sig, vars, a) == ReadAll(I, EvalAssoc(Terms([], []), BLANK, NO_VARS, a))
    decreases a, 0
  {
    FixedValue(I, sig, vars, Value, a.value);
    match a
    case Named(v, name) =>
      FixedValue(I, sig, vars, Value, name);
      ReadOne(I, Code(name));
      ReadCons(I, Code(v), [Code(name)]);
    case Ranged(v, r) =>
      FixedRange(I, sig, vars, r);
      ReadCons(I, Code(v), EvalRange(Terms([], []), BLANK, NO_VARS, r));
    case Pos(v) => ReadOne(I, Code(v));
    case Others(v) => ReadOne(I, Code(v));
  }
}
