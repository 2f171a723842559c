// Bodies on either side of the condition.
module SensitivityExamples {
  import opened Options
  import opened Sensitivity
  import opened ProcessSemantics
  import opened SensitivityTerms
  import opened SensitivityProof
  import opened SensitivityNeeded
  import opened SensitivityChoice

  lemma OneReads(s: Stmt)
    ensures ReadsStmts([s]) == ReadsStmt(s) && WaitStmts([s]) == WaitStmt(s)
  {
    assert [s][1..] == [];
  }

  lemma OneExpr(e: Expr)
    ensures ReadsAll([e]) == Reads(e) && WaitAll([e]) == BuildWait(e)
  {
    assert [e][1..] == [];
  }

  lemma OneWave(w: Waveform)
    ensures ReadsWaves([w]) == Reads(w.value) + ReadsOption(w.delay) && WaitWaves([w]) == BuildWait(w.value)
  {
    assert [w][1..] == [];
  }

  // a(i).f <= literal: the index is below the outermost selection of the target.
  lemma NestedTargetIsMissed(a: nat, i: nat, f: nat, v: Lit)
    ensures !Insensitive([SignalAssign(RecordRef(ArrayRef(Ref(SignalDecl(a)), [Ref(SignalDecl(i))]), f),
                                       [Waveform(Literal(v), None)])])
  {
    var index, w := Ref(SignalDecl(i)), Waveform(Literal(v), None);
    var s := SignalAssign(RecordRef(ArrayRef(Ref(SignalDecl(a)), [index]), f), [w]);
    OneReads(s);
    OneExpr(index);
    OneWave(w);
    assert index in ReadsPath(s.target);
    assert !CoveredName([], index);
    ExactForAssignments(s);
  }

  // x <= g(y)'length: the prefix of an array attribute is not visited.
  lemma CallLengthIsMissed(x: nat, g: nat, y: nat)
    ensures !Insensitive([SignalAssign(Ref(SignalDecl(x)),
                                       [Waveform(AttrRef(Bound(0), FCall(g, false, [Ref(SignalDecl(y))]), []), None)])])
  {
    var arg := Ref(SignalDecl(y));
    var w := Waveform(AttrRef(Bound(0), FCall(g, false, [arg]), []), None);
    var s := SignalAssign(Ref(SignalDecl(x)), [w]);
    OneReads(s);
    OneExpr(arg);
    OneWave(w);
    assert Reads(arg) == [arg] && Reads(w.value.name) == ReadsAll([arg]) && ReadsShape(w.value.name) == [arg];
    assert ReadsAll([]) == [] && Reads(w.value) == [arg] + ReadsAll([]);
    assert arg in ReadsStmt(s);
    assert !CoveredName([], arg);
    ExactForAssignments(s);
  }

  // x <= y after 1 ns * z: delays are not visited.
  lemma DelayIsMissed(x: nat, z: nat, v: Lit)
    ensures !Insensitive([SignalAssign(Ref(SignalDecl(x)), [Waveform(Literal(v), Some(Ref(SignalDecl(z))))])])
  {
    var delay := Ref(SignalDecl(z));
    var w := Waveform(Literal(v), Some(delay));
    var s := SignalAssign(Ref(SignalDecl(x)), [w]);
    OneReads(s);
    OneWave(w);
    assert delay in ReadsStmt(s);
    assert !CoveredName([], delay);
    ExactForAssignments(s);
  }

  // x <= y'last_value: the prefix of a history attribute is not visited.
  lemma HistoryIsMissed(x: nat, y: nat)
    ensures !Insensitive([SignalAssign(Ref(SignalDecl(x)),
            [Waveform(AttrRef(LastValue, Ref(SignalDecl(y)), []), None)])])
  {
    var prefix := Ref(SignalDecl(y));
    var w := Waveform(AttrRef(LastValue, prefix, []), None);
    var s := SignalAssign(Ref(SignalDecl(x)), [w]);
    OneReads(s);
    OneWave(w);
    assert BuildWait(w.value) == [] + WaitAll([]) && Reads(w.value) == [prefix];
    assert prefix in ReadsStmt(s);
    assert !CoveredName([], prefix);
    ExactForAssignments(s);
  }

  function Drive(x: nat, v: Lit): Stmt { SignalAssign(Ref(SignalDecl(x)), [Waveform(Literal(v), None)]) }

  // if y'last_value then x <= u; else x <= v; end if;
  lemma HistoryConditionIsMissed(x: nat, y: nat, u: Lit, v: Lit)
    requires u != v
    ensures !Insensitive([Choice(None, AttrRef(LastValue, Ref(SignalDecl(y)), []), Drive(x, u), Drive(x, v))])
  {
    var prefix := Ref(SignalDecl(y));
    var e := AttrRef(LastValue, prefix, []);
    var s := Choice(None, e, Drive(x, u), Drive(x, v));
    OneReads(s);
    OneReads(Drive(x, u));
    OneReads(Drive(x, v));
    OneWave(Waveform(Literal(u), None));
    OneWave(Waveform(Literal(v), None));
    assert BuildWait(e) == [] + WaitAll([]) && Reads(e) == [prefix];
    assert s.conds[1..] == [s.conds[1]] && s.conds[1..][1..] == [];
    assert WaitCond(s.conds[0]) == [] && WaitCond(s.conds[1]) == [] && WaitConds(s.conds[1..]) == [];
    assert WaitStmts([s]) == [];
    ChoiceReads(None, e, Drive(x, u), Drive(x, v), prefix);
    assert !CoveredName([], prefix);
    LiteralsDiffer(Drive(x, u), Drive(x, v));
    ExactForChoices(None, e, Drive(x, u), Drive(x, v));
  }

  // a(y(0)).f <= y: the index is inside a reported name.
  lemma ReportedAroundIsEnough(a: nat, y: nat, f: nat, v: Lit)
    ensures Insensitive([SignalAssign(
                           RecordRef(ArrayRef(Ref(SignalDecl(a)), [ArrayRef(Ref(SignalDecl(y)), [Literal(v)])]), f),
                           [Waveform(Ref(SignalDecl(y)), None)])])
  {
    var whole := Ref(SignalDecl(y));
    var part, w := ArrayRef(whole, [Literal(v)]), Waveform(whole, None);
    var s := SignalAssign(RecordRef(ArrayRef(Ref(SignalDecl(a)), [part]), f), [w]);
    OneReads(s);
    OneExpr(part);
    OneExpr(Literal(v));
    OneWave(w);
    assert FixedName(whole) && Reads(Literal(v)) == [] && ReadsAll([Literal(v)]) == [];
    assert FixedName(part) && CodePath(whole) == [];
    assert Covers(whole, part) && Covers(whole, whole);
    FixedNameReads(part);
    assert ReadsPath(s.target.value) == [] + [part];
    assert forall n :: n in ReadsStmt(s) ==> n == part || n == whole;
    assert whole in WaitStmt(s);
    SensitivityIsSound([s]);
  }

  function Slice(s: nat, low: Lit, n: nat): Expr {
    ArraySlice(Ref(SignalDecl(s)), Bounds(Literal(low), Ref(VarDecl(n)), false))
  }

  function Element(a: nat, slice: Expr): Expr { ArrayRef(Ref(SignalDecl(a)), [AttrRef(Bound(0), slice, [])]) }

  // The length of the slice as a term, and the element it selects.
  function LengthTerm(vars: Vars, s: nat, low: Lit, n: nat): Val {
    Term(BoundOp(Bound(0)), [Term(BoundsOp(false),
        [Term(RootOp(Ref(SignalDecl(s))), []), Const(low), Lookup(vars, n)])])
  }

  lemma ElementValue(goal: seq<Step>, mark: nat, vars: Vars, p: Plane, a: nat, s: nat, low: Lit, n: nat)
    ensures var path := [Index([LengthTerm(vars, s, low, n)])];
            Eval(Terms(goal, []), Marked(Declared(a), mark), vars, p, Element(a, Slice(s, low, n))) ==
            Part(path, if Keeps(goal, [], path) then mark else 0)
  {
    var I, sig, slice := Terms(goal, []), Marked(Declared(a), mark), Slice(s, low, n);
    var length := AttrRef(Bound(0), slice, []);
    assert EvalRange(I, sig, vars, slice.range) == [Const(low), Lookup(vars, n)];
    assert Shape(I, sig, vars, slice) ==
           Term(BoundsOp(false), [Term(RootOp(Ref(SignalDecl(s))), [])] + [Const(low), Lookup(vars, n)]);
    assert [Term(RootOp(Ref(SignalDecl(s))), [])] + [Const(low), Lookup(vars, n)] ==
           [Term(RootOp(Ref(SignalDecl(s))), []), Const(low), Lookup(vars, n)];
    assert Eval(I, sig, vars, Value, length) == Term(BoundOp(Bound(0)), [Shape(I, sig, vars, slice)] + []);
    assert Eval(I, sig, vars, Value, length) == LengthTerm(vars, s, low, n);
    assert [length][1..] == [] && EvalAll(I, sig, vars, [length]) == [LengthTerm(vars, s, low, n)];
    assert [] + [Index([LengthTerm(vars, s, low, n)])] == [Index([LengthTerm(vars, s, low, n)])];
  }

  function Moving(n: nat, x: nat, v: Lit, elem: Expr): seq<Stmt> {
    [VarAssign(Ref(VarDecl(n)), Literal(v)), SignalAssign(Ref(SignalDecl(x)), [Waveform(elem, None)])]
  }

  lemma MovingRun(I: Interp, sig: Signals, vars: Vars, n: nat, x: nat, v: Lit, elem: Expr)
    ensures Exec(I, sig, 2, vars, Moving(n, x, v, elem)) ==
            Done(Store(vars, n, Const(v)),
                 [Schedule(Some(SignalDecl(x)), [], [Eval(I, sig, Store(vars, n, Const(v)), Value, elem)], [None])],
                     Normal)
  {
    var body, wave := Moving(n, x, v, elem), Waveform(elem, None);
    assert body[1..] == [body[1]] && [wave][1..] == [];
    OneStatement(I, sig, Store(vars, n, Const(v)), body[1]);
    var first, second := ExecOne(I, sig, 1, vars, body[0]), ExecOne(I, sig, 0, Store(vars, n, Const(v)), body[1]);
    assert first == Done(Store(vars, n, Const(v)), [], Normal);
    assert WaveValues(I, sig, first.vars, []) == [] && WaveDelays(I, sig, first.vars, []) == [];
    assert WaveValues(I, sig, first.vars, [wave]) == [Eval(I, sig, first.vars, Value, elem)];
    assert WaveDelays(I, sig, first.vars, [wave]) == [None];
    assert NameToRef(Ref(SignalDecl(x))) == Some(SignalDecl(x)) && Path(I, sig, first.vars, Ref(SignalDecl(x))) == [];
    assert Exec(I, sig, 2, vars, body) == Then(first, Exec(I, sig, 1, first.vars, body[1..]));
    var plan := Schedule(Some(SignalDecl(x)), [], [Eval(I, sig, first.vars, Value, elem)], [None]);
    assert second == Done(first.vars, [plan], Normal);
    assert Exec(I, sig, 1, first.vars, body[1..]) == second;
    assert [] + [plan] == [plan];
  }

  lemma MovingReported(n: nat, x: nat, a: nat, s: nat, low: Lit, v: Lit)
    ensures var elem := Element(a, Slice(s, low, n)); Reported(elem) && WaitStmts(Moving(n, x, v, elem)) == [elem]
  {
    var slice := Slice(s, low, n);
    var elem, length := Element(a, slice), AttrRef(Bound(0), slice, []);
    var body := Moving(n, x, v, elem);
    assert NameToRef(slice) == Some(SignalDecl(s)) && IsStatic(length) && [length][1..] == [] && AllStatic([length]);
    assert NameToRef(elem) == Some(SignalDecl(a)) && Reported(elem);
    OneWave(Waveform(elem, None));
    OneReads(body[1]);
    assert body[1..] == [body[1]];
  }

  // n := v; x <= a(s(0 to n)'length): the index is called static, so the element is
  // reported, but it moves when the variable is assigned.
  lemma MovingIndexIsMissed(n: nat, x: nat, a: nat, s: nat, low: Lit, v: Lit)
    ensures var elem := Element(a, Slice(s, low, n)); Reported(elem) && !Insensitive(Moving(n, x, v, elem))
  {
    var elem := Element(a, Slice(s, low, n));
    var body := Moving(n, x, v, elem);
    MovingReported(n, x, a, s, low, v);
    var before := Vars(map[], 1);
    var after := Store(before, n, Const(v));
    var was, now := LengthTerm(before, s, low, n), LengthTerm(after, s, low, n);
    assert was.args[0].args[2] != now.args[0].args[2];
    var goal := [Index([now])];
    var I, s1, s2 := Terms(goal, []), Marked(Declared(a), 1), Marked(Declared(a), 2);
    assert !Keeps(goal, [], [Index([was])]) by { assert [Index([was])][0] != goal[0]; }
    forall p: Plane ensures Eval(I, s1, before, p, elem) == Eval(I, s2, before, p, elem) {
      ElementValue(goal, 1, before, p, a, s, low, n);
      ElementValue(goal, 2, before, p, a, s, low, n);
    }
    ElementValue(goal, 1, after, Value, a, s, low, n);
    ElementValue(goal, 2, after, Value, a, s, low, n);
    MovingRun(I, s1, before, n, x, v, elem);
    MovingRun(I, s2, before, n, x, v, elem);
    assert Agree(I, s1, s2, before, WaitStmts(body));
    assert !SameRun(I, s1, s2, before, 2, body);
  }
}
