// The condition of soundness is also necessary for a choice between two different
// assignments, by an if or a case statement.
module SensitivityChoice {
  import opened Options
  import opened Sensitivity
  import opened ProcessSemantics
  import opened SensitivityTerms
  import opened SensitivityProof
  import opened SensitivityNeeded

  // ------------------------------------------------------------ other decisions

  // The same values, but conditions and choices are decided by a given test.
  function Deciding(I: Interp, test: Val -> bool): Interp {
    I.(truth := test, chosen := (v: Val, cs: seq<Expr>) => test(v))
  }

  // Decisions play no part in the values of expressions.
  lemma {:induction false} SameEval(I: Interp, f: Val -> bool, sig: Signals, vars: Vars, p: Plane, e: Expr)
    ensures Eval(Deciding(I, f), sig, vars, p, e) == Eval(I, sig, vars, p, e)
    decreases e, 2
  {
    match e
    case ArrayRef(v, ps) => SameEval(I, f, sig, vars, p, v); SameEvals(I, f, sig, vars, ps);
    case ArraySlice(v, r) => SameEval(I, f, sig, vars, p, v); SameBounds(I, f, sig, vars, r);
    case RecordRef(v, _) => SameEval(I, f, sig, vars, p, v);
    case FCall(_, _, ps) => SameEvals(I, f, sig, vars, ps);
    case Aggregate(assocs) => SameRows(I, f, sig, vars, assocs);
    case AttrRef(a, name, ps) =>
      SameEvals(I, f, sig, vars, ps);
      SameShapes(I, f, sig, vars, name);
      SameEval(I, f, sig, vars, History(a), name);
    case Convert(_, v) => SameEval(I, f, sig, vars, Value, v);
    case _ =>
  }

  lemma {:induction false} SameShapes(I: Interp, f: Val -> bool, sig: Signals, vars: Vars, e: Expr)
    ensures Shape(Deciding(I, f), sig, vars, e) == Shape(I, sig, vars, e)
    decreases e, 3
  {
    match e
    case Ref(_) =>
    case ExternalName(_) =>
    case ArrayRef(v, _) => SameShapes(I, f, sig, vars, v);
    case ArraySlice(v, r) => SameShapes(I, f, sig, vars, v); SameBounds(I, f, sig, vars, r);
    case RecordRef(v, _) => SameShapes(I, f, sig, vars, v);
    case _ => SameEval(I, f, sig, vars, Value, e);
  }

  lemma {:induction false} SameEvals(I: Interp, f: Val -> bool, sig: Signals, vars: Vars, es: seq<Expr>)
    ensures EvalAll(Deciding(I, f), sig, vars, es) == EvalAll(I, sig, vars, es)
    decreases es, 0
  {
    if es != [] { SameEval(I, f, sig, vars, Value, es[0]); SameEvals(I, f, sig, vars, es[1..]); }
  }

  lemma {:induction false} SameBounds(I: Interp, f: Val -> bool, sig: Signals, vars: Vars, r: Range)
    ensures EvalRange(Deciding(I, f), sig, vars, r) == EvalRange(I, sig, vars, r)
    decreases r, 0
  {
    match r
    case Bounds(l, h, _) => SameEval(I, f, sig, vars, Value, l); SameEval(I, f, sig, vars, Value, h);
    case RangeExpr(v) => SameEval(I, f, sig, vars, Value, v);
  }

  lemma {:induction false} SameRows(I: Interp, f: Val -> bool, sig: Signals, vars: Vars, assocs: seq<Assoc>)
    ensures EvalAssocs(Deciding(I, f), sig, vars, assocs) == EvalAssocs(I, sig, vars, assocs)
    decreases assocs, 0
  {
    if assocs != [] { SameRow(I, f, sig, vars, assocs[0]); SameRows(I, f, sig, vars, assocs[1..]); }
  }

  lemma {:induction false} SameRow(I: Interp, f: Val -> bool, sig: Signals, vars: Vars, a: Assoc)
    ensures EvalAssoc(Deciding(I, f), sig, vars, a) == EvalAssoc(I, sig, vars, a)
    decreases a, 0
  {
    SameEval(I, f, sig, vars, Value, a.value);
    match a
    case Named(_, name) => SameEval(I, f, sig, vars, Value, name);
    case Ranged(_, r) => SameBounds(I, f, sig, vars, r);
    case _ =>
  }

  lemma {:induction false} SameTarget(I: Interp, f: Val -> bool, sig: Signals, vars: Vars, t: Expr)
    ensures Path(Deciding(I, f), sig, vars, t) == Path(I, sig, vars, t)
  {
    match t
    case ArrayRef(v, ps) => SameTarget(I, f, sig, vars, v); SameEvals(I, f, sig, vars, ps);
    case ArraySlice(v, r) => SameTarget(I, f, sig, vars, v); SameBounds(I, f, sig, vars, r);
    case RecordRef(v, _) => SameTarget(I, f, sig, vars, v);
    case _ =>
  }

  lemma {:induction false} SameWaveforms(I: Interp, f: Val -> bool, sig: Signals, vars: Vars, ws: seq<Waveform>)
    ensures WaveValues(Deciding(I, f), sig, vars, ws) == WaveValues(I, sig, vars, ws)
    ensures WaveDelays(Deciding(I, f), sig, vars, ws) == WaveDelays(I, sig, vars, ws)
  {
    if ws != [] {
      SameEval(I, f, sig, vars, Value, ws[0].value);
      if ws[0].delay.Some? { SameEval(I, f, sig, vars, Value, ws[0].delay.value); }
      SameWaveforms(I, f, sig, vars, ws[1..]);
    }
  }

  // Nor in what an assignment does.
  lemma SameAssignment(I: Interp, f: Val -> bool, sig: Signals, vars: Vars, s: Stmt, fuel: nat)
    requires IsAssignment(s)
    ensures ExecOne(Deciding(I, f), sig, fuel, vars, s) == ExecOne(I, sig, 0, vars, s)
  {
    SameTarget(I, f, sig, vars, s.target);
    if s.SignalAssign? {
      SameWaveforms(I, f, sig, vars, s.waves);
    } else {
      SameEval(I, f, sig, vars, Value, s.value);
    }
  }

  lemma StillAgree(I: Interp, f: Val -> bool, s1: Signals, s2: Signals, vars: Vars, names: seq<Expr>)
    requires Agree(I, s1, s2, vars, names)
    ensures Agree(Deciding(I, f), s1, s2, vars, names)
  {
    forall n, p | n in names ensures Eval(Deciding(I, f), s1, vars, p, n) == Eval(Deciding(I, f), s2, vars, p, n) {
      SameEval(I, f, s1, vars, p, n);
      SameEval(I, f, s2, vars, p, n);
    }
  }

  // ------------------------------------------------------------ a choice

  // if e then a else b; or case e with the given choices for a, others for b.
  function Choice(choices: Option<seq<Expr>>, e: Expr, a: Stmt, b: Stmt): Stmt {
    if choices.None? then If([Cond(Some(e), [a]), Cond(None, [b])])
    else Case(e, [Alt(choices, [a]), Alt(None, [b])])
  }

  lemma OneOf(I: Interp, sig: Signals, vars: Vars, s: Stmt, fuel: nat)
    requires IsAssignment(s) && fuel > 0
    ensures Exec(I, sig, fuel, vars, [s]) == ExecOne(I, sig, fuel - 1, vars, s)
  {
    var o := ExecOne(I, sig, fuel - 1, vars, s);
    assert [s][1..] == [] && o.effects + [] == o.effects;
  }

  lemma ChoiceRun(I: Interp, f: Val -> bool, sig: Signals, vars: Vars, choices: Option<seq<Expr>>, e: Expr, a: Stmt,
      b: Stmt)
    requires IsAssignment(a) && IsAssignment(b)
    ensures Exec(Deciding(I, f), sig, 4, vars, [Choice(choices, e, a, b)]) ==
            ExecOne(I, sig, 0, vars, if f(Eval(I, sig, vars, Value, e)) then a else b)
  {
    var D, s := Deciding(I, f), Choice(choices, e, a, b);
    SameEval(I, f, sig, vars, Value, e);
    SameAssignment(I, f, sig, vars, a, 1);
    SameAssignment(I, f, sig, vars, b, 0);
    OneOf(D, sig, vars, a, 2);
    OneOf(D, sig, vars, b, 1);
    var o := ExecOne(D, sig, 3, vars, s);
    if choices.None? {
      Conditions(D, sig, vars, s.conds);
    } else {
      Alternatives(D, sig, vars, Eval(D, sig, vars, Value, e), s.alts);
    }
    assert [s][1..] == [] && o.Done? && o.flow.Normal? && o.effects + [] == o.effects;
  }

  lemma Conditions(I: Interp, sig: Signals, vars: Vars, cs: seq<Cond>)
    requires |cs| == 2 && cs[1].test.None?
    ensures ExecConds(I, sig, 3, vars, cs) ==
            if Holds(I, sig, vars, cs[0].test) then Exec(I, sig, 2, vars, cs[0].body)
            else Exec(I, sig, 1, vars, cs[1].body)
  {
    assert cs[1..] == [cs[1]];
  }

  lemma Alternatives(I: Interp, sig: Signals, vars: Vars, v: Val, alts: seq<Alt>)
    requires |alts| == 2 && alts[0].choices.Some? && alts[1].choices.None?
    ensures ExecAlts(I, sig, 3, vars, v, alts) ==
            if I.chosen(v, alts[0].choices.value) then Exec(I, sig, 2, vars, alts[0].body)
            else Exec(I, sig, 1, vars, alts[1].body)
  {
    assert alts[1..] == [alts[1]];
  }

  lemma ChoiceReads(choices: Option<seq<Expr>>, e: Expr, a: Stmt, b: Stmt, n: Expr)
    ensures n in ReadsStmts([Choice(choices, e, a, b)]) <==> n in Reads(e) || n in ReadsStmt(a) || n in ReadsStmt(b)
  {
    var s := Choice(choices, e, a, b);
    assert [s][1..] == [] && [a][1..] == [] && [b][1..] == [];
    assert ReadsStmts([s]) == ReadsStmt(s) && ReadsStmts([a]) == ReadsStmt(a) && ReadsStmts([b]) == ReadsStmt(b);
    if choices.None? {
      assert s.conds[1..] == [s.conds[1]] && s.conds[1..][1..] == [];
      assert ReadsCond(s.conds[0]) == Reads(e) + ReadsStmt(a) && ReadsCond(s.conds[1]) == [] + ReadsStmt(b);
      assert ReadsConds(s.conds[1..]) == ReadsCond(s.conds[1]) + [];
      assert ReadsConds(s.conds) == ReadsCond(s.conds[0]) + ReadsConds(s.conds[1..]);
    } else {
      assert s.alts[1..] == [s.alts[1]] && s.alts[1..][1..] == [];
      assert ReadsAlt(s.alts[0]) == ReadsStmt(a) && ReadsAlt(s.alts[1]) == ReadsStmt(b);
      assert ReadsAlts(s.alts[1..]) == ReadsAlt(s.alts[1]) + [];
      assert ReadsAlts(s.alts) == ReadsAlt(s.alts[0]) + ReadsAlts(s.alts[1..]);
    }
  }

  // ------------------------------------------------------------ the condition is exact

  ghost predicate Differs(goal: seq<Step>, avoid: seq<Step>, s1: Signals, s2: Signals, a: Stmt, b: Stmt) {
    ExecOne(Terms(goal, avoid), s1, 0, Vars(map[], 1), a) != ExecOne(Terms(goal, avoid), s2, 0, Vars(map[], 1), b)
  }

  // The two assignments do different things in all states.
  ghost predicate Different(a: Stmt, b: Stmt) {
    forall goal: seq<Step>, avoid: seq<Step>, s1: Signals, s2: Signals :: Differs(goal, avoid, s1, s2, a, b)
  }

  lemma TargetsDiffer(a: Stmt, b: Stmt)
    requires a.SignalAssign? && b.SignalAssign? && NameToRef(a.target) != NameToRef(b.target)
    ensures Different(a, b)
  {
    forall goal: seq<Step>, avoid: seq<Step>, s1: Signals, s2: Signals ensures Differs(goal, avoid, s1, s2, a, b) {
      var o1 := ExecOne(Terms(goal, avoid), s1, 0, Vars(map[], 1), a);
      var o2 := ExecOne(Terms(goal, avoid), s2, 0, Vars(map[], 1), b);
      assert o1.effects[0].target != o2.effects[0].target;
    }
  }

  lemma LiteralsDiffer(a: Stmt, b: Stmt)
    requires a.SignalAssign? && b.SignalAssign? && a.waves != [] && b.waves != []
    requires a.waves[0].value.Literal? && b.waves[0].value.Literal? && a.waves[0].value != b.waves[0].value
    ensures Different(a, b)
  {
    forall goal: seq<Step>, avoid: seq<Step>, s1: Signals, s2: Signals ensures Differs(goal, avoid, s1, s2, a, b) {
      var o1 := ExecOne(Terms(goal, avoid), s1, 0, Vars(map[], 1), a);
      var o2 := ExecOne(Terms(goal, avoid), s2, 0, Vars(map[], 1), b);
      assert o1.effects[0].waves[0] != o2.effects[0].waves[0];
    }
  }

  // A test under which the two marked states lead to different outcomes.
  lemma ChoiceDiffers(t: Test, choices: Option<seq<Expr>>, e: Expr, a: Stmt, b: Stmt) returns (f: Val -> bool)
    requires TestOk(t) && IsAssignment(a) && IsAssignment(b) && Different(a, b)
    requires t.part in Reads(e) || t.part in ReadsStmt(a) || t.part in ReadsStmt(b)
    ensures var I, vars := Deciding(Terms(Goal(t), t.avoid), f), Vars(map[], 1);
            var s := Choice(choices, e, a, b);
            Exec(I, Marked(Root(t.part), 1), 4, vars, [s]) != Exec(I, Marked(Root(t.part), 2), 4, vars, [s])
  {
    var I, vars := Terms(Goal(t), t.avoid), Vars(map[], 1);
    var s1, s2 := Marked(Root(t.part), 1), Marked(Root(t.part), 2);
    if t.part in Reads(e) {
      Differ(t, Value, e);
      var v := Eval(I, s1, vars, Value, e);
      f := x => x == v;
      assert Differs(Goal(t), t.avoid, s1, s2, a, b);
    } else {
      var first := t.part in ReadsStmt(a);
      f := x => first;
      DifferRun(t, if first then a else b);
      OneStatement(I, s1, vars, if first then a else b);
      OneStatement(I, s2, vars, if first then a else b);
    }
    ChoiceRun(I, f, s1, vars, choices, e, a, b);
    ChoiceRun(I, f, s2, vars, choices, e, a, b);
  }

  // For a choice between different assignments whose reported names are fixed: its
  // behaviour depends on the reported names only if and only if all that condition
  // and branches read lies inside them.
  lemma ExactForChoices(choices: Option<seq<Expr>>, e: Expr, a: Stmt, b: Stmt)
    requires IsAssignment(a) && IsAssignment(b) && Different(a, b)
    requires forall r :: r in WaitStmts([Choice(choices, e, a, b)]) ==> FixedName(r)
    ensures var body := [Choice(choices, e, a, b)]; Insensitive(body) <==> Covered(WaitStmts(body), ReadsStmts(body))
  {
    var body := [Choice(choices, e, a, b)];
    var names := WaitStmts(body);
    if Covered(names, ReadsStmts(body)) {
      SensitivityIsSound(body);
    } else {
      var n :| n in ReadsStmts(body) && !CoveredName(names, n);
      ChoiceReads(choices, e, a, b, n);
      if n in Reads(e) { ReadsAreNames(e, n); } else { StmtReadsNames(if n in ReadsStmt(a) then a else b, n); }
      var t := Test(n, Inside(names, n));
      InsideGround(names, n);
      Unseen(names, t);
      var f := ChoiceDiffers(t, choices, e, a, b);
      var I, vars := Terms(Goal(t), t.avoid), Vars(map[], 1);
      StillAgree(I, f, Marked(Root(n), 1), Marked(Root(n), 2), vars, names);
      assert !SameRun(Deciding(I, f), Marked(Root(n), 1), Marked(Root(n), 2), vars, 4, body);
    }
  }
}
