// For assignments the condition of soundness is necessary: an unreported part that
// is read changes what is assigned.
module SensitivityNeeded {
  import opened Options
  import opened Sensitivity
  import opened ProcessSemantics
  import opened SensitivityTerms
  import opened SensitivityProof
  import opened SensitivityExact

  // ------------------------------------------------------------ two states

  // The part that is read: its signal is marked, and the mark is kept along the way
  // to the part and beyond, except into the parts that are reported.
  datatype Test = Test(part: Expr, avoid: seq<Step>)

  predicate GroundStep(step: Step) { step.Field? || AllGround(step.at) }

  ghost predicate TestOk(t: Test) {
    FixedName(t.part) && forall step :: step in t.avoid ==> GroundStep(step)
  }

  function Goal(t: Test): seq<Step> { CodePath(t.part) }

  function Marked(id: SignalId, mark: nat): Signals {
    (p: Plane, other: SignalId) => if other == id then Part([], mark) else Term(SignalOp(other), [])
  }

  function In(t: Test, mark: nat): Env
    requires FixedName(t.part)
  {
    Env(Goal(t), t.avoid, Marked(Root(t.part), mark), Vars(map[], 1))
  }

  predicate RootedAt(e: Expr, id: SignalId) {
    match e
    case Ref(d) => d.SignalDecl? && id == Declared(d.id)
    case ExternalName(n) => id == External(n)
    case ArrayRef(v, _) => RootedAt(v, id)
    case ArraySlice(v, _) => RootedAt(v, id)
    case RecordRef(v, _) => RootedAt(v, id)
    case _ => false
  }

  lemma {:induction false} FixedRooted(e: Expr, id: SignalId)
    requires FixedName(e)
    ensures RootedAt(e, id) <==> Root(e) == id
  {
    if e.ArrayRef? || e.ArraySlice? || e.RecordRef? { FixedRooted(e.value, id); }
  }

  lemma {:induction false} PartIff(t: Test, mark: nat, p: Plane, e: Expr)
    requires TestOk(t)
    ensures E(In(t, mark), p, e).Part? <==> RootedAt(e, Root(t.part))
  {
    if e.ArrayRef? || e.ArraySlice? || e.RecordRef? { PartIff(t, mark, p, e.value); }
  }

  lemma KeepsPrefix(goal: seq<Step>, avoid: seq<Step>, path: seq<Step>, step: Step)
    requires Keeps(goal, avoid, path + [step])
    ensures Keeps(goal, avoid, path)
  {
    var longer := path + [step];
    assert path == longer[..|path|];
    if !(longer <= goal) && |path| > |goal| { assert path[|goal|] == longer[|goal|]; }
  }

  // A fixed part of the marked signal has its mark exactly when it is kept.
  lemma {:induction false} MarkOf(t: Test, mark: nat, p: Plane, e: Expr)
    requires TestOk(t) && FixedName(e) && Root(e) == Root(t.part)
    ensures E(In(t, mark), p, e) == Part(CodePath(e), if Keeps(Goal(t), t.avoid, CodePath(e)) then mark else 0)
  {
    if e.ArrayRef? || e.ArraySlice? || e.RecordRef? {
      MarkOf(t, mark, p, e.value);
      match e {
        case ArrayRef(_, ps) => CodesAnywhere(In(t, mark), ps);
        case ArraySlice(_, r) => CodesOfRange(In(t, mark), r);
        case RecordRef(_, _) =>
      }
      var path := CodePath(e);
      assert path == CodePath(e.value) + [path[|path| - 1]];
      if Keeps(Goal(t), t.avoid, path) { KeepsPrefix(Goal(t), t.avoid, CodePath(e.value), path[|path| - 1]); }
    }
  }

  // ------------------------------------------------------------ differences are kept

  predicate Beyond(t: Test, path: seq<Step>) { Goal(t) < path && path[|Goal(t)|] !in t.avoid }

  // The two values differ, and where only the mark does, it is kept from here on.
  predicate Told(t: Test, e: Expr, v: Val, w: Val) {
    v != w && (v.Part? && w.Part? && v.path == w.path ==> e == t.part || Beyond(t, v.path))
  }

  lemma {:induction false} Differ(t: Test, p: Plane, e: Expr)
    requires TestOk(t) && t.part in Reads(e)
    ensures Told(t, e, E(In(t, 1), p, e), E(In(t, 2), p, e))
    decreases e, 3
  {
    if FixedName(e) {
      FixedNameReads(e);
      MarkOf(t, 1, p, e);
      MarkOf(t, 2, p, e);
    } else {
      match e
      case ArrayRef(_, _) => DifferPart(t, p, e);
      case ArraySlice(_, _) => DifferPart(t, p, e);
      case RecordRef(_, _) => DifferPart(t, p, e);
      case FCall(_, _, ps) => DifferAll(t, ps);
      case Aggregate(assocs) => DifferAssocs(t, assocs);
      case AttrRef(_, _, _) => DifferAttr(t, p, e);
      case Convert(_, v) => Differ(t, Value, v);
      case _ =>
    }
  }

  // One step down from values that differ.
  lemma StepDown(t: Test, e: Expr, below: Expr, v: Val, w: Val, step: Step, step': Step)
    requires v.Part? && w.Part?
    requires step != step' || (Told(t, e, v, w) && (e == t.part ==> v.path == Goal(t) && step !in t.avoid))
    ensures Told(t, below, Move(Goal(t), t.avoid, v, step), Move(Goal(t), t.avoid, w, step'))
  {
    var a, b := Move(Goal(t), t.avoid, v, step), Move(Goal(t), t.avoid, w, step');
    assert a.path[|a.path| - 1] == step && b.path[|b.path| - 1] == step';
    assert a.path[..|a.path| - 1] == v.path && b.path[..|b.path| - 1] == w.path;
  }

  lemma NotAvoided(t: Test, mark: nat, at: seq<Val>, d: bool)
    requires TestOk(t) && !AllGround(at)
    ensures Index(at) !in t.avoid && SliceOf(at, d) !in t.avoid
  {
    assert !GroundStep(Index(at)) && !GroundStep(SliceOf(at, d));
  }

  lemma PartIsGoal(t: Test, p: Plane)
    requires TestOk(t)
    ensures E(In(t, 1), p, t.part) == Part(Goal(t), 1) && E(In(t, 2), p, t.part) == Part(Goal(t), 2)
  {
    MarkOf(t, 1, p, t.part);
    MarkOf(t, 2, p, t.part);
  }

  lemma {:induction false} DifferPart(t: Test, p: Plane, e: Expr)
    requires TestOk(t) && t.part in Reads(e) && !FixedName(e) && (e.ArrayRef? || e.ArraySlice? || e.RecordRef?)
    ensures Told(t, e, E(In(t, 1), p, e), E(In(t, 2), p, e))
    decreases e, 2
  {
    match e
    case ArrayRef(v, ps) => DifferIndex(t, p, e);
    case ArraySlice(v, r) => DifferSlice(t, p, e);
    case RecordRef(v, f) =>
      Differ(t, p, v);
      PartIff(t, 1, p, v);
      PartIff(t, 2, p, v);
      var a, b := E(In(t, 1), p, v), E(In(t, 2), p, v);
      if a.Part? { StepDown(t, v, e, a, b, Field(f), Field(f)); }
  }

  lemma {:induction false} DifferIndex(t: Test, p: Plane, e: Expr)
    requires TestOk(t) && t.part in Reads(e) && !FixedName(e) && e.ArrayRef?
    ensures Told(t, e, E(In(t, 1), p, e), E(In(t, 2), p, e))
    decreases e, 1
  {
    var ArrayRef(v, ps) := e;
    var a, b := E(In(t, 1), p, v), E(In(t, 2), p, v);
    var at, at' := EAll(In(t, 1), ps), EAll(In(t, 2), ps);
    PartIff(t, 1, p, v);
    PartIff(t, 2, p, v);
    if t.part in ReadsAll(ps) {
      DifferAll(t, ps);
    } else {
      Differ(t, p, v);
    }
    if a.Part? {
      if v == t.part && at == at' {
        PartIsGoal(t, p);
        GroundAll(In(t, 1), ps);
        NotAvoided(t, 1, at, false);
      }
      StepDown(t, v, e, a, b, Index(at), Index(at'));
    } else {
      assert ([a] + at)[0] == a && ([a] + at)[1..] == at && ([b] + at')[0] == b && ([b] + at')[1..] == at';
    }
  }

  lemma {:induction false} DifferSlice(t: Test, p: Plane, e: Expr)
    requires TestOk(t) && t.part in Reads(e) && !FixedName(e) && e.ArraySlice?
    ensures Told(t, e, E(In(t, 1), p, e), E(In(t, 2), p, e))
    decreases e, 1
  {
    var ArraySlice(v, r) := e;
    var a, b := E(In(t, 1), p, v), E(In(t, 2), p, v);
    var at, at' := ERange(In(t, 1), r), ERange(In(t, 2), r);
    PartIff(t, 1, p, v);
    PartIff(t, 2, p, v);
    if t.part in ReadsRange(r) {
      DifferRange(t, r);
    } else {
      Differ(t, p, v);
    }
    if a.Part? {
      if v == t.part && at == at' {
        PartIsGoal(t, p);
        GroundRange(In(t, 1), r);
        NotAvoided(t, 1, at, Descending(r));
      }
      StepDown(t, v, e, a, b, SliceOf(at, Descending(r)), SliceOf(at', Descending(r)));
    } else {
      assert ([a] + at)[0] == a && ([a] + at)[1..] == at && ([b] + at')[0] == b && ([b] + at')[1..] == at';
    }
  }

  lemma {:induction false} DifferAttr(t: Test, p: Plane, e: Expr)
    requires TestOk(t) && t.part in Reads(e) && e.AttrRef?
    ensures E(In(t, 1), p, e) != E(In(t, 2), p, e) && !E(In(t, 1), p, e).Part?
    decreases e, 2
  {
    if e.attr.Scalar? {
      DifferAll(t, e.params);
    } else if e.attr.Bound? || e.attr.Extent? {
      var a, b := EShape(In(t, 1), e.name), EShape(In(t, 2), e.name);
      var at, at' := EAll(In(t, 1), e.params), EAll(In(t, 2), e.params);
      if t.part in ReadsShape(e.name) { DifferShape(t, e.name); } else { DifferAll(t, e.params); }
      assert ([a] + at)[0] == a && ([a] + at)[1..] == at && ([b] + at')[0] == b && ([b] + at')[1..] == at';
    } else if !e.attr.Label? {
      Differ(t, History(e.attr), e.name);
    }
  }

  lemma {:induction false} DifferShape(t: Test, e: Expr)
    requires TestOk(t) && t.part in ReadsShape(e)
    ensures EShape(In(t, 1), e) != EShape(In(t, 2), e)
    decreases e, 4
  {
    if e.ArrayRef? || e.RecordRef? {
      DifferShape(t, e.value);
    } else if e.ArraySlice? {
      var a, b := EShape(In(t, 1), e.value), EShape(In(t, 2), e.value);
      var at, at' := ERange(In(t, 1), e.range), ERange(In(t, 2), e.range);
      if t.part in ReadsShape(e.value) { DifferShape(t, e.value); } else { DifferRange(t, e.range); }
      assert ([a] + at)[0] == a && ([a] + at)[1..] == at && ([b] + at')[0] == b && ([b] + at')[1..] == at';
    } else if !e.Ref? && !e.ExternalName? {
      Differ(t, Value, e);
    }
  }

  lemma {:induction false} DifferAll(t: Test, es: seq<Expr>)
    requires TestOk(t) && t.part in ReadsAll(es)
    ensures EAll(In(t, 1), es) != EAll(In(t, 2), es)
    decreases es, 0
  {
    if t.part in Reads(es[0]) {
      Differ(t, Value, es[0]);
      assert EAll(In(t, 1), es)[0] != EAll(In(t, 2), es)[0];
    } else {
      DifferAll(t, es[1..]);
      assert EAll(In(t, 1), es)[1..] != EAll(In(t, 2), es)[1..];
    }
  }

  lemma {:induction false} DifferRange(t: Test, r: Range)
    requires TestOk(t) && t.part in ReadsRange(r)
    ensures ERange(In(t, 1), r) != ERange(In(t, 2), r)
    decreases r, 0
  {
    var a, b := ERange(In(t, 1), r), ERange(In(t, 2), r);
    match r
    case Bounds(l, h, _) =>
      if t.part in Reads(l) { Differ(t, Value, l); assert a[0] != b[0]; }
          else { Differ(t, Value, h); assert a[1] != b[1]; }
    case RangeExpr(v) => Differ(t, Value, v); assert a[0] != b[0];
  }

  lemma {:induction false} DifferAssocs(t: Test, assocs: seq<Assoc>)
    requires TestOk(t) && t.part in ReadsAssocs(assocs)
    ensures Wrap(EAssocs(In(t, 1), assocs)) != Wrap(EAssocs(In(t, 2), assocs))
    decreases assocs, 0
  {
    var a, b := EAssocs(In(t, 1), assocs), EAssocs(In(t, 2), assocs);
    assert a[1..] == EAssocs(In(t, 1), assocs[1..]) && b[1..] == EAssocs(In(t, 2), assocs[1..]);
    if t.part in ReadsAssoc(assocs[0]) {
      DifferAssoc(t, assocs[0]);
      assert Wrap(a)[0] != Wrap(b)[0];
    } else {
      DifferAssocs(t, assocs[1..]);
      assert Wrap(a)[1..] != Wrap(b)[1..];
    }
  }

  lemma {:induction false} DifferAssoc(t: Test, x: Assoc)
    requires TestOk(t) && t.part in ReadsAssoc(x)
    ensures EAssoc(In(t, 1), x) != EAssoc(In(t, 2), x)
    decreases x, 0
  {
    var a, b := EAssoc(In(t, 1), x), EAssoc(In(t, 2), x);
    if t.part in Reads(x.value) {
      Differ(t, Value, x.value);
      assert a[0] != b[0];
    } else {
      match x
      case Named(_, name) => Differ(t, Value, name); assert a[1] != b[1];
      case Ranged(_, r) =>
        DifferRange(t, r);
        assert a[1..] == ERange(In(t, 1), r) && b[1..] == ERange(In(t, 2), r);
    }
  }

  // ------------------------------------------------------------ assignments

  function EPath(c: Env, target: Expr): seq<Step> { Path(Terms(c.goal, c.avoid), c.sig, c.vars, target) }
  function EWaves(c: Env, ws: seq<Waveform>): seq<Val> { WaveValues(Terms(c.goal, c.avoid), c.sig, c.vars, ws) }
  function EDelays(c: Env, ws: seq<Waveform>): seq<Option<Val>> {
    WaveDelays(Terms(c.goal, c.avoid), c.sig, c.vars, ws)
  }

  lemma Last(a: seq<Step>, b: seq<Step>, x: Step, y: Step)
    ensures a + [x] == b + [y] <==> a == b && x == y
  {
    assert (a + [x])[..|a|] == a && (b + [y])[..|b|] == b;
    assert (a + [x])[|a|] == x && (b + [y])[|b|] == y;
    assert |a + [x]| == |a| + 1 && |b + [y]| == |b| + 1;
  }

  lemma {:induction false} DifferPath(t: Test, e: Expr)
    requires TestOk(t) && t.part in ReadsPath(e)
    ensures EPath(In(t, 1), e) != EPath(In(t, 2), e)
  {
    var a, b := EPath(In(t, 1), e), EPath(In(t, 2), e);
    if t.part in ReadsPath(e.value) {
      DifferPath(t, e.value);
    } else if e.ArrayRef? {
      DifferAll(t, e.params);
    } else if e.ArraySlice? {
      DifferRange(t, e.range);
    }
    Last(EPath(In(t, 1), e.value), EPath(In(t, 2), e.value), a[|a| - 1], b[|b| - 1]);
  }

  lemma {:induction false} DifferWaves(t: Test, ws: seq<Waveform>)
    requires TestOk(t) && t.part in ReadsWaves(ws)
    ensures EWaves(In(t, 1), ws) != EWaves(In(t, 2), ws) || EDelays(In(t, 1), ws) != EDelays(In(t, 2), ws)
  {
    if t.part in Reads(ws[0].value) {
      Differ(t, Value, ws[0].value);
      assert EWaves(In(t, 1), ws)[0] != EWaves(In(t, 2), ws)[0];
    } else if t.part in ReadsOption(ws[0].delay) {
      Differ(t, Value, ws[0].delay.value);
      assert EDelays(In(t, 1), ws)[0] != EDelays(In(t, 2), ws)[0];
    } else {
      DifferWaves(t, ws[1..]);
      assert EWaves(In(t, 1), ws)[1..] == EWaves(In(t, 1), ws[1..])
          && EWaves(In(t, 2), ws)[1..] == EWaves(In(t, 2), ws[1..]);
      assert EDelays(In(t, 1), ws)[1..] == EDelays(In(t, 1), ws[1..])
          && EDelays(In(t, 2), ws)[1..] == EDelays(In(t, 2), ws[1..]);
    }
  }

  // A signal assignment, or a variable assignment to a variable.
  predicate IsAssignment(s: Stmt) {
    s.SignalAssign? || (s.VarAssign? && NameToRef(s.target).Some? && NameToRef(s.target).value.VarDecl?)
  }

  lemma DifferRun(t: Test, s: Stmt)
    requires TestOk(t) && IsAssignment(s) && t.part in ReadsStmt(s)
    ensures var I := Terms(Goal(t), t.avoid); var id, vars := Root(t.part), Vars(map[], 1);
            Exec(I, Marked(id, 1), 1, vars, [s]) != Exec(I, Marked(id, 2), 1, vars, [s])
  {
    var I := Terms(Goal(t), t.avoid);
    var id, vars := Root(t.part), Vars(map[], 1);
    var o1, o2 := ExecOne(I, Marked(id, 1), 0, vars, s), ExecOne(I, Marked(id, 2), 0, vars, s);
    if t.part in ReadsPath(s.target) { DifferPath(t, s.target); }
    if s.SignalAssign? {
      if t.part in ReadsWaves(s.waves) { DifferWaves(t, s.waves); }
      assert o1.effects[0] != o2.effects[0];
    } else {
      if t.part in Reads(s.value) { Differ(t, Value, s.value); }
      var n := NameToRef(s.target).value.id;
      SameLength(t, s.target);
      assert o1.vars.known[n] != o2.vars.known[n];
    }
    assert o1 != o2;
    OneStatement(I, Marked(id, 1), vars, s);
    OneStatement(I, Marked(id, 2), vars, s);
  }

  lemma {:induction false} SameLength(t: Test, e: Expr)
    requires TestOk(t)
    ensures |EPath(In(t, 1), e)| == |EPath(In(t, 2), e)|
  {
    if e.ArrayRef? || e.ArraySlice? || e.RecordRef? { SameLength(t, e.value); }
  }

  lemma OneStatement(I: Interp, sig: Signals, vars: Vars, s: Stmt)
    requires IsAssignment(s)
    ensures Exec(I, sig, 1, vars, [s]) == ExecOne(I, sig, 0, vars, s)
  {
    var o := ExecOne(I, sig, 0, vars, s);
    assert [s][1..] == [] && o.effects + [] == o.effects;
  }

  // ------------------------------------------------------------ agreeing on the reported names

  // Where reported parts lie inside the part, the first step into them.
  function Inside(names: seq<Expr>, part: Expr): seq<Step>
    requires FixedName(part)
  {
    if names == [] then [] else
    var r, rest := names[0], Inside(names[1..], part);
    if FixedName(r) && Root(r) == Root(part) && CodePath(part) < CodePath(r)
    then [CodePath(r)[|CodePath(part)|]] + rest else rest
  }

  lemma {:induction false} PathGround(e: Expr, k: nat)
    requires FixedName(e) && k < |CodePath(e)|
    ensures GroundStep(CodePath(e)[k])
  {
    var c := Env([], [], BLANK, NO_VARS);
    match e
    case ArrayRef(v, ps) => CodesAnywhere(c, ps); if k < |CodePath(v)| { PathGround(v, k); }
    case ArraySlice(v, r) => CodesOfRange(c, r); if k < |CodePath(v)| { PathGround(v, k); }
    case RecordRef(v, _) => if k < |CodePath(v)| { PathGround(v, k); }
  }

  lemma {:induction false} InsideGround(names: seq<Expr>, part: Expr)
    requires FixedName(part)
    ensures forall step :: step in Inside(names, part) ==> GroundStep(step)
    ensures forall r :: r in names && FixedName(r) && Root(r) == Root(part) && CodePath(part) < CodePath(r) ==>
              CodePath(r)[|CodePath(part)|] in Inside(names, part)
  {
    if names != [] {
      InsideGround(names[1..], part);
      var r := names[0];
      if FixedName(r) && CodePath(part) < CodePath(r) { PathGround(r, |CodePath(part)|); }
    }
  }

  lemma Unseen(names: seq<Expr>, t: Test)
    requires TestOk(t) && t.avoid == Inside(names, t.part)
    requires forall r :: r in names ==> FixedName(r) && !Covers(r, t.part)
    ensures Agree(Terms(Goal(t), t.avoid), Marked(Root(t.part), 1), Marked(Root(t.part), 2), Vars(map[], 1), names)
  {
    var I, id, vars := Terms(Goal(t), t.avoid), Root(t.part), Vars(map[], 1);
    InsideGround(names, t.part);
    forall r, p | r in names ensures Eval(I, Marked(id, 1), vars, p, r) == Eval(I, Marked(id, 2), vars, p, r) {
      if Root(r) == id {
        MarkOf(t, 1, p, r);
        MarkOf(t, 2, p, r);
      } else {
        NameWalk(I, Marked(id, 1), vars, p, r);
        NameWalk(I, Marked(id, 2), vars, p, r);
      }
    }
  }

  // ------------------------------------------------------------ the condition is exact

  // What is read is a variable or a fixed part of a signal.
  lemma {:induction false} ReadsAreNames(e: Expr, n: Expr)
    requires n in Reads(e)
    ensures IsVariable(n) || FixedName(n)
    decreases e, 1
  {
    if !FixedName(e) {
      match e
      case ArrayRef(v, ps) => if n in Reads(v) { ReadsAreNames(v, n); } else { AllAreNames(ps, n); }
      case ArraySlice(v, r) => if n in Reads(v) { ReadsAreNames(v, n); } else { RangeIsNames(r, n); }
      case RecordRef(v, _) => ReadsAreNames(v, n);
      case FCall(_, _, ps) => AllAreNames(ps, n);
      case Aggregate(assocs) => AssocsAreNames(assocs, n);
      case AttrRef(a, name, ps) =>
        if a.Scalar? { AllAreNames(ps, n); }
        else if a.Bound? || a.Extent? {
          if n in ReadsAll(ps) { AllAreNames(ps, n); } else { ShapeIsNames(name, n); }
        } else { ReadsAreNames(name, n); }
      case Convert(_, v) => ReadsAreNames(v, n);
      case _ =>
    } else {
      FixedNameReads(e);
    }
  }

  lemma {:induction false} ShapeIsNames(e: Expr, n: Expr)
    requires n in ReadsShape(e)
    ensures IsVariable(n) || FixedName(n)
    decreases e, 2
  {
    if e.ArraySlice? && n in ReadsRange(e.range) {
      RangeIsNames(e.range, n);
    } else if e.ArrayRef? || e.RecordRef? || e.ArraySlice? {
      ShapeIsNames(e.value, n);
    } else {
      ReadsAreNames(e, n);
    }
  }

  lemma {:induction false} AllAreNames(es: seq<Expr>, n: Expr)
    requires n in ReadsAll(es)
    ensures IsVariable(n) || FixedName(n)
    decreases es, 0
  {
    if n in Reads(es[0]) { ReadsAreNames(es[0], n); } else { AllAreNames(es[1..], n); }
  }

  lemma {:induction false} RangeIsNames(r: Range, n: Expr)
    requires n in ReadsRange(r)
    ensures IsVariable(n) || FixedName(n)
    decreases r, 0
  {
    match r
    case Bounds(l, h, _) => if n in Reads(l) { ReadsAreNames(l, n); } else { ReadsAreNames(h, n); }
    case RangeExpr(v) => ReadsAreNames(v, n);
  }

  lemma {:induction false} AssocsAreNames(assocs: seq<Assoc>, n: Expr)
    requires n in ReadsAssocs(assocs)
    ensures IsVariable(n) || FixedName(n)
    decreases assocs, 0
  {
    if n in ReadsAssoc(assocs[0]) { AssocIsNames(assocs[0], n); } else { AssocsAreNames(assocs[1..], n); }
  }

  lemma {:induction false} AssocIsNames(a: Assoc, n: Expr)
    requires n in ReadsAssoc(a)
    ensures IsVariable(n) || FixedName(n)
    decreases a, 0
  {
    if n in Reads(a.value) {
      ReadsAreNames(a.value, n);
    } else {
      match a
      case Named(_, name) => ReadsAreNames(name, n);
      case Ranged(_, r) => RangeIsNames(r, n);
    }
  }

  lemma {:induction false} PathIsNames(e: Expr, n: Expr)
    requires n in ReadsPath(e)
    ensures IsVariable(n) || FixedName(n)
  {
    if n in ReadsPath(e.value) {
      PathIsNames(e.value, n);
    } else if e.ArrayRef? {
      AllAreNames(e.params, n);
    } else {
      RangeIsNames(e.range, n);
    }
  }

  lemma {:induction false} WavesAreNames(ws: seq<Waveform>, n: Expr)
    requires n in ReadsWaves(ws)
    ensures IsVariable(n) || FixedName(n)
  {
    if n in Reads(ws[0].value) {
      ReadsAreNames(ws[0].value, n);
    } else if n in ReadsOption(ws[0].delay) {
      ReadsAreNames(ws[0].delay.value, n);
    } else {
      WavesAreNames(ws[1..], n);
    }
  }

  lemma StmtReadsNames(s: Stmt, n: Expr)
    requires IsAssignment(s) && n in ReadsStmt(s)
    ensures IsVariable(n) || FixedName(n)
  {
    if n in ReadsPath(s.target) {
      PathIsNames(s.target, n);
    } else if s.SignalAssign? {
      WavesAreNames(s.waves, n);
    } else {
      ReadsAreNames(s.value, n);
    }
  }

  // For any assignment whose reported names are fixed: its behaviour depends on the
  // reported names only if and only if all that it reads lies inside them.
  lemma ExactForAssignments(s: Stmt)
    requires IsAssignment(s) && forall r :: r in WaitStmts([s]) ==> FixedName(r)
    ensures Insensitive([s]) <==> Covered(WaitStmts([s]), ReadsStmts([s]))
  {
    var names := WaitStmts([s]);
    assert [s][1..] == [] && ReadsStmts([s]) == ReadsStmt(s) + [];
    if Covered(names, ReadsStmts([s])) {
      SensitivityIsSound([s]);
    } else {
      var n :| n in ReadsStmts([s]) && !CoveredName(names, n);
      StmtReadsNames(s, n);
      var t := Test(n, Inside(names, n));
      InsideGround(names, n);
      Unseen(names, t);
      DifferRun(t, s);
      assert !SameRun(Terms(Goal(t), t.avoid), Marked(Root(n), 1), Marked(Root(n), 2), Vars(map[], 1), 1, [s]);
    }
  }
}
