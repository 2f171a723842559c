// A process body depends only on the names reported by build_wait, if every part
// of a signal that it reads lies inside a reported part.
module SensitivityProof {
  import opened Options
  import opened Sensitivity
  import opened ProcessSemantics
  import opened SensitivityTerms

  // ------------------------------------------------------------ fixed names

  function Root(e: Expr): SignalId
    requires FixedName(e)
  {
    match e
    case Ref(d) => Declared(d.id)
    case ExternalName(id) => External(id)
    case ArrayRef(v, _) => Root(v)
    case ArraySlice(v, _) => Root(v)
    case RecordRef(v, _) => Root(v)
  }

  function Go(I: Interp, v: Val, step: Step): Val {
    if step.Index? then I.index(v, ReadAll(I, step.at))
    else if step.SliceOf? then I.slice(v, ReadAll(I, step.at), step.downto)
    else I.select(v, step.field)
  }

  // Going down from a value along symbolic steps.
  function Walk(I: Interp, v: Val, path: seq<Step>): Val {
    if path == [] then v else Go(I, Walk(I, v, path[..|path| - 1]), path[|path| - 1])
  }

  lemma WalkSnoc(I: Interp, v: Val, path: seq<Step>, step: Step)
    ensures Walk(I, v, path + [step]) == Go(I, Walk(I, v, path), step)
  {
    assert (path + [step])[..|path|] == path;
  }

  // A fixed name denotes the same part of its signal whatever the state is.
  lemma {:induction false} NameWalk(I: Interp, sig: Signals, vars: Vars, p: Plane, e: Expr)
    requires FixedName(e)
    ensures Eval(I, sig, vars, p, e) == Walk(I, sig(p, Root(e)), CodePath(e))
  {
    match e
    case ArrayRef(v, ps) =>
      NameWalk(I, sig, vars, p, v);
      FixedValues(I, sig, vars, ps);
      WalkSnoc(I, sig(p, Root(e)), CodePath(v), Index(EvalAll(Terms([], []), BLANK, NO_VARS, ps)));
    case ArraySlice(v, r) =>
      NameWalk(I, sig, vars, p, v);
      FixedRange(I, sig, vars, r);
      WalkSnoc(I, sig(p, Root(e)), CodePath(v), SliceOf(EvalRange(Terms([], []), BLANK, NO_VARS, r), Descending(r)));
    case RecordRef(v, f) =>
      NameWalk(I, sig, vars, p, v);
      WalkSnoc(I, sig(p, Root(e)), CodePath(v), Field(f));
    case _ =>
  }

  // Equal parts have equal parts below them.
  lemma {:induction false} WalkOn(I: Interp, v: Val, w: Val, path: seq<Step>, n: nat)
    requires n <= |path| && Walk(I, v, path[..n]) == Walk(I, w, path[..n])
    ensures Walk(I, v, path) == Walk(I, w, path)
    decreases |path|
  {
    if n < |path| {
      assert path[..|path| - 1][..n] == path[..n];
      WalkOn(I, v, w, path[..|path| - 1], n);
    } else {
      assert path[..n] == path;
    }
  }

  // ------------------------------------------------------------ coverage

  // r denotes the part of a signal that n denotes, or a part around it.
  predicate Covers(r: Expr, n: Expr) {
    FixedName(r) && FixedName(n) && Root(r) == Root(n) && CodePath(r) <= CodePath(n)
  }

  ghost predicate CoveredName(names: seq<Expr>, n: Expr) {
    IsVariable(n) || exists r :: r in names && Covers(r, n)
  }

  // Every part of a signal that is read lies inside a reported part.
  ghost predicate Covered(names: seq<Expr>, used: seq<Expr>) {
    forall n :: n in used ==> CoveredName(names, n)
  }

  lemma SplitCovered(names: seq<Expr>, a: seq<Expr>, b: seq<Expr>)
    ensures Covered(names, a + b) <==> Covered(names, a) && Covered(names, b)
  {
    assert forall n :: n in a ==> n in a + b;
    assert forall n :: n in b ==> n in a + b;
  }

  // Two signal states give every listed name the same value and history.
  ghost predicate Agree(I: Interp, s1: Signals, s2: Signals, vars: Vars, names: seq<Expr>) {
    forall n, p :: n in names ==> Eval(I, s1, vars, p, n) == Eval(I, s2, vars, p, n)
  }

  // The same for the parts of signals, whatever the variables hold.
  ghost predicate AgreeParts(I: Interp, s1: Signals, s2: Signals, names: seq<Expr>) {
    forall n, p :: n in names && FixedName(n) ==>
        Walk(I, s1(p, Root(n)), CodePath(n)) == Walk(I, s2(p, Root(n)), CodePath(n))
  }

  lemma AgreeAnywhere(I: Interp, s1: Signals, s2: Signals, vars: Vars, names: seq<Expr>)
    requires Agree(I, s1, s2, vars, names)
    ensures AgreeParts(I, s1, s2, names)
  {
    forall n, p | n in names && FixedName(n)
      ensures Walk(I, s1(p, Root(n)), CodePath(n)) == Walk(I, s2(p, Root(n)), CodePath(n))
    {
      NameWalk(I, s1, vars, p, n);
      NameWalk(I, s2, vars, p, n);
    }
  }

  // ------------------------------------------------------------ expressions

  lemma SameName(I: Interp, s1: Signals, s2: Signals, vars: Vars, names: seq<Expr>, p: Plane, e: Expr)
    requires AgreeParts(I, s1, s2, names) && FixedName(e) && CoveredName(names, e)
    ensures Eval(I, s1, vars, p, e) == Eval(I, s2, vars, p, e)
  {
    NameWalk(I, s1, vars, p, e);
    NameWalk(I, s2, vars, p, e);
    var r :| r in names && Covers(r, e);
    var path, n := CodePath(e), |CodePath(r)|;
    assert path[..n] == CodePath(r);
    WalkOn(I, s1(p, Root(e)), s2(p, Root(e)), path, n);
  }

  lemma {:induction false} SameValue(I: Interp, s1: Signals, s2: Signals, vars: Vars, names: seq<Expr>, p: Plane,
      e: Expr)
    requires AgreeParts(I, s1, s2, names) && Covered(names, Reads(e))
    ensures Eval(I, s1, vars, p, e) == Eval(I, s2, vars, p, e)
    decreases e, 2
  {
    if FixedName(e) {
      FixedNameReads(e);
      assert e in Reads(e);
      SameName(I, s1, s2, vars, names, p, e);
    } else {
      match e
      case ArrayRef(v, ps) =>
        SplitCovered(names, Reads(v), ReadsAll(ps));
        SameValue(I, s1, s2, vars, names, p, v);
        SameValues(I, s1, s2, vars, names, ps);
      case ArraySlice(v, r) =>
        SplitCovered(names, Reads(v), ReadsRange(r));
        SameValue(I, s1, s2, vars, names, p, v);
        SameRange(I, s1, s2, vars, names, r);
      case RecordRef(v, _) => SameValue(I, s1, s2, vars, names, p, v);
      case FCall(_, flagged, ps) => if !flagged { SameValues(I, s1, s2, vars, names, ps); }
      case Aggregate(assocs) => SameAssocs(I, s1, s2, vars, names, assocs);
      case AttrRef(_, _, _) => SameAttr(I, s1, s2, vars, names, p, e);
      case Convert(_, v) => SameValue(I, s1, s2, vars, names, Value, v);
      case _ =>
    }
  }

  lemma {:induction false} SameAttr(I: Interp, s1: Signals, s2: Signals, vars: Vars, names: seq<Expr>, p: Plane,
      e: Expr)
    requires e.AttrRef? && AgreeParts(I, s1, s2, names) && Covered(names, Reads(e))
    ensures Eval(I, s1, vars, p, e) == Eval(I, s2, vars, p, e)
    decreases e, 1
  {
    var AttrRef(a, name, ps) := e;
    if a.Scalar? {
      SameValues(I, s1, s2, vars, names, ps);
    } else if a.Bound? || a.Extent? {
      SplitCovered(names, ReadsShape(name), ReadsAll(ps));
      SameShape(I, s1, s2, vars, names, name);
      SameValues(I, s1, s2, vars, names, ps);
    } else if !a.Label? {
      SameValue(I, s1, s2, vars, names, History(a), name);
    }
  }

  lemma {:induction false} SameShape(I: Interp, s1: Signals, s2: Signals, vars: Vars, names: seq<Expr>, e: Expr)
    requires AgreeParts(I, s1, s2, names) && Covered(names, ReadsShape(e))
    ensures Shape(I, s1, vars, e) == Shape(I, s2, vars, e)
    decreases e, 3
  {
    match e
    case Ref(_) =>
    case ExternalName(_) =>
    case ArrayRef(v, _) => SameShape(I, s1, s2, vars, names, v);
    case ArraySlice(v, r) =>
      SplitCovered(names, ReadsShape(v), ReadsRange(r));
      SameShape(I, s1, s2, vars, names, v);
      SameRange(I, s1, s2, vars, names, r);
    case RecordRef(v, _) => SameShape(I, s1, s2, vars, names, v);
    case _ => SameValue(I, s1, s2, vars, names, Value, e);
  }

  lemma {:induction false} SameValues(I: Interp, s1: Signals, s2: Signals, vars: Vars, names: seq<Expr>, es: seq<Expr>)
    requires AgreeParts(I, s1, s2, names) && Covered(names, ReadsAll(es))
    ensures EvalAll(I, s1, vars, es) == EvalAll(I, s2, vars, es)
    decreases es, 0
  {
    if es != [] {
      SplitCovered(names, Reads(es[0]), ReadsAll(es[1..]));
      SameValue(I, s1, s2, vars, names, Value, es[0]);
      SameValues(I, s1, s2, vars, names, es[1..]);
    }
  }

  lemma {:induction false} SameRange(I: Interp, s1: Signals, s2: Signals, vars: Vars, names: seq<Expr>, r: Range)
    requires AgreeParts(I, s1, s2, names) && Covered(names, ReadsRange(r))
    ensures EvalRange(I, s1, vars, r) == EvalRange(I, s2, vars, r)
    decreases r, 0
  {
    match r
    case Bounds(l, h, _) =>
      SplitCovered(names, Reads(l), Reads(h));
      SameValue(I, s1, s2, vars, names, Value, l);
      SameValue(I, s1, s2, vars, names, Value, h);
    case RangeExpr(v) => SameValue(I, s1, s2, vars, names, Value, v);
  }

  lemma {:induction false} SameAssocs(I: Interp, s1: Signals, s2: Signals, vars: Vars, names: seq<Expr>,
      assocs: seq<Assoc>)
    requires AgreeParts(I, s1, s2, names) && Covered(names, ReadsAssocs(assocs))
    ensures EvalAssocs(I, s1, vars, assocs) == EvalAssocs(I, s2, vars, assocs)
    decreases assocs, 0
  {
    if assocs != [] {
      SplitCovered(names, ReadsAssoc(assocs[0]), ReadsAssocs(assocs[1..]));
      SameAssoc(I, s1, s2, vars, names, assocs[0]);
      SameAssocs(I, s1, s2, vars, names, assocs[1..]);
    }
  }

  lemma {:induction false} SameAssoc(I: Interp, s1: Signals, s2: Signals, vars: Vars, names: seq<Expr>, a: Assoc)
    requires AgreeParts(I, s1, s2, names) && Covered(names, ReadsAssoc(a))
    ensures EvalAssoc(I, s1, vars, a) == EvalAssoc(I, s2, vars, a)
    decreases a, 0
  {
    match a
    case Named(v, name) =>
      SplitCovered(names, Reads(v), Reads(name));
      SameValue(I, s1, s2, vars, names, Value, v);
      SameValue(I, s1, s2, vars, names, Value, name);
    case Ranged(v, r) =>
      SplitCovered(names, Reads(v), ReadsRange(r));
      SameValue(I, s1, s2, vars, names, Value, v);
      SameRange(I, s1, s2, vars, names, r);
    case Pos(v) => SameValue(I, s1, s2, vars, names, Value, v);
    case Others(v) => SameValue(I, s1, s2, vars, names, Value, v);
  }

  // ------------------------------------------------------------ statements

  // Where an assignment goes depends on every index and range of its target.
  function ReadsPath(t: Expr): seq<Expr> {
    match t
    case ArrayRef(v, ps) => ReadsPath(v) + ReadsAll(ps)
    case ArraySlice(v, r) => ReadsPath(v) + ReadsRange(r)
    case RecordRef(v, _) => ReadsPath(v)
    case _ => []
  }

  function ReadsOption(e: Option<Expr>): seq<Expr> { if e.None? then [] else Reads(e.value) }

  function ReadsWaves(waves: seq<Waveform>): seq<Expr> {
    if waves == [] then [] else Reads(waves[0].value) + ReadsOption(waves[0].delay) + ReadsWaves(waves[1..])
  }

  function ReadsStmt(s: Stmt): seq<Expr>
    decreases s, 1
  {
    match s
    case VarAssign(t, v) => ReadsPath(t) + Reads(v)
    case SignalAssign(t, waves) => ReadsPath(t) + ReadsWaves(waves)
    case If(conds) => ReadsConds(conds)
    case Case(v, alts) => Reads(v) + ReadsAlts(alts)
    case For(r, _, body) => ReadsRange(r) + ReadsStmts(body)
    case While(c, body) => ReadsOption(c) + ReadsStmts(body)
    case Next(c) => ReadsOption(c)
    case Exit(c) => ReadsOption(c)
    case Assert(c, m) => Reads(c) + ReadsOption(m)
  }

  function ReadsStmts(ss: seq<Stmt>): seq<Expr>
    decreases ss, 0
  {
    if ss == [] then [] else ReadsStmt(ss[0]) + ReadsStmts(ss[1..])
  }

  function ReadsConds(cs: seq<Cond>): seq<Expr>
    decreases cs, 0
  {
    if cs == [] then [] else ReadsCond(cs[0]) + ReadsConds(cs[1..])
  }

  function ReadsCond(c: Cond): seq<Expr>
    decreases c, 0
  {
    ReadsOption(c.test) + ReadsStmts(c.body)
  }

  function ReadsAlts(alts: seq<Alt>): seq<Expr>
    decreases alts, 0
  {
    if alts == [] then [] else ReadsAlt(alts[0]) + ReadsAlts(alts[1..])
  }

  function ReadsAlt(a: Alt): seq<Expr>
    decreases a, 0
  {
    ReadsStmts(a.body)
  }

  lemma {:induction false} SamePath(I: Interp, s1: Signals, s2: Signals, vars: Vars, names: seq<Expr>, t: Expr)
    requires AgreeParts(I, s1, s2, names) && Covered(names, ReadsPath(t))
    ensures Path(I, s1, vars, t) == Path(I, s2, vars, t)
  {
    match t
    case ArrayRef(v, ps) =>
      SplitCovered(names, ReadsPath(v), ReadsAll(ps));
      SamePath(I, s1, s2, vars, names, v);
      SameValues(I, s1, s2, vars, names, ps);
    case ArraySlice(v, r) =>
      SplitCovered(names, ReadsPath(v), ReadsRange(r));
      SamePath(I, s1, s2, vars, names, v);
      SameRange(I, s1, s2, vars, names, r);
    case RecordRef(v, _) => SamePath(I, s1, s2, vars, names, v);
    case _ =>
  }

  lemma SameOption(I: Interp, s1: Signals, s2: Signals, vars: Vars, names: seq<Expr>, e: Option<Expr>)
    requires AgreeParts(I, s1, s2, names) && Covered(names, ReadsOption(e))
    ensures EvalOption(I, s1, vars, e) == EvalOption(I, s2, vars, e) && Holds(I, s1, vars, e) == Holds(I, s2, vars, e)
  {
    if e.Some? { SameValue(I, s1, s2, vars, names, Value, e.value); }
  }

  lemma {:induction false} SameWaves(I: Interp, s1: Signals, s2: Signals, vars: Vars, names: seq<Expr>,
      waves: seq<Waveform>)
    requires AgreeParts(I, s1, s2, names) && Covered(names, ReadsWaves(waves))
    ensures WaveValues(I, s1, vars, waves) == WaveValues(I, s2, vars, waves)
    ensures WaveDelays(I, s1, vars, waves) == WaveDelays(I, s2, vars, waves)
  {
    if waves != [] {
      var w := waves[0];
      SplitCovered(names, Reads(w.value) + ReadsOption(w.delay), ReadsWaves(waves[1..]));
      SplitCovered(names, Reads(w.value), ReadsOption(w.delay));
      SameValue(I, s1, s2, vars, names, Value, w.value);
      SameOption(I, s1, s2, vars, names, w.delay);
      SameWaves(I, s1, s2, vars, names, waves[1..]);
    }
  }

  // Two signal states that no part of a body can tell apart.
  datatype Pair = Pair(I: Interp, s1: Signals, s2: Signals, names: seq<Expr>)

  ghost predicate Fits(q: Pair, used: seq<Expr>) { AgreeParts(q.I, q.s1, q.s2, q.names) && Covered(q.names, used) }

  lemma SplitFits(q: Pair, a: seq<Expr>, b: seq<Expr>)
    ensures Fits(q, a + b) <==> Fits(q, a) && Fits(q, b)
  {
    SplitCovered(q.names, a, b);
  }

  lemma {:induction false} SameExec(q: Pair, fuel: nat, vars: Vars, ss: seq<Stmt>)
    requires Fits(q, ReadsStmts(ss))
    ensures Exec(q.I, q.s1, fuel, vars, ss) == Exec(q.I, q.s2, fuel, vars, ss)
    decreases fuel, 1
  {
    if ss != [] && fuel > 0 {
      SplitFits(q, ReadsStmt(ss[0]), ReadsStmts(ss[1..]));
      SameOne(q, fuel - 1, vars, ss[0]);
      var o := ExecOne(q.I, q.s1, fuel - 1, vars, ss[0]);
      if o.Done? { SameExec(q, fuel - 1, o.vars, ss[1..]); }
    }
  }

  lemma {:induction false} SameOne(q: Pair, fuel: nat, vars: Vars, s: Stmt)
    requires Fits(q, ReadsStmt(s))
    ensures ExecOne(q.I, q.s1, fuel, vars, s) == ExecOne(q.I, q.s2, fuel, vars, s)
    decreases fuel, 2
  {
    var Pair(I, s1, s2, names) := q;
    match s
    case VarAssign(t, e) =>
      SplitFits(q, ReadsPath(t), Reads(e));
      SamePath(I, s1, s2, vars, names, t);
      SameValue(I, s1, s2, vars, names, Value, e);
    case SignalAssign(t, waves) =>
      SplitFits(q, ReadsPath(t), ReadsWaves(waves));
      SamePath(I, s1, s2, vars, names, t);
      SameWaves(I, s1, s2, vars, names, waves);
    case If(conds) => SameConds(q, fuel, vars, conds);
    case Case(e, alts) =>
      SplitFits(q, Reads(e), ReadsAlts(alts));
      SameValue(I, s1, s2, vars, names, Value, e);
      SameAlts(q, fuel, vars, Eval(I, s1, vars, Value, e), alts);
    case For(r, id, body) =>
      SplitFits(q, ReadsRange(r), ReadsStmts(body));
      SameRange(I, s1, s2, vars, names, r);
      SameFor(q, fuel, vars, id, I.span(EvalRange(I, s1, vars, r), Descending(r)), body);
    case While(c, body) =>
      SplitFits(q, ReadsOption(c), ReadsStmts(body));
      SameWhile(q, fuel, vars, c, body);
    case Next(c) => SameOption(I, s1, s2, vars, names, c);
    case Exit(c) => SameOption(I, s1, s2, vars, names, c);
    case Assert(c, m) =>
      SplitFits(q, Reads(c), ReadsOption(m));
      SameValue(I, s1, s2, vars, names, Value, c);
      SameOption(I, s1, s2, vars, names, m);
  }

  lemma {:induction false} SameConds(q: Pair, fuel: nat, vars: Vars, cs: seq<Cond>)
    requires Fits(q, ReadsConds(cs))
    ensures ExecConds(q.I, q.s1, fuel, vars, cs) == ExecConds(q.I, q.s2, fuel, vars, cs)
    decreases fuel, 0
  {
    if cs != [] && fuel > 0 {
      SplitFits(q, ReadsCond(cs[0]), ReadsConds(cs[1..]));
      SplitFits(q, ReadsOption(cs[0].test), ReadsStmts(cs[0].body));
      SameOption(q.I, q.s1, q.s2, vars, q.names, cs[0].test);
      SameExec(q, fuel - 1, vars, cs[0].body);
      SameConds(q, fuel - 1, vars, cs[1..]);
    }
  }

  lemma {:induction false} SameAlts(q: Pair, fuel: nat, vars: Vars, v: Val, alts: seq<Alt>)
    requires Fits(q, ReadsAlts(alts))
    ensures ExecAlts(q.I, q.s1, fuel, vars, v, alts) == ExecAlts(q.I, q.s2, fuel, vars, v, alts)
    decreases fuel, 0
  {
    if alts != [] && fuel > 0 {
      SplitFits(q, ReadsAlt(alts[0]), ReadsAlts(alts[1..]));
      SameExec(q, fuel - 1, vars, alts[0].body);
      SameAlts(q, fuel - 1, vars, v, alts[1..]);
    }
  }

  lemma {:induction false} SameFor(q: Pair, fuel: nat, vars: Vars, id: nat, vs: seq<Val>, body: seq<Stmt>)
    requires Fits(q, ReadsStmts(body))
    ensures ExecFor(q.I, q.s1, fuel, vars, id, vs, body) == ExecFor(q.I, q.s2, fuel, vars, id, vs, body)
    decreases fuel, 0
  {
    if vs != [] && fuel > 0 {
      SameExec(q, fuel - 1, Store(vars, id, vs[0]), body);
      var o := Exec(q.I, q.s1, fuel - 1, Store(vars, id, vs[0]), body);
      if o.Done? { SameFor(q, fuel - 1, o.vars, id, vs[1..], body); }
    }
  }

  lemma {:induction false} SameWhile(q: Pair, fuel: nat, vars: Vars, c: Option<Expr>, body: seq<Stmt>)
    requires Fits(q, ReadsOption(c)) && Fits(q, ReadsStmts(body))
    ensures ExecWhile(q.I, q.s1, fuel, vars, c, body) == ExecWhile(q.I, q.s2, fuel, vars, c, body)
    decreases fuel, 0
  {
    SameOption(q.I, q.s1, q.s2, vars, q.names, c);
    if Holds(q.I, q.s1, vars, c) && fuel > 0 {
      SameExec(q, fuel - 1, vars, body);
      var o := Exec(q.I, q.s1, fuel - 1, vars, body);
      if o.Done? { SameWhile(q, fuel - 1, o.vars, c, body); }
    }
  }

  ghost predicate SameRun(I: Interp, s1: Signals, s2: Signals, vars: Vars, fuel: nat, body: seq<Stmt>) {
    Agree(I, s1, s2, vars, WaitStmts(body)) ==> Exec(I, s1, fuel, vars, body) == Exec(I, s2, fuel, vars, body)
  }

  // The behaviour depends on signals only through the reported names: two signal
  // states that agree on them give the same variables, scheduled assignments and
  // messages, for every interpretation and every running time.
  ghost predicate Insensitive(body: seq<Stmt>) {
    forall I: Interp, s1: Signals, s2: Signals, vars: Vars, fuel: nat :: SameRun(I, s1, s2, vars, fuel, body)
  }

  // Sensitivity is sound for every body that reads nothing outside the reported parts.
  lemma SensitivityIsSound(body: seq<Stmt>)
    requires Covered(WaitStmts(body), ReadsStmts(body))
    ensures Insensitive(body)
  {
    var names := WaitStmts(body);
    forall I: Interp, s1: Signals, s2: Signals, vars: Vars, fuel: nat ensures SameRun(I, s1, s2, vars, fuel, body) {
      if Agree(I, s1, s2, vars, names) {
        AgreeAnywhere(I, s1, s2, vars, names);
        SameExec(Pair(I, s1, s2, names), fuel, vars, body);
      }
    }
  }
}
