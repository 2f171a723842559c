// What build_wait reports: signals, external names, and composite names of a signal
// that are their own longest static prefix; without array attributes these are fixed.
module SensitivityReported {
  import opened Options
  import opened Sensitivity
  import opened SensitivityTerms
  import opened SensitivityProof
  import opened SensitivityNeeded

  predicate Reportable(n: Expr) {
    match n
    case Ref(d) => IsSignal(d)
    case ExternalName(_) => true
    case _ => (n.ArrayRef? || n.ArraySlice? || n.RecordRef?) && Reported(n)
  }

  ghost predicate AllReportable(ns: seq<Expr>) {
    forall n :: n in ns ==> Reportable(n)
  }

  lemma {:induction false} WaitIsReportable(e: Expr)
    ensures AllReportable(BuildWait(e))
    decreases e, 1
  {
    match e
    case ArrayRef(v, ps) => WaitIsReportable(v); WaitsAreReportable(ps);
    case ArraySlice(v, r) => WaitIsReportable(v); RangeIsReportable(r);
    case RecordRef(v, _) => WaitIsReportable(v);
    case FCall(_, _, ps) => WaitsAreReportable(ps);
    case Aggregate(assocs) => AssocsAreReportable(assocs);
    case AttrRef(_, name, ps) => WaitIsReportable(name); WaitsAreReportable(ps);
    case Convert(_, v) => WaitIsReportable(v);
    case _ =>
  }

  lemma {:induction false} WaitsAreReportable(es: seq<Expr>)
    ensures AllReportable(WaitAll(es))
    decreases es, 0
  {
    if es != [] { WaitIsReportable(es[0]); WaitsAreReportable(es[1..]); }
  }

  lemma {:induction false} RangeIsReportable(r: Range)
    ensures AllReportable(WaitRange(r))
    decreases r, 0
  {
    match r
    case Bounds(l, h, _) => WaitIsReportable(l); WaitIsReportable(h);
    case RangeExpr(v) => WaitIsReportable(v);
  }

  lemma {:induction false} AssocsAreReportable(assocs: seq<Assoc>)
    ensures AllReportable(WaitAssocs(assocs))
    decreases assocs, 0
  {
    if assocs != [] {
      AssocIsReportable(assocs[0]);
      AssocsAreReportable(assocs[1..]);
    }
  }

  lemma {:induction false} AssocIsReportable(a: Assoc)
    ensures AllReportable(WaitAssoc(a))
    decreases a, 0
  {
    WaitIsReportable(a.value);
    match a
    case Named(_, name) => WaitIsReportable(name);
    case Ranged(_, r) => RangeIsReportable(r);
    case _ =>
  }

  lemma {:induction false} StmtIsReportable(s: Stmt)
    ensures AllReportable(WaitStmt(s))
    decreases s, 1
  {
    match s
    case VarAssign(t, v) => TargetIsReportable(t); WaitIsReportable(v);
    case SignalAssign(t, waves) => TargetIsReportable(t); WavesAreReportable(waves);
    case If(conds) => CondsAreReportable(conds);
    case Case(v, alts) => WaitIsReportable(v); AltsAreReportable(alts);
    case For(r, _, body) => RangeIsReportable(r); StmtsAreReportable(body);
    case While(c, body) => OptionIsReportable(c); StmtsAreReportable(body);
    case Next(c) => OptionIsReportable(c);
    case Exit(c) => OptionIsReportable(c);
    case Assert(c, m) => WaitIsReportable(c); OptionIsReportable(m);
  }

  lemma TargetIsReportable(t: Expr)
    ensures AllReportable(WaitTarget(t))
  {
    match t
    case ArraySlice(_, r) => RangeIsReportable(r);
    case ArrayRef(_, ps) => WaitsAreReportable(ps);
    case _ =>
  }

  lemma OptionIsReportable(e: Option<Expr>)
    ensures AllReportable(WaitOption(e))
  {
    if e.Some? { WaitIsReportable(e.value); }
  }

  lemma {:induction false} WavesAreReportable(waves: seq<Waveform>)
    ensures AllReportable(WaitWaves(waves))
  {
    if waves != [] { WaitIsReportable(waves[0].value); WavesAreReportable(waves[1..]); }
  }

  // Everything reported for a body is such a name.
  lemma {:induction false} StmtsAreReportable(ss: seq<Stmt>)
    ensures AllReportable(WaitStmts(ss))
    decreases ss, 0
  {
    if ss != [] { StmtIsReportable(ss[0]); StmtsAreReportable(ss[1..]); }
  }

  lemma {:induction false} CondsAreReportable(cs: seq<Cond>)
    ensures AllReportable(WaitConds(cs))
    decreases cs, 0
  {
    if cs != [] {
      CondIsReportable(cs[0]);
      CondsAreReportable(cs[1..]);
    }
  }

  lemma {:induction false} CondIsReportable(c: Cond)
    ensures AllReportable(WaitCond(c))
    decreases c, 0
  {
    OptionIsReportable(c.test);
    StmtsAreReportable(c.body);
  }

  lemma {:induction false} AltsAreReportable(alts: seq<Alt>)
    ensures AllReportable(WaitAlts(alts))
    decreases alts, 0
  {
    if alts != [] {
      AltIsReportable(alts[0]);
      AltsAreReportable(alts[1..]);
    }
  }

  lemma {:induction false} AltIsReportable(a: Alt)
    ensures AllReportable(WaitAlt(a))
    decreases a, 0
  {
    StmtsAreReportable(a.body);
  }

  // ------------------------------------------------------------ reported names that are fixed

  // No array attribute occurs in what the static test looks at.
  predicate BoundFree(e: Expr)
    decreases e, 1
  {
    match e
    case ArrayRef(v, ps) => BoundFree(v) && AllBoundFree(ps)
    case ArraySlice(v, r) => BoundFree(v) && (r.Bounds? ==> BoundFree(r.left) && BoundFree(r.right))
    case RecordRef(v, _) => BoundFree(v)
    case AttrRef(a, _, ps) => !a.Bound? && !a.Extent? && AllBoundFree(ps)
    case _ => true
  }

  predicate AllBoundFree(es: seq<Expr>)
    decreases es, 0
  {
    es == [] || (BoundFree(es[0]) && AllBoundFree(es[1..]))
  }

  // What is called static and has no array attribute reads nothing indeed.
  lemma {:induction false} StaticIsFixed(e: Expr)
    requires IsStatic(e) && BoundFree(e)
    ensures Fixed(e) && !FixedName(e)
    decreases e, 1
  {
    match e
    case ArrayRef(v, ps) => StaticIsFixed(v); StaticsAreFixed(ps);
    case ArraySlice(v, r) => StaticIsFixed(v); StaticIsFixed(r.left); StaticIsFixed(r.right);
    case RecordRef(v, _) => StaticIsFixed(v);
    case AttrRef(a, _, ps) => if a.Scalar? { StaticIsFixed(ps[0]); assert ps[1..] == [] && ReadsAll(ps) == []; }
    case _ =>
  }

  lemma {:induction false} StaticsAreFixed(es: seq<Expr>)
    requires AllStatic(es) && AllBoundFree(es)
    ensures ReadsAll(es) == []
    decreases es, 0
  {
    if es != [] { StaticIsFixed(es[0]); StaticsAreFixed(es[1..]); }
  }

  function Depth(e: Expr): nat {
    match e
    case ArrayRef(v, _) => 1 + Depth(v)
    case ArraySlice(v, _) => 1 + Depth(v)
    case RecordRef(v, _) => 1 + Depth(v)
    case _ => 0
  }

  lemma {:induction false} PrefixIsShorter(e: Expr)
    ensures Depth(LongestStaticPrefix(e)) <= Depth(e)
  {
    if e.ArrayRef? || e.ArraySlice? || e.RecordRef? { PrefixIsShorter(e.value); }
  }

  lemma {:induction false} PrefixIsFixed(e: Expr)
    requires BoundFree(e) && LongestStaticPrefix(e) == e && NameToRef(e).Some? && IsSignal(NameToRef(e).value)
    ensures FixedName(e)
  {
    if e.ArrayRef? || e.ArraySlice? || e.RecordRef? { PrefixIsShorter(e.value); }
    match e
    case ArrayRef(v, ps) => PrefixIsFixed(v); StaticsAreFixed(ps);
    case ArraySlice(v, r) => PrefixIsFixed(v); StaticIsFixed(r.left); StaticIsFixed(r.right);
    case RecordRef(v, _) => PrefixIsFixed(v);
    case _ =>
  }

  // For any assignment, if no array attribute occurs in a reported name: it depends on
  // the reported names only if and only if all that it reads lies inside them.
  lemma ExactWithoutBounds(s: Stmt)
    requires IsAssignment(s) && forall r :: r in WaitStmts([s]) ==> BoundFree(r)
    ensures Insensitive([s]) <==> Covered(WaitStmts([s]), ReadsStmts([s]))
  {
    StmtsAreReportable([s]);
    forall r | r in WaitStmts([s]) ensures FixedName(r) {
      if r.ArrayRef? || r.ArraySlice? || r.RecordRef? { PrefixIsFixed(r); }
    }
    ExactForAssignments(s);
  }
}
