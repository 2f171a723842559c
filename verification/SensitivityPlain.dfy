// The bodies for which the reported names always suffice: those without the
// constructs that build_wait does not look into.
module SensitivityPlain {
  import opened Options
  import opened Sensitivity
  import opened SensitivityTerms
  import opened SensitivityProof

  ghost predicate NoSignals(used: seq<Expr>) { forall n :: n in used ==> IsVariable(n) }

  // No signal is read by a history attribute or through the bounds of a prefix, and
  // the indices of a reported name are fixed indeed.
  ghost predicate Plain(e: Expr)
    decreases e, 1
  {
    match e
    case ArrayRef(v, ps) => if Reported(e) then FixedName(e) else Plain(v) && PlainAll(ps)
    case ArraySlice(v, r) => if Reported(e) then FixedName(e) else Plain(v) && PlainRange(r)
    case RecordRef(v, _) => if Reported(e) then FixedName(e) else Plain(v)
    case FCall(_, flagged, ps) => flagged || PlainAll(ps)
    case Aggregate(assocs) => PlainAssocs(assocs)
    case AttrRef(a, name, ps) =>
      (match a
       case Scalar(_) => PlainAll(ps)
       case Bound(_) => NoSignals(ReadsShape(name)) && PlainAll(ps)
       case Extent(_) => NoSignals(ReadsShape(name)) && PlainAll(ps)
       case Label(_) => true
       case Event => Plain(name)
       case Active => Plain(name)
       case _ => NoSignals(Reads(name)))
    case Convert(_, v) => Plain(v)
    case _ => true
  }

  ghost predicate PlainAll(es: seq<Expr>)
    decreases es, 0
  {
    es == [] || (Plain(es[0]) && PlainAll(es[1..]))
  }

  ghost predicate PlainRange(r: Range)
    decreases r, 0
  {
    match r
    case Bounds(l, h, _) => Plain(l) && Plain(h)
    case RangeExpr(v) => Plain(v)
  }

  ghost predicate PlainAssocs(assocs: seq<Assoc>)
    decreases assocs, 0
  {
    assocs == [] || (PlainAssoc(assocs[0]) && PlainAssocs(assocs[1..]))
  }

  ghost predicate PlainAssoc(a: Assoc)
    decreases a, 0
  {
    match a
    case Named(v, name) => Plain(v) && Plain(name)
    case Ranged(v, r) => Plain(v) && PlainRange(r)
    case Pos(v) => Plain(v)
    case Others(v) => Plain(v)
  }

  ghost predicate PlainOption(e: Option<Expr>) { e.Some? ==> Plain(e.value) }

  // Below the outermost index or range of a target no signal is read.
  ghost predicate PlainTarget(t: Expr) {
    match t
    case ArrayRef(v, ps) => NoSignals(ReadsPath(v)) && PlainAll(ps)
    case ArraySlice(v, r) => NoSignals(ReadsPath(v)) && PlainRange(r)
    case RecordRef(v, _) => NoSignals(ReadsPath(v))
    case _ => true
  }

  // Delays read no signal.
  ghost predicate PlainWaves(waves: seq<Waveform>) {
    waves == [] || (Plain(waves[0].value) && NoSignals(ReadsOption(waves[0].delay)) && PlainWaves(waves[1..]))
  }

  ghost predicate PlainStmt(s: Stmt)
    decreases s, 1
  {
    match s
    case VarAssign(t, v) => PlainTarget(t) && Plain(v)
    case SignalAssign(t, waves) => PlainTarget(t) && PlainWaves(waves)
    case If(conds) => PlainConds(conds)
    case Case(v, alts) => Plain(v) && PlainAlts(alts)
    case For(r, _, body) => PlainRange(r) && PlainBody(body)
    case While(c, body) => PlainOption(c) && PlainBody(body)
    case Next(c) => PlainOption(c)
    case Exit(c) => PlainOption(c)
    case Assert(c, m) => Plain(c) && PlainOption(m)
  }

  ghost predicate PlainBody(ss: seq<Stmt>)
    decreases ss, 0
  {
    ss == [] || (PlainStmt(ss[0]) && PlainBody(ss[1..]))
  }

  ghost predicate PlainConds(cs: seq<Cond>)
    decreases cs, 0
  {
    cs == [] || (PlainCond(cs[0]) && PlainConds(cs[1..]))
  }

  ghost predicate PlainCond(c: Cond)
    decreases c, 0
  {
    PlainOption(c.test) && PlainBody(c.body)
  }

  ghost predicate PlainAlts(alts: seq<Alt>)
    decreases alts, 0
  {
    alts == [] || (PlainAlt(alts[0]) && PlainAlts(alts[1..]))
  }

  ghost predicate PlainAlt(a: Alt)
    decreases a, 0
  {
    PlainBody(a.body)
  }

  // ------------------------------------------------------------ expressions

  lemma Join(w1: seq<Expr>, w2: seq<Expr>, u1: seq<Expr>, u2: seq<Expr>)
    requires Covered(w1, u1) && Covered(w2, u2)
    ensures Covered(w1 + w2, u1 + u2)
  {
    forall n | n in u1 + u2 ensures CoveredName(w1 + w2, n) {
      if n in u1 { Wider(w1, w1 + w2, n); } else { Wider(w2, w1 + w2, n); }
    }
  }

  lemma Wider(names: seq<Expr>, more: seq<Expr>, n: Expr)
    requires CoveredName(names, n) && forall r :: r in names ==> r in more
    ensures CoveredName(more, n)
  {
  }

  // Names covering part of a name cover the name.
  lemma CoverDown(names: seq<Expr>, e: Expr)
    requires FixedName(e) && (e.ArrayRef? || e.ArraySlice? || e.RecordRef?) && CoveredName(names, e.value)
    ensures CoveredName(names, e)
  {
    assert !IsVariable(e.value);
    var r :| r in names && Covers(r, e.value);
    assert CodePath(e.value) <= CodePath(e) && Root(e) == Root(e.value);
    assert Covers(r, e);
  }

  lemma {:induction false} PlainCovered(e: Expr)
    requires Plain(e)
    ensures Covered(BuildWait(e), Reads(e))
    decreases e, 2
  {
    match e
    case Ref(d) => assert IsSignal(d) ==> Covers(e, e);
    case ExternalName(_) => assert Covers(e, e);
    case ArrayRef(_, _) => PlainPart(e);
    case ArraySlice(_, _) => PlainPart(e);
    case RecordRef(_, _) => PlainPart(e);
    case FCall(_, flagged, ps) => if !flagged { PlainsCovered(ps); }
    case Aggregate(assocs) => PlainAssocsCovered(assocs);
    case AttrRef(a, name, ps) => PlainAttr(e);
    case Convert(_, v) => PlainCovered(v);
    case _ =>
  }

  lemma {:induction false} PlainAttr(e: Expr)
    requires e.AttrRef? && Plain(e)
    ensures Covered(BuildWait(e), Reads(e))
    decreases e, 1
  {
    var AttrRef(a, name, ps) := e;
    if a.Event? || a.Active? {
      PlainCovered(name);
      forall n | n in Reads(name) ensures CoveredName(BuildWait(e), n) { Wider(BuildWait(name), BuildWait(e), n); }
    } else if a.Scalar? {
      PlainsCovered(ps);
      assert BuildWait(e) == WaitAll(ps);
    } else if a.Bound? || a.Extent? {
      PlainsCovered(ps);
      assert BuildWait(e) == WaitAll(ps);
      SplitCovered(WaitAll(ps), ReadsShape(name), ReadsAll(ps));
    }
  }

  lemma {:induction false} PlainPart(e: Expr)
    requires (e.ArrayRef? || e.ArraySlice? || e.RecordRef?) && Plain(e)
    ensures Covered(BuildWait(e), Reads(e))
    decreases e, 1
  {
    if Reported(e) {
      FixedNameReads(e);
      assert Covers(e, e);
    } else {
      PlainCovered(e.value);
      var rest := [];
      var used := [];
      match e {
        case ArrayRef(v, ps) => PlainsCovered(ps); rest, used := WaitAll(ps), ReadsAll(ps);
        case ArraySlice(v, r) => PlainRangeCovered(r); rest, used := WaitRange(r), ReadsRange(r);
        case RecordRef(_, _) =>
      }
      Join(BuildWait(e.value), rest, Reads(e.value), used);
      assert BuildWait(e) == BuildWait(e.value) + rest;
      if FixedName(e) {
        FixedNameReads(e);
        FixedNameReads(e.value);
        assert e.value in Reads(e.value) + used;
        CoverDown(BuildWait(e), e);
      } else {
        assert Reads(e) == Reads(e.value) + used;
      }
    }
  }

  lemma {:induction false} PlainsCovered(es: seq<Expr>)
    requires PlainAll(es)
    ensures Covered(WaitAll(es), ReadsAll(es))
    decreases es, 0
  {
    if es != [] {
      PlainCovered(es[0]);
      PlainsCovered(es[1..]);
      Join(BuildWait(es[0]), WaitAll(es[1..]), Reads(es[0]), ReadsAll(es[1..]));
    }
  }

  lemma {:induction false} PlainRangeCovered(r: Range)
    requires PlainRange(r)
    ensures Covered(WaitRange(r), ReadsRange(r))
    decreases r, 0
  {
    match r
    case Bounds(l, h, _) => PlainCovered(l); PlainCovered(h); Join(BuildWait(l), BuildWait(h), Reads(l), Reads(h));
    case RangeExpr(v) => PlainCovered(v);
  }

  lemma {:induction false} PlainAssocsCovered(assocs: seq<Assoc>)
    requires PlainAssocs(assocs)
    ensures Covered(WaitAssocs(assocs), ReadsAssocs(assocs))
    decreases assocs, 0
  {
    if assocs != [] {
      PlainAssocCovered(assocs[0]);
      PlainAssocsCovered(assocs[1..]);
      Join(WaitAssoc(assocs[0]), WaitAssocs(assocs[1..]), ReadsAssoc(assocs[0]), ReadsAssocs(assocs[1..]));
    }
  }

  lemma {:induction false} PlainAssocCovered(a: Assoc)
    requires PlainAssoc(a)
    ensures Covered(WaitAssoc(a), ReadsAssoc(a))
    decreases a, 0
  {
    PlainCovered(a.value);
    match a
    case Named(v, name) => PlainCovered(name); Join(BuildWait(v), BuildWait(name), Reads(v), Reads(name));
    case Ranged(v, r) => PlainRangeCovered(r); Join(BuildWait(v), WaitRange(r), Reads(v), ReadsRange(r));
    case _ =>
  }

  // ------------------------------------------------------------ statements

  lemma TargetCovered(t: Expr)
    requires PlainTarget(t)
    ensures Covered(WaitTarget(t), ReadsPath(t))
  {
    match t
    case ArrayRef(v, ps) => PlainsCovered(ps); SplitCovered(WaitAll(ps), ReadsPath(v), ReadsAll(ps));
    case ArraySlice(v, r) => PlainRangeCovered(r); SplitCovered(WaitRange(r), ReadsPath(v), ReadsRange(r));
    case _ =>
  }

  lemma OptionCovered(e: Option<Expr>)
    requires PlainOption(e)
    ensures Covered(WaitOption(e), ReadsOption(e))
  {
    if e.Some? { PlainCovered(e.value); }
  }

  lemma {:induction false} WavesCovered(waves: seq<Waveform>)
    requires PlainWaves(waves)
    ensures Covered(WaitWaves(waves), ReadsWaves(waves))
  {
    if waves != [] {
      var w := waves[0];
      PlainCovered(w.value);
      WavesCovered(waves[1..]);
      SplitCovered(BuildWait(w.value), Reads(w.value), ReadsOption(w.delay));
      Join(BuildWait(w.value), WaitWaves(waves[1..]), Reads(w.value) + ReadsOption(w.delay), ReadsWaves(waves[1..]));
    }
  }

  lemma {:induction false} StmtCovered(s: Stmt)
    requires PlainStmt(s)
    ensures Covered(WaitStmt(s), ReadsStmt(s))
    decreases s, 1
  {
    match s
    case VarAssign(t, v) =>
      TargetCovered(t); PlainCovered(v); Join(WaitTarget(t), BuildWait(v), ReadsPath(t), Reads(v));
    case SignalAssign(t, waves) =>
      TargetCovered(t); WavesCovered(waves); Join(WaitTarget(t), WaitWaves(waves), ReadsPath(t), ReadsWaves(waves));
    case If(conds) => CondsCovered(conds);
    case Case(v, alts) => PlainCovered(v); AltsCovered(alts); Join(BuildWait(v), WaitAlts(alts), Reads(v),
        ReadsAlts(alts));
    case For(r, _, body) =>
      PlainRangeCovered(r); BodyCovered(body); Join(WaitRange(r), WaitStmts(body), ReadsRange(r), ReadsStmts(body));
    case While(c, body) =>
      OptionCovered(c); BodyCovered(body); Join(WaitOption(c), WaitStmts(body), ReadsOption(c), ReadsStmts(body));
    case Next(c) => OptionCovered(c);
    case Exit(c) => OptionCovered(c);
    case Assert(c, m) => PlainCovered(c); OptionCovered(m); Join(BuildWait(c), WaitOption(m), Reads(c), ReadsOption(m));
  }

  lemma {:induction false} BodyCovered(ss: seq<Stmt>)
    requires PlainBody(ss)
    ensures Covered(WaitStmts(ss), ReadsStmts(ss))
    decreases ss, 0
  {
    if ss != [] {
      StmtCovered(ss[0]);
      BodyCovered(ss[1..]);
      Join(WaitStmt(ss[0]), WaitStmts(ss[1..]), ReadsStmt(ss[0]), ReadsStmts(ss[1..]));
    }
  }

  lemma {:induction false} CondsCovered(cs: seq<Cond>)
    requires PlainConds(cs)
    ensures Covered(WaitConds(cs), ReadsConds(cs))
    decreases cs, 0
  {
    if cs != [] {
      CondCovered(cs[0]);
      CondsCovered(cs[1..]);
      Join(WaitCond(cs[0]), WaitConds(cs[1..]), ReadsCond(cs[0]), ReadsConds(cs[1..]));
    }
  }

  lemma {:induction false} CondCovered(c: Cond)
    requires PlainCond(c)
    ensures Covered(WaitCond(c), ReadsCond(c))
    decreases c, 0
  {
    OptionCovered(c.test);
    BodyCovered(c.body);
    Join(WaitOption(c.test), WaitStmts(c.body), ReadsOption(c.test), ReadsStmts(c.body));
  }

  lemma {:induction false} AltsCovered(alts: seq<Alt>)
    requires PlainAlts(alts)
    ensures Covered(WaitAlts(alts), ReadsAlts(alts))
    decreases alts, 0
  {
    if alts != [] {
      AltCovered(alts[0]);
      AltsCovered(alts[1..]);
      Join(WaitAlt(alts[0]), WaitAlts(alts[1..]), ReadsAlt(alts[0]), ReadsAlts(alts[1..]));
    }
  }

  lemma {:induction false} AltCovered(a: Alt)
    requires PlainAlt(a)
    ensures Covered(WaitAlt(a), ReadsAlt(a))
    decreases a, 0
  {
    BodyCovered(a.body);
  }

  // Sensitivity is sound for every plain body.
  lemma PlainIsSound(body: seq<Stmt>)
    requires PlainBody(body)
    ensures Insensitive(body)
  {
    BodyCovered(body);
    SensitivityIsSound(body);
  }
}
