// What is reported for a name: its longest static prefix, and what its other
// indices read. Nothing is reported that is not mentioned outside of target names.
module SensitivityPrefix {
  import opened Options
  import opened Sensitivity
  import opened SensitivityTerms
  import opened SensitivityReported

  // ------------------------------------------------------------ prefixes

  predicate IsPrefix(p: Expr, e: Expr) {
    p == e || ((e.ArrayRef? || e.ArraySlice? || e.RecordRef?) && IsPrefix(p, e.value))
  }

  // Every index and every range on the way passes the static test.
  predicate StaticSteps(e: Expr) {
    match e
    case ArrayRef(v, ps) => StaticSteps(v) && forall n :: 0 <= n < |ps| ==> IsStatic(ps[n])
    case ArraySlice(v, r) => StaticSteps(v) && r.Bounds? && IsStatic(r.left) && IsStatic(r.right)
    case RecordRef(v, _) => StaticSteps(v)
    case _ => true
  }

  lemma {:induction false} AllStaticIff(es: seq<Expr>)
    ensures AllStatic(es) <==> forall n :: 0 <= n < |es| ==> IsStatic(es[n])
  {
    if es != [] {
      AllStaticIff(es[1..]);
      assert (forall n :: 0 <= n < |es| ==> IsStatic(es[n])) ==> forall n :: 0 <= n < |es[1..]| ==>
          IsStatic(es[1..][n]);
      assert forall n :: 0 < n < |es| ==> es[n] == es[1..][n - 1];
    }
  }

  lemma {:induction false} PrefixDepth(p: Expr, e: Expr)
    requires IsPrefix(p, e)
    ensures Depth(p) <= Depth(e) && (Depth(p) == Depth(e) ==> p == e)
  {
    if p != e { PrefixDepth(p, e.value); }
  }

  // A name with static steps is its own longest static prefix, and no other is.
  lemma {:induction false} StaticIsLongest(e: Expr)
    ensures IsPrefix(LongestStaticPrefix(e), e)
    ensures LongestStaticPrefix(e) == e <==> StaticSteps(e)
  {
    if e.ArrayRef? || e.ArraySlice? || e.RecordRef? {
      StaticIsLongest(e.value);
      PrefixDepth(LongestStaticPrefix(e.value), e.value);
      if e.ArrayRef? { AllStaticIff(e.params); }
    }
  }

  // The longest static prefix is a prefix with static steps, and every such prefix is
  // a prefix of it.
  lemma {:induction false} LongestPrefix(e: Expr, p: Expr)
    ensures IsPrefix(LongestStaticPrefix(e), e) && StaticSteps(LongestStaticPrefix(e))
    ensures IsPrefix(p, e) && StaticSteps(p) ==> IsPrefix(p, LongestStaticPrefix(e))
  {
    StaticIsLongest(e);
    if !StaticSteps(e) {
      LongestPrefix(e.value, p);
      StaticIsLongest(e.value);
      if e.ArrayRef? { AllStaticIff(e.params); }
      assert LongestStaticPrefix(e) == LongestStaticPrefix(e.value);
    }
  }

  // ------------------------------------------------------------ what is reported for a name

  // What is left of a name without its steps.
  function Base(e: Expr): Expr {
    if e.ArrayRef? || e.ArraySlice? || e.RecordRef? then Base(e.value) else e
  }

  predicate OfSignal(e: Expr) { Base(e).Ref? && Base(e).decl.SignalDecl? }

  // The reference found for a name is the one at its base.
  lemma {:induction false} RefIsBase(e: Expr)
    ensures NameToRef(e) == if Base(e).Ref? then Some(Base(e).decl) else None
  {
    if e.ArrayRef? || e.ArraySlice? || e.RecordRef? { RefIsBase(e.value); }
  }

  // The expressions in the last step of a name.
  function StepExprs(e: Expr): seq<Expr> {
    match e
    case ArrayRef(_, ps) => ps
    case ArraySlice(_, r) => if r.Bounds? then [r.left, r.right] else [r.value]
    case _ => []
  }

  // Those in the steps that are not part of the static prefix.
  function Indices(e: Expr): seq<Expr> {
    if StaticSteps(e) || !(e.ArrayRef? || e.ArraySlice? || e.RecordRef?) then [] else Indices(e.value) + StepExprs(e)
  }

  // A signal name whose steps are all static is reported as exactly itself.
  lemma StaticNameReported(e: Expr)
    requires OfSignal(e) && StaticSteps(e)
    ensures BuildWait(e) == [e]
  {
    RefIsBase(e);
    StaticIsLongest(e);
  }

  lemma {:induction false} WaitConcat(a: seq<Expr>, b: seq<Expr>)
    ensures WaitAll(a + b) == WaitAll(a) + WaitAll(b)
    decreases |a|
  {
    if a == [] {
      assert a + b == b;
    } else {
      WaitConcat(a[1..], b);
      assert (a + b)[1..] == a[1..] + b;
    }
  }

  lemma OneReported(e: Expr)
    ensures WaitAll([e]) == BuildWait(e)
  {
    assert [e][1..] == [];
  }

  lemma RangeReported(r: Range)
    ensures WaitRange(r) == WaitAll(if r.Bounds? then [r.left, r.right] else [r.value])
  {
    if r.Bounds? {
      OneReported(r.right);
      assert [r.left, r.right][1..] == [r.right];
    } else {
      OneReported(r.value);
    }
  }

  // What a name that is not reported as a whole is reported to read.
  lemma StepReported(e: Expr)
    requires OfSignal(e) && !StaticSteps(e)
    ensures BuildWait(e) == BuildWait(e.value) + WaitAll(StepExprs(e))
    ensures LongestStaticPrefix(e) == LongestStaticPrefix(e.value)
  {
    RefIsBase(e);
    StaticIsLongest(e);
    StaticIsLongest(e.value);
    if e.ArrayRef? { AllStaticIff(e.params); }
    if e.ArraySlice? { RangeReported(e.range); }
  }

  // Any other signal name: its longest static prefix, then what the remaining indices
  // are reported to read, from left to right.
  lemma {:induction false} NameReported(e: Expr)
    requires OfSignal(e)
    ensures BuildWait(e) == [LongestStaticPrefix(e)] + WaitAll(Indices(e))
  {
    if StaticSteps(e) {
      StaticNameReported(e);
      StaticIsLongest(e);
    } else {
      StepReported(e);
      NameReported(e.value);
      WaitConcat(Indices(e.value), StepExprs(e));
    }
  }

  // ------------------------------------------------------------ the static test

  // Expressions without calls that are not folded, aggregates, conversions, and
  // attributes other than those of a type.
  predicate Simple(e: Expr)
    decreases e, 1
  {
    match e
    case Ref(_) => true
    case Literal(_) => true
    case ArrayRef(v, ps) => Simple(v) && AllSimple(ps)
    case ArraySlice(v, r) => Simple(v) && r.Bounds? && Simple(r.left) && Simple(r.right)
    case RecordRef(v, _) => Simple(v)
    case FCall(_, flagged, _) => flagged
    case AttrRef(a, _, ps) => a.Scalar? && |ps| == 1 && AllSimple(ps)
    case _ => false
  }

  predicate AllSimple(es: seq<Expr>)
    decreases es, 0
  {
    es == [] || (Simple(es[0]) && AllSimple(es[1..]))
  }

  // Of these the test accepts exactly what reads nothing.
  lemma {:induction false} StaticIff(e: Expr)
    requires Simple(e)
    ensures IsStatic(e) <==> Fixed(e)
    decreases e, 1
  {
    match e
    case ArrayRef(v, ps) => StaticIff(v); AllStaticFixed(ps); NameNotStatic(e);
    case ArraySlice(v, r) => StaticIff(v); BoundsIff(r); NameNotStatic(e);
    case RecordRef(v, _) => StaticIff(v); NameNotStatic(e);
    case AttrRef(_, _, ps) => AllStaticFixed(ps); assert ps[1..] == [];
    case _ =>
  }

  lemma {:induction false} BoundsIff(r: Range)
    requires r.Bounds? && Simple(r.left) && Simple(r.right)
    ensures StaticRange(r) <==> ReadsRange(r) == []
    decreases r, 0
  {
    StaticIff(r.left);
    StaticIff(r.right);
    assert ReadsRange(r) == [] <==> Reads(r.left) == [] && Reads(r.right) == [];
  }

  lemma {:induction false} NameNotStatic(e: Expr)
    ensures FixedName(e) ==> !IsStatic(e) && !Fixed(e)
  {
    if e.ArrayRef? || e.ArraySlice? || e.RecordRef? { NameNotStatic(e.value); }
    if FixedName(e) { FixedNameReads(e); }
  }

  lemma {:induction false} AllStaticFixed(es: seq<Expr>)
    requires AllSimple(es)
    ensures AllStatic(es) <==> ReadsAll(es) == []
    decreases es, 0
  {
    if es != [] { StaticIff(es[0]); AllStaticFixed(es[1..]); }
  }

  // ------------------------------------------------------------ nothing else is reported

  // The name occurs in the expression.
  ghost predicate Mentions(e: Expr, n: Expr)
    decreases e, 1
  {
    || n == e
    || (match e
        case ArrayRef(v, ps) => Mentions(v, n) || AnyMentions(ps, n)
        case ArraySlice(v, r) => Mentions(v, n) || RangeMentions(r, n)
        case RecordRef(v, _) => Mentions(v, n)
        case FCall(_, _, ps) => AnyMentions(ps, n)
        case Aggregate(assocs) => AssocsMention(assocs, n)
        case AttrRef(_, name, ps) => Mentions(name, n) || AnyMentions(ps, n)
        case Convert(_, v) => Mentions(v, n)
        case _ => false)
  }

  ghost predicate AnyMentions(es: seq<Expr>, n: Expr)
    decreases es, 0
  {
    exists i :: 0 <= i < |es| && Mentions(es[i], n)
  }

  ghost predicate RangeMentions(r: Range, n: Expr)
    decreases r, 0
  {
    if r.Bounds? then Mentions(r.left, n) || Mentions(r.right, n) else Mentions(r.value, n)
  }

  ghost predicate AssocsMention(assocs: seq<Assoc>, n: Expr)
    decreases assocs, 0
  {
    exists i :: 0 <= i < |assocs| && AssocMentions(assocs[i], n)
  }

  ghost predicate AssocMentions(a: Assoc, n: Expr)
    decreases a, 0
  {
    || Mentions(a.value, n)
    || (a.Named? && Mentions(a.name, n))
    || (a.Ranged? && RangeMentions(a.range, n))
  }

  // In the steps of a target, but not as the target itself.
  ghost predicate TargetMentions(t: Expr, n: Expr) {
    match t
    case ArrayRef(v, ps) => TargetMentions(v, n) || AnyMentions(ps, n)
    case ArraySlice(v, r) => TargetMentions(v, n) || RangeMentions(r, n)
    case RecordRef(v, _) => TargetMentions(v, n)
    case _ => false
  }

  ghost predicate OptionMentions(e: Option<Expr>, n: Expr) { e.Some? && Mentions(e.value, n) }

  ghost predicate StmtMentions(s: Stmt, n: Expr)
    decreases s, 1
  {
    match s
    case VarAssign(t, v) => TargetMentions(t, n) || Mentions(v, n)
    case SignalAssign(t, ws) => TargetMentions(t, n) || exists i :: 0 <= i < |ws| && Mentions(ws[i].value, n)
    case If(cs) => exists i :: 0 <= i < |cs| && (OptionMentions(cs[i].test, n) || BodyMentions(cs[i].body, n))
    case Case(v, alts) => Mentions(v, n) || exists i :: 0 <= i < |alts| && BodyMentions(alts[i].body, n)
    case For(r, _, body) => RangeMentions(r, n) || BodyMentions(body, n)
    case While(c, body) => OptionMentions(c, n) || BodyMentions(body, n)
    case Next(c) => OptionMentions(c, n)
    case Exit(c) => OptionMentions(c, n)
    case Assert(c, m) => Mentions(c, n) || OptionMentions(m, n)
  }

  ghost predicate BodyMentions(ss: seq<Stmt>, n: Expr)
    decreases ss, 0
  {
    exists i :: 0 <= i < |ss| && StmtMentions(ss[i], n)
  }

  lemma {:induction false} WaitMentioned(e: Expr, n: Expr)
    requires n in BuildWait(e)
    ensures Mentions(e, n)
    decreases e, 1
  {
    if n != e {
      match e
      case ArrayRef(v, ps) => if n in BuildWait(v) { WaitMentioned(v, n); } else { WaitsMentioned(ps, n); }
      case ArraySlice(v, r) => if n in BuildWait(v) { WaitMentioned(v, n); } else { RangeMentioned(r, n); }
      case RecordRef(v, _) => WaitMentioned(v, n);
      case FCall(_, _, ps) => WaitsMentioned(ps, n);
      case Aggregate(assocs) => AssocsMentioned(assocs, n);
      case AttrRef(_, name, ps) => if n in WaitAll(ps) { WaitsMentioned(ps, n); } else { WaitMentioned(name, n); }
      case Convert(_, v) => WaitMentioned(v, n);
    }
  }

  lemma {:induction false} WaitsMentioned(es: seq<Expr>, n: Expr)
    requires n in WaitAll(es)
    ensures AnyMentions(es, n)
    decreases es, 0
  {
    if n in BuildWait(es[0]) {
      WaitMentioned(es[0], n);
    } else {
      WaitsMentioned(es[1..], n);
      var i :| 0 <= i < |es[1..]| && Mentions(es[1..][i], n);
      assert Mentions(es[i + 1], n);
    }
  }

  lemma {:induction false} RangeMentioned(r: Range, n: Expr)
    requires n in WaitRange(r)
    ensures RangeMentions(r, n)
    decreases r, 0
  {
    match r
    case Bounds(l, h, _) => if n in BuildWait(l) { WaitMentioned(l, n); } else { WaitMentioned(h, n); }
    case RangeExpr(v) => WaitMentioned(v, n);
  }

  lemma {:induction false} AssocsMentioned(assocs: seq<Assoc>, n: Expr)
    requires n in WaitAssocs(assocs)
    ensures AssocsMention(assocs, n)
    decreases assocs, 0
  {
    if n in WaitAssoc(assocs[0]) {
      AssocMentioned(assocs[0], n);
    } else {
      AssocsMentioned(assocs[1..], n);
      var i :| 0 <= i < |assocs[1..]| && AssocMentions(assocs[1..][i], n);
      assert AssocMentions(assocs[i + 1], n);
    }
  }

  lemma {:induction false} AssocMentioned(a: Assoc, n: Expr)
    requires n in WaitAssoc(a)
    ensures AssocMentions(a, n)
    decreases a, 0
  {
    if n in BuildWait(a.value) {
      WaitMentioned(a.value, n);
    } else if a.Named? {
      WaitMentioned(a.name, n);
    } else if a.Ranged? {
      RangeMentioned(a.range, n);
    }
  }

  lemma TargetMentioned(t: Expr, n: Expr)
    requires n in WaitTarget(t)
    ensures TargetMentions(t, n)
  {
    if t.ArrayRef? { WaitsMentioned(t.params, n); } else { RangeMentioned(t.range, n); }
  }

  lemma {:induction false} WavesMentioned(ws: seq<Waveform>, n: Expr) returns (i: nat)
    requires n in WaitWaves(ws)
    ensures i < |ws| && Mentions(ws[i].value, n)
  {
    if n in BuildWait(ws[0].value) {
      WaitMentioned(ws[0].value, n);
      i := 0;
    } else {
      i := WavesMentioned(ws[1..], n);
      i := i + 1;
    }
  }

  lemma OptionMentioned(e: Option<Expr>, n: Expr)
    requires n in WaitOption(e)
    ensures OptionMentions(e, n)
  {
    WaitMentioned(e.value, n);
  }

  lemma {:induction false} StmtMentioned(s: Stmt, n: Expr)
    requires n in WaitStmt(s)
    ensures StmtMentions(s, n)
    decreases s, 1
  {
    match s
    case VarAssign(t, v) => if n in WaitTarget(t) { TargetMentioned(t, n); } else { WaitMentioned(v, n); }
    case SignalAssign(t, ws) =>
      if n in WaitTarget(t) { TargetMentioned(t, n); } else { var i := WavesMentioned(ws, n); }
    case If(cs) => CondsMentioned(cs, n);
    case Case(v, alts) => if n in BuildWait(v) { WaitMentioned(v, n); } else { AltsMentioned(alts, n); }
    case For(r, _, body) => if n in WaitRange(r) { RangeMentioned(r, n); } else { BodyMentioned(body, n); }
    case While(c, body) => if n in WaitOption(c) { OptionMentioned(c, n); } else { BodyMentioned(body, n); }
    case Next(c) => OptionMentioned(c, n);
    case Exit(c) => OptionMentioned(c, n);
    case Assert(c, m) => if n in BuildWait(c) { WaitMentioned(c, n); } else { OptionMentioned(m, n); }
  }

  lemma {:induction false} CondsMentioned(cs: seq<Cond>, n: Expr)
    requires n in WaitConds(cs)
    ensures exists i :: 0 <= i < |cs| && (OptionMentions(cs[i].test, n) || BodyMentions(cs[i].body, n))
    decreases cs, 0
  {
    if n in WaitOption(cs[0].test) {
      OptionMentioned(cs[0].test, n);
    } else if n in WaitStmts(cs[0].body) {
      BodyMentioned(cs[0].body, n);
    } else {
      CondsMentioned(cs[1..], n);
      var i :| 0 <= i < |cs[1..]| && (OptionMentions(cs[1..][i].test, n) || BodyMentions(cs[1..][i].body, n));
      assert OptionMentions(cs[i + 1].test, n) || BodyMentions(cs[i + 1].body, n);
    }
  }

  lemma {:induction false} AltsMentioned(alts: seq<Alt>, n: Expr)
    requires n in WaitAlts(alts)
    ensures exists i :: 0 <= i < |alts| && BodyMentions(alts[i].body, n)
    decreases alts, 0
  {
    if n in WaitStmts(alts[0].body) {
      BodyMentioned(alts[0].body, n);
    } else {
      AltsMentioned(alts[1..], n);
      var i :| 0 <= i < |alts[1..]| && BodyMentions(alts[1..][i].body, n);
      assert BodyMentions(alts[i + 1].body, n);
    }
  }

  // Every reported name occurs in the body, in a value, an index, a range or a
  // condition, and not only as what is assigned to.
  lemma {:induction false} BodyMentioned(ss: seq<Stmt>, n: Expr)
    requires n in WaitStmts(ss)
    ensures BodyMentions(ss, n)
    decreases ss, 0
  {
    if n in WaitStmt(ss[0]) {
      StmtMentioned(ss[0], n);
    } else {
      BodyMentioned(ss[1..], n);
      var i :| 0 <= i < |ss[1..]| && StmtMentions(ss[1..][i], n);
      assert StmtMentions(ss[i + 1], n);
    }
  }
}
