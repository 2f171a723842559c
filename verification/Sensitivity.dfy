// Implicit sensitivity (IEEE 1076-2008 sections 10.2 and 11.3): which names a
// process or expression is reported to wait on, over a reduced syntax tree.
module Sensitivity {
  import opened Options

  datatype Lit = Num(n: int) | Text(s: string)

  datatype Decl =
    | SignalDecl(id: nat)    // signals and ports
    | VarDecl(id: nat)       // variables, loop parameters, subprogram parameters
    | ConstDecl(id: nat, globallyStatic: bool)
    | GenericDecl(id: nat)
    | EnumLit(id: nat)
    | UnitDecl(id: nat)

  datatype Attr =
    | Event | Active                                    // build_wait looks at the prefix
    | LastEvent | LastActive | LastValue | Driving | DrivingValue
    | Scalar(op: nat)                                   // 'POS, 'VAL, 'SUCC, 'IMAGE, ...: one parameter
    | Bound(op: nat)                                    // 'LENGTH, 'LEFT, 'RIGHT, 'LOW, 'HIGH
    | Extent(op: nat)                                   // 'RANGE, 'REVERSE_RANGE, 'ASCENDING
    | Label(op: nat)                                    // 'SIMPLE_NAME, 'PATH_NAME, ...

  datatype Range = Bounds(left: Expr, right: Expr, downto: bool) | RangeExpr(value: Expr)

  datatype Assoc =
    | Pos(value: Expr)
    | Named(value: Expr, name: Expr)
    | Ranged(value: Expr, range: Range)
    | Others(value: Expr)

  datatype Expr =
    | Ref(decl: Decl)
    | ExternalName(id: nat)                             // of class signal
    | Literal(v: Lit)
    | ArrayRef(value: Expr, params: seq<Expr>)
    | ArraySlice(value: Expr, range: Range)
    | RecordRef(value: Expr, field: nat)
    | FCall(fn: nat, flagged: bool, params: seq<Expr>)  // flagged locally or globally static
    | Aggregate(assocs: seq<Assoc>)
    | AttrRef(attr: Attr, name: Expr, params: seq<Expr>)
    | Convert(kind: nat, value: Expr)                   // qualified expression, type conversion

  datatype Waveform = Waveform(value: Expr, delay: Option<Expr>)

  datatype Stmt =
    | VarAssign(target: Expr, value: Expr)
    | SignalAssign(target: Expr, waves: seq<Waveform>)
    | If(conds: seq<Cond>)
    | Case(value: Expr, alts: seq<Alt>)
    | For(range: Range, index: nat, body: seq<Stmt>)
    | While(cond: Option<Expr>, body: seq<Stmt>)        // None: a plain loop
    | Next(cond: Option<Expr>)
    | Exit(cond: Option<Expr>)
    | Assert(test: Expr, message: Option<Expr>)

  datatype Cond = Cond(test: Option<Expr>, body: seq<Stmt>)
  datatype Alt = Alt(choices: Option<seq<Expr>>, body: seq<Stmt>)  // None: others

  // ------------------------------------------------------------ static names

  predicate IsSignal(d: Decl) { d.SignalDecl? }

  function NameToRef(e: Expr): Option<Decl> {
    match e
    case Ref(d) => Some(d)
    case ArrayRef(v, _) => NameToRef(v)
    case ArraySlice(v, _) => NameToRef(v)
    case RecordRef(v, _) => NameToRef(v)
    case _ => None
  }

  // name_to_ref walks down the prefixes in a loop.
  method FindRef(name: Expr) returns (r: Option<Decl>)
    ensures r == NameToRef(name)
  {
    var e := name;
    while !e.Ref?
      invariant NameToRef(e) == NameToRef(name)
      decreases e
    {
      if e.ArrayRef? || e.ArraySlice? || e.RecordRef? {
        e := e.value;
      } else {
        return None;
      }
    }
    return Some(e.decl);
  }

  predicate IsStatic(e: Expr)
    decreases e, 1
  {
    match e
    case Ref(d) => (match d
                    case ConstDecl(_, g) => g
                    case UnitDecl(_) => true
                    case EnumLit(_) => true
                    case GenericDecl(_) => true
                    case _ => false)
    case Literal(_) => true
    case FCall(_, flagged, _) => flagged
    case RecordRef(v, _) => IsStatic(v)
    case ArrayRef(v, ps) => IsStatic(v) && AllStatic(ps)
    case ArraySlice(v, r) => IsStatic(v) && StaticRange(r)
    case AttrRef(a, name, ps) =>
      (match a
       case Scalar(_) => |ps| == 1 && IsStatic(ps[0])
       case Bound(_) => var ref := NameToRef(name); ref.Some? && (ref.value.GenericDecl? || ref.value.SignalDecl?)
       case Extent(_) => true
       case Label(_) => true
       case _ => false)
    case _ => false
  }

  predicate AllStatic(es: seq<Expr>)
    decreases es, 0
  {
    es == [] || (IsStatic(es[0]) && AllStatic(es[1..]))
  }

  predicate StaticRange(r: Range)
    decreases r, 0
  {
    r.Bounds? && IsStatic(r.left) && IsStatic(r.right)
  }

  function LongestStaticPrefix(e: Expr): Expr {
    match e
    case ArrayRef(v, ps) =>
      var p := LongestStaticPrefix(v);
      if p != v then p else if AllStatic(ps) then e else p
    case ArraySlice(v, r) =>
      var p := LongestStaticPrefix(v);
      if p != v then p else if StaticRange(r) then e else p
    case RecordRef(v, _) =>
      var p := LongestStaticPrefix(v);
      if p != v then p else e
    case _ => e
  }

  // ------------------------------------------------------------ build_wait

  // A composite name reported as a whole.
  predicate Reported(e: Expr) {
    NameToRef(e).Some? && IsSignal(NameToRef(e).value) && LongestStaticPrefix(e) == e
  }

  // The names passed to the callback, in order.
  function BuildWait(e: Expr): seq<Expr>
    decreases e, 1
  {
    match e
    case Ref(d) => if IsSignal(d) then [e] else []
    case ExternalName(_) => [e]
    case Literal(_) => []
    case ArrayRef(v, ps) => if Reported(e) then [e] else BuildWait(v) + WaitAll(ps)
    case ArraySlice(v, r) => if Reported(e) then [e] else BuildWait(v) + WaitRange(r)
    case RecordRef(v, _) => if Reported(e) then [e] else BuildWait(v)
    case FCall(_, _, ps) => WaitAll(ps)
    case Aggregate(assocs) => WaitAssocs(assocs)
    case AttrRef(a, name, ps) => (if a.Event? || a.Active? then BuildWait(name) else []) + WaitAll(ps)
    case Convert(_, v) => BuildWait(v)
  }

  function WaitAll(es: seq<Expr>): seq<Expr>
    decreases es, 0
  {
    if es == [] then [] else BuildWait(es[0]) + WaitAll(es[1..])
  }

  function WaitRange(r: Range): seq<Expr>
    decreases r, 0
  {
    match r
    case Bounds(l, h, _) => BuildWait(l) + BuildWait(h)
    case RangeExpr(v) => BuildWait(v)
  }

  function WaitAssocs(assocs: seq<Assoc>): seq<Expr>
    decreases assocs, 0
  {
    if assocs == [] then [] else WaitAssoc(assocs[0]) + WaitAssocs(assocs[1..])
  }

  function WaitAssoc(a: Assoc): seq<Expr>
    decreases a, 0
  {
    match a
    case Named(v, name) => BuildWait(v) + BuildWait(name)
    case Ranged(v, r) => BuildWait(v) + WaitRange(r)
    case Pos(v) => BuildWait(v)
    case Others(v) => BuildWait(v)
  }

  // build_wait_for_target: only the outermost index or range of a target.
  function WaitTarget(e: Expr): seq<Expr> {
    match e
    case ArraySlice(_, r) => WaitRange(r)
    case ArrayRef(_, ps) => WaitAll(ps)
    case _ => []
  }

  function WaitOption(e: Option<Expr>): seq<Expr> {
    if e.None? then [] else BuildWait(e.value)
  }

  function WaitWaves(waves: seq<Waveform>): seq<Expr> {
    if waves == [] then [] else BuildWait(waves[0].value) + WaitWaves(waves[1..])
  }

  function WaitStmt(s: Stmt): seq<Expr>
    decreases s, 1
  {
    match s
    case VarAssign(t, v) => WaitTarget(t) + BuildWait(v)
    case SignalAssign(t, waves) => WaitTarget(t) + WaitWaves(waves)
    case If(conds) => WaitConds(conds)
    case Case(v, alts) => BuildWait(v) + WaitAlts(alts)
    case For(r, _, body) => WaitRange(r) + WaitStmts(body)
    case While(c, body) => WaitOption(c) + WaitStmts(body)
    case Next(c) => WaitOption(c)
    case Exit(c) => WaitOption(c)
    case Assert(c, m) => BuildWait(c) + WaitOption(m)
  }

  function WaitStmts(ss: seq<Stmt>): seq<Expr>
    decreases ss, 0
  {
    if ss == [] then [] else WaitStmt(ss[0]) + WaitStmts(ss[1..])
  }

  function WaitConds(cs: seq<Cond>): seq<Expr>
    decreases cs, 0
  {
    if cs == [] then [] else WaitCond(cs[0]) + WaitConds(cs[1..])
  }

  function WaitCond(c: Cond): seq<Expr>
    decreases c, 0
  {
    WaitOption(c.test) + WaitStmts(c.body)
  }

  function WaitAlts(alts: seq<Alt>): seq<Expr>
    decreases alts, 0
  {
    if alts == [] then [] else WaitAlt(alts[0]) + WaitAlts(alts[1..])
  }

  function WaitAlt(a: Alt): seq<Expr>
    decreases a, 0
  {
    WaitStmts(a.body)
  }
}

// What process bodies compute, for any interpretation of the operations.
module ProcessSemantics {
  import opened Options
  import opened Sensitivity

  // The current value of a signal and the state behind its attributes are read alike.
  datatype Plane = Value | History(attr: Attr)
  datatype SignalId = Declared(id: nat) | External(id: nat)

  // Values are left to the interpretation.  The universe also holds terms, so that
  // an interpretation can record how a value was computed.
  datatype Val =
    | Const(l: Lit)
    | Unset(id: nat, initial: nat)             // the initial value of a variable
    | Quoted(e: Expr)
    | Term(op: Op, args: seq<Val>)
    | Part(path: seq<Step>, mark: nat)
    | Changed(was: Val, path: seq<Step>, now: Val)

  datatype Op =
    | SignalOp(signal: SignalId) | IndexOp | SliceOp(downto: bool) | SelectOp(field: nat) | CallOp(fn: nat)
    | AggregateOp | AssocOp | ScalarOp(attr: nat, name: Expr) | HistoryOp(history: Attr)
    | LabelOp(attr: nat, name: Expr) | ConvertOp(kind: nat) | BoundOp(bound: Attr)
    | RootOp(root: Expr) | ElemOp | BoundsOp(downto: bool) | FieldOp(field: nat) | ShapeOp

  // A location inside an object, down from the declared name.
  datatype Step = Index(at: seq<Val>) | SliceOf(at: seq<Val>, downto: bool) | Field(field: nat)

  type Signals = (Plane, SignalId) -> Val
  datatype Vars = Vars(known: map<nat, Val>, initial: nat)

  datatype Interp = Interp(
    consts: Decl -> Val,                       // static constants, generics, literals, units
    index: (Val, seq<Val>) -> Val,
    slice: (Val, seq<Val>, bool) -> Val,
    select: (Val, nat) -> Val,
    call: (nat, seq<Val>) -> Val,              // functions are pure
    folded: Expr -> Val,                       // a call flagged static has a value fixed at elaboration
    aggregate: seq<seq<Val>> -> Val,
    scalarAttr: (nat, Expr, seq<Val>) -> Val,  // the prefix is a type
    historyAttr: (Attr, Val) -> Val,
    labelAttr: (nat, Expr) -> Val,
    boundAttr: (Attr, Val, seq<Val>) -> Val,   // of the bounds of the prefix
    rootShape: Expr -> Val,                    // the bounds of a declared object
    elemShape: Val -> Val,
    sliceShape: (Val, seq<Val>, bool) -> Val,
    fieldShape: (Val, nat) -> Val,
    valueShape: Val -> Val,                    // the bounds of any other value
    convert: (nat, Val) -> Val,
    truth: Val -> bool,
    chosen: (Val, seq<Expr>) -> bool,          // whether a value is among static choices
    span: (seq<Val>, bool) -> seq<Val>,        // the values a loop parameter takes
    update: (Val, seq<Step>, Val) -> Val)

  datatype Effect =
    | Schedule(target: Option<Decl>, path: seq<Step>, waves: seq<Val>, delays: seq<Option<Val>>)
    | Message(text: Option<Val>)

  datatype Flow = Normal | NextLoop | ExitLoop
  datatype Outcome = Diverged | Done(vars: Vars, effects: seq<Effect>, flow: Flow)

  function Lookup(vars: Vars, id: nat): Val {
    if id in vars.known then vars.known[id] else Unset(id, vars.initial)
  }

  function Store(vars: Vars, id: nat, v: Val): Vars { vars.(known := vars.known[id := v]) }

  predicate Descending(r: Range) { r.Bounds? && r.downto }

  // The value of an expression; for a name, its value in the given plane.
  function Eval(I: Interp, sig: Signals, vars: Vars, p: Plane, e: Expr): Val
    decreases e, 2
  {
    match e
    case Ref(d) => (match d
                    case SignalDecl(id) => sig(p, Declared(id))
                    case VarDecl(id) => Lookup(vars, id)
                    case ConstDecl(id, g) => if g then I.consts(d) else Lookup(vars, id)
                    case _ => I.consts(d))
    case ExternalName(id) => sig(p, External(id))
    case Literal(v) => Const(v)
    case ArrayRef(v, ps) => I.index(Eval(I, sig, vars, p, v), EvalAll(I, sig, vars, ps))
    case ArraySlice(v, r) => I.slice(Eval(I, sig, vars, p, v), EvalRange(I, sig, vars, r), Descending(r))
    case RecordRef(v, f) => I.select(Eval(I, sig, vars, p, v), f)
    case FCall(fn, flagged, ps) => if flagged then I.folded(e) else I.call(fn, EvalAll(I, sig, vars, ps))
    case Aggregate(assocs) => I.aggregate(EvalAssocs(I, sig, vars, assocs))
    case AttrRef(a, name, ps) =>
      (match a
       case Scalar(op) => I.scalarAttr(op, name, EvalAll(I, sig, vars, ps))
       case Bound(_) => I.boundAttr(a, Shape(I, sig, vars, name), EvalAll(I, sig, vars, ps))
       case Extent(_) => I.boundAttr(a, Shape(I, sig, vars, name), EvalAll(I, sig, vars, ps))
       case Label(op) => I.labelAttr(op, name)
       case _ => I.historyAttr(a, Eval(I, sig, vars, History(a), name)))
    case Convert(k, v) => I.convert(k, Eval(I, sig, vars, Value, v))
  }

  // The bounds of what a prefix denotes: those of a declared object are fixed, those
  // of a slice are its range, and those of any other value come with the value.
  function Shape(I: Interp, sig: Signals, vars: Vars, e: Expr): Val
    decreases e, 3
  {
    match e
    case Ref(_) => I.rootShape(e)
    case ExternalName(_) => I.rootShape(e)
    case ArrayRef(v, _) => I.elemShape(Shape(I, sig, vars, v))
    case ArraySlice(v, r) => I.sliceShape(Shape(I, sig, vars, v), EvalRange(I, sig, vars, r), Descending(r))
    case RecordRef(v, f) => I.fieldShape(Shape(I, sig, vars, v), f)
    case _ => I.valueShape(Eval(I, sig, vars, Value, e))
  }

  function EvalAll(I: Interp, sig: Signals, vars: Vars, es: seq<Expr>): seq<Val>
    decreases es, 0
  {
    if es == [] then [] else [Eval(I, sig, vars, Value, es[0])] + EvalAll(I, sig, vars, es[1..])
  }

  function EvalRange(I: Interp, sig: Signals, vars: Vars, r: Range): seq<Val>
    decreases r, 0
  {
    match r
    case Bounds(l, h, _) => [Eval(I, sig, vars, Value, l), Eval(I, sig, vars, Value, h)]
    case RangeExpr(v) => [Eval(I, sig, vars, Value, v)]
  }

  function EvalAssocs(I: Interp, sig: Signals, vars: Vars, assocs: seq<Assoc>): seq<seq<Val>>
    decreases assocs, 0
  {
    if assocs == [] then [] else [EvalAssoc(I, sig, vars, assocs[0])] + EvalAssocs(I, sig, vars, assocs[1..])
  }

  function EvalAssoc(I: Interp, sig: Signals, vars: Vars, a: Assoc): seq<Val>
    decreases a, 0
  {
    match a
    case Named(v, name) => [Eval(I, sig, vars, Value, v), Eval(I, sig, vars, Value, name)]
    case Ranged(v, r) => [Eval(I, sig, vars, Value, v)] + EvalRange(I, sig, vars, r)
    case Pos(v) => [Eval(I, sig, vars, Value, v)]
    case Others(v) => [Eval(I, sig, vars, Value, v)]
  }

  // Where an assignment goes.
  function Path(I: Interp, sig: Signals, vars: Vars, target: Expr): seq<Step> {
    match target
    case ArrayRef(v, ps) => Path(I, sig, vars, v) + [Index(EvalAll(I, sig, vars, ps))]
    case ArraySlice(v, r) => Path(I, sig, vars, v) + [SliceOf(EvalRange(I, sig, vars, r), Descending(r))]
    case RecordRef(v, f) => Path(I, sig, vars, v) + [Field(f)]
    case _ => []
  }

  function EvalOption(I: Interp, sig: Signals, vars: Vars, e: Option<Expr>): Option<Val> {
    if e.None? then None else Some(Eval(I, sig, vars, Value, e.value))
  }

  function WaveValues(I: Interp, sig: Signals, vars: Vars, waves: seq<Waveform>): seq<Val> {
    if waves == [] then [] else [Eval(I, sig, vars, Value, waves[0].value)] + WaveValues(I, sig, vars, waves[1..])
  }

  function WaveDelays(I: Interp, sig: Signals, vars: Vars, waves: seq<Waveform>): seq<Option<Val>> {
    if waves == [] then [] else [EvalOption(I, sig, vars, waves[0].delay)] + WaveDelays(I, sig, vars, waves[1..])
  }

  predicate Holds(I: Interp, sig: Signals, vars: Vars, test: Option<Expr>) {
    test.None? || I.truth(Eval(I, sig, vars, Value, test.value))
  }

  function Assign(I: Interp, vars: Vars, target: Expr, path: seq<Step>, v: Val): Vars {
    match NameToRef(target)
    case Some(VarDecl(id)) => Store(vars, id, if path == [] then v else I.update(Lookup(vars, id), path, v))
    case _ => vars
  }

  function Then(first: Outcome, second: Outcome): Outcome
    requires first.Done?
  {
    if second.Diverged? then Diverged else Done(second.vars, first.effects + second.effects, second.flow)
  }

  function LoopEnd(o: Outcome): Outcome
    requires o.Done?
  {
    Done(o.vars, o.effects, Normal)
  }

  // Fuel only bounds the depth of the recursion: a body that terminates does so
  // with enough fuel.
  function Exec(I: Interp, sig: Signals, fuel: nat, vars: Vars, ss: seq<Stmt>): Outcome
    decreases fuel, 1
  {
    if ss == [] then Done(vars, [], Normal)
    else if fuel == 0 then Diverged
    else
      var o := ExecOne(I, sig, fuel - 1, vars, ss[0]);
      if o.Diverged? || !o.flow.Normal? then o else Then(o, Exec(I, sig, fuel - 1, o.vars, ss[1..]))
  }

  function ExecOne(I: Interp, sig: Signals, fuel: nat, vars: Vars, s: Stmt): Outcome
    decreases fuel, 2
  {
    match s
    case VarAssign(t, e) =>
      Done(Assign(I, vars, t, Path(I, sig, vars, t), Eval(I, sig, vars, Value, e)), [], Normal)
    case SignalAssign(t, waves) =>
      Done(vars, [Schedule(NameToRef(t), Path(I, sig, vars, t), WaveValues(I, sig, vars, waves),
                           WaveDelays(I, sig, vars, waves))], Normal)
    case If(conds) => ExecConds(I, sig, fuel, vars, conds)
    case Case(e, alts) => ExecAlts(I, sig, fuel, vars, Eval(I, sig, vars, Value, e), alts)
    case For(r, id, body) =>
      ExecFor(I, sig, fuel, vars, id, I.span(EvalRange(I, sig, vars, r), Descending(r)), body)
    case While(c, body) => ExecWhile(I, sig, fuel, vars, c, body)
    case Next(c) => Done(vars, [], if Holds(I, sig, vars, c) then NextLoop else Normal)
    case Exit(c) => Done(vars, [], if Holds(I, sig, vars, c) then ExitLoop else Normal)
    case Assert(c, m) =>
      Done(vars, if I.truth(Eval(I, sig, vars, Value, c)) then [] else [Message(EvalOption(I, sig, vars, m))], Normal)
  }

  function ExecConds(I: Interp, sig: Signals, fuel: nat, vars: Vars, cs: seq<Cond>): Outcome
    decreases fuel, 0
  {
    if cs == [] then Done(vars, [], Normal)
    else if fuel == 0 then Diverged
    else if Holds(I, sig, vars, cs[0].test) then Exec(I, sig, fuel - 1, vars, cs[0].body)
    else ExecConds(I, sig, fuel - 1, vars, cs[1..])
  }

  function ExecAlts(I: Interp, sig: Signals, fuel: nat, vars: Vars, v: Val, alts: seq<Alt>): Outcome
    decreases fuel, 0
  {
    if alts == [] then Done(vars, [], Normal)
    else if fuel == 0 then Diverged
    else if alts[0].choices.None? || I.chosen(v, alts[0].choices.value) then Exec(I, sig, fuel - 1, vars, alts[0].body)
    else ExecAlts(I, sig, fuel - 1, vars, v, alts[1..])
  }

  function ExecFor(I: Interp, sig: Signals, fuel: nat, vars: Vars, id: nat, vs: seq<Val>, body: seq<Stmt>): Outcome
    decreases fuel, 0
  {
    if vs == [] then Done(vars, [], Normal)
    else if fuel == 0 then Diverged
    else
      var o := Exec(I, sig, fuel - 1, Store(vars, id, vs[0]), body);
      if o.Diverged? then o
      else if o.flow.ExitLoop? then LoopEnd(o)
      else Then(o, ExecFor(I, sig, fuel - 1, o.vars, id, vs[1..], body))
  }

  function ExecWhile(I: Interp, sig: Signals, fuel: nat, vars: Vars, c: Option<Expr>, body: seq<Stmt>): Outcome
    decreases fuel, 0
  {
    if !Holds(I, sig, vars, c) then Done(vars, [], Normal)
    else if fuel == 0 then Diverged
    else
      var o := Exec(I, sig, fuel - 1, vars, body);
      if o.Diverged? then o
      else if o.flow.ExitLoop? then LoopEnd(o)
      else Then(o, ExecWhile(I, sig, fuel - 1, o.vars, c, body))
  }
}
