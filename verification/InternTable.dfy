// The lock-free identifier table as a state machine.  Every atomic load, store
// and compare-and-swap of the source is one step of one thread; a run is any
// sequence of steps of any threads.
module InternTable {
  import opened Options

  type Byte = b: int | 0 <= b < 256
  type Bytes = seq<Byte>
  type HashFn = Bytes -> nat

  const INITIAL_SIZE: nat := 1024
  const REPROBE_LIMIT: nat := 20
  const MAX_LEN: nat := 65535

  // A slot is NULL, an identifier, or the identifier (possibly NULL) with the MOVED tag.
  datatype Slot = Empty | Held(id: nat) | Moved(was: Option<nat>)
  type Table = seq<Slot>

  datatype Ident = Ident(bytes: Bytes, hash: nat)

  // The string in pieces and the hash the caller computed for it.
  // byParts: the call came through ident_from_byte_vec, which compares bytes only.
  // uniq: give up when the identifier already exists.
  datatype Request = Request(parts: seq<Bytes>, hash: nat, byParts: bool, uniq: bool)
  datatype Return = Return(request: Request, result: Option<nat>)

  // Where a thread is.  `starting` marks the wait inside get_table.
  datatype Pc =
    | Idle
    | GetTable(req: Request)
    | InitCas(req: Request)
    | InitPublish(req: Request, to: nat)
    | WaitTable(req: Request, starting: bool)
    | WaitResizing(req: Request, starting: bool, seen: Option<nat>)
    | Reload(req: Request)
    | Probe(req: Request, cur: nat, slot: nat, k: nat)
    | Install(req: Request, cur: nat, slot: nat, k: nat)
    | Grow(req: Request, cur: nat)
    | CopyLoad(req: Request, to: nat, i: nat)
    | CopyProbe(req: Request, to: nat, i: nat, id: nat, slot: nat, k: nat)
    | CopyStore(req: Request, to: nat, i: nat, id: nat, slot: nat, k: nat)
    | CopyMark(req: Request, to: nat, i: nat, found: Option<nat>)
    | Publish(req: Request, to: nat)
    | TooLong
    | Fault   // an assertion of the source failed or a NULL table was used

  datatype State = State(
    tables: seq<Table>,        // every table that was ever reachable, never reused
    table: Option<nat>,        // the published table
    resizing: Option<nat>,     // the table being filled, or the published one
    idents: seq<Ident>,        // every identifier that was ever installed
    threads: map<nat, Pc>,
    log: seq<Return>)          // what was returned to callers, in order

  datatype Action = Call(tid: nat, req: Request) | Run(tid: nat)

  function Joined(parts: seq<Bytes>): Bytes {
    if parts == [] then [] else parts[0] + Joined(parts[1..])
  }

  function TotalLength(parts: seq<Bytes>): nat {
    if parts == [] then 0 else |parts[0]| + TotalLength(parts[1..])
  }

  // Compares the pieces in turn with what is left of the identifier.
  predicate SamePieces(bytes: Bytes, parts: seq<Bytes>)
    requires |bytes| == TotalLength(parts)
  {
    parts == [] || (bytes[..|parts[0]|] == parts[0] && SamePieces(bytes[|parts[0]|..], parts[1..]))
  }

  // The test of a probe: by pieces, or with the hash on the whole string.
  predicate Matches(id: Ident, req: Request) {
    && |id.bytes| == TotalLength(req.parts)
    && (if req.byParts then SamePieces(id.bytes, req.parts) else id.hash == req.hash && id.bytes == Joined(req.parts))
  }

  function PcOf(s: State, t: nat): Pc {
    if t in s.threads then s.threads[t] else Idle
  }

  const INIT: State := State([], None, None, [], map[], [])

  function NewTable(size: nat): Table { seq(size, _ => Empty) }

  function Goto(s: State, t: nat, pc: Pc): State {
    s.(threads := s.threads[t := pc])
  }

  function Finish(s: State, t: nat, req: Request, result: Option<nat>): State {
    Goto(s, t, Idle).(log := s.log + [Return(req, result)])
  }

  function SetSlot(s: State, tab: nat, p: nat, v: Slot): State
    requires tab < |s.tables| && p < |s.tables[tab]|
  {
    s.(tables := s.tables[tab := s.tables[tab][p := v]])
  }

  // Start probing the table that was just loaded.
  function StartProbe(s: State, t: nat, req: Request, cur: nat): State {
    if cur < |s.tables| && |s.tables[cur]| > 0 then
      Goto(s, t, Probe(req, cur, req.hash % |s.tables[cur]|, 0))
    else
      Goto(s, t, Fault)
  }

  function StepProbe(s: State, t: nat, pc: Pc): State
    requires pc.Probe?
  {
    var Probe(req, cur, slot, k) := pc;
    if cur >= |s.tables| || slot >= |s.tables[cur]| then Goto(s, t, Fault) else
    match s.tables[cur][slot]
    case Moved(_) => Goto(s, t, WaitTable(req, false))
    case Empty => Goto(s, t, Install(req, cur, slot, k))
    case Held(id) =>
      if id >= |s.idents| then Goto(s, t, Fault)
      else if Matches(s.idents[id], req) then
        Finish(s, t, req, if req.uniq then None else Some(id))
      else if k + 1 == REPROBE_LIMIT then Goto(s, t, Grow(req, cur))
      else Goto(s, t, Probe(req, cur, (slot + (k + 1)) % |s.tables[cur]|, k + 1))
  }

  function StepInstall(s: State, t: nat, pc: Pc): State
    requires pc.Install?
  {
    var Install(req, cur, slot, k) := pc;
    if TotalLength(req.parts) >= MAX_LEN then Goto(s, t, TooLong)
    else if cur >= |s.tables| || slot >= |s.tables[cur]| then Goto(s, t, Fault)
    else if s.tables[cur][slot] == Empty then
      var id := |s.idents|;
      Finish(SetSlot(s, cur, slot, Held(id)).(idents := s.idents + [Ident(Joined(req.parts), req.hash)]), t, req,
          Some(id))
    else Goto(s, t, GetTable(req))
  }

  function StepGrow(s: State, t: nat, pc: Pc): State
    requires pc.Grow?
  {
    var Grow(req, cur) := pc;
    if cur >= |s.tables| then Goto(s, t, Fault)
    else if s.resizing == Some(cur) then
      var to := |s.tables|;
      Goto(s.(tables := s.tables + [NewTable(2 * |s.tables[cur]|)], resizing := Some(to)), t, CopyLoad(req, to, 0))
    else Goto(s, t, WaitTable(req, false))
  }

  // copy_table: the source table is the one before `to`.
  function StepCopy(s: State, t: nat, pc: Pc): State
    requires pc.CopyLoad? || pc.CopyProbe? || pc.CopyStore? || pc.CopyMark?
  {
    if pc.to == 0 || pc.to >= |s.tables| then Goto(s, t, Fault) else
    var from, to := s.tables[pc.to - 1], s.tables[pc.to];
    match pc
    case CopyLoad(req, n, i) =>
      if i >= |from| then Goto(s, t, Publish(req, n)) else
      (match from[i]
       case Moved(_) => Goto(s, t, Fault)   // assert(pointer_tag(id) != MOVED_TAG)
       case Empty => Goto(s, t, CopyMark(req, n, i, None))
       case Held(id) =>
         if id >= |s.idents| || |to| == 0 then Goto(s, t, Fault)
         else Goto(s, t, CopyProbe(req, n, i, id, s.idents[id].hash % |to|, 0)))
    case CopyProbe(req, n, i, id, slot, k) =>
      if slot >= |to| then Goto(s, t, Fault)
      else if to[slot] == Empty then Goto(s, t, CopyStore(req, n, i, id, slot, k))
      else if to[slot] == Held(id) then Goto(s, t, Fault)   // assert(exist != id)
      else Goto(s, t, CopyProbe(req, n, i, id, (slot + (k + 1)) % |to|, k + 1))
    case CopyStore(req, n, i, id, slot, k) =>
      if slot >= |to| then Goto(s, t, Fault)
      else Goto(SetSlot(s, n, slot, Held(id)), t, CopyMark(req, n, i, Some(id)))
    case CopyMark(req, n, i, found) =>
      if i >= |from| then Goto(s, t, Fault)
      else if from[i] == (if found.None? then Empty else Held(found.value)) then
        Goto(SetSlot(s, n - 1, i, Moved(found)), t, CopyLoad(req, n, i + 1))
      else Goto(s, t, CopyLoad(req, n, i))
  }

  // finish_resizing; get_table then uses the table it has just published.
  function StepPublish(s: State, t: nat, pc: Pc): State
    requires pc.InitPublish? || pc.Publish?
  {
    var prev := if pc.to == 0 then None else Some(pc.to - 1);
    if s.resizing != Some(pc.to) || s.table != prev then Goto(s, t, Fault)
    else
      var s' := s.(table := Some(pc.to));
      if pc.Publish? then Goto(s', t, GetTable(pc.req)) else StartProbe(s', t, pc.req, pc.to)
  }

  function Step(s: State, t: nat): State {
    match PcOf(s, t)
    case Idle => s
    case TooLong => s
    case Fault => s
    case GetTable(req) =>
      if s.table.None? then Goto(s, t, InitCas(req)) else StartProbe(s, t, req, s.table.value)
    case InitCas(req) =>
      if s.resizing.None? then
        var to := |s.tables|;
        Goto(s.(tables := s.tables + [NewTable(INITIAL_SIZE)], resizing := Some(to)), t, InitPublish(req, to))
      else Goto(s, t, WaitTable(req, true))
    case WaitTable(req, starting) => Goto(s, t, WaitResizing(req, starting, s.table))
    case WaitResizing(req, starting, seen) =>
      if seen != s.resizing then Goto(s, t, WaitTable(req, starting))
      else Goto(s, t, if starting then Reload(req) else GetTable(req))
    case Reload(req) =>
      if s.table.None? then Goto(s, t, Fault) else StartProbe(s, t, req, s.table.value)
    case Probe(_, _, _, _) => StepProbe(s, t, PcOf(s, t))
    case Install(_, _, _, _) => StepInstall(s, t, PcOf(s, t))
    case Grow(_, _) => StepGrow(s, t, PcOf(s, t))
    case InitPublish(_, _) => StepPublish(s, t, PcOf(s, t))
    case Publish(_, _) => StepPublish(s, t, PcOf(s, t))
    case _ => StepCopy(s, t, PcOf(s, t))
  }

  function Apply(s: State, a: Action): State {
    match a
    case Call(t, req) => if PcOf(s, t).Idle? then Goto(s, t, GetTable(req)) else s
    case Run(t) => Step(s, t)
  }

  function After(run: seq<Action>): State {
    if run == [] then INIT else Apply(After(run[..|run| - 1]), run[|run| - 1])
  }

  // Callers hand over the hash of the whole string.
  predicate Proper(h: HashFn, req: Request) { req.hash == h(Joined(req.parts)) }

  ghost predicate ProperRun(h: HashFn, run: seq<Action>) {
    forall n :: 0 <= n < |run| && run[n].Call? ==> Proper(h, run[n].req)
  }
}
