// The concurrent hash table (chash) as a state machine: every atomic access is
// one step of one thread, and a run is any sequence of steps of any threads.
module ConcurrentHash {
  import opened Options

  type Key = nat
  type Val = int            // 0 stands for NULL
  type HashFn = Key -> nat

  // The tagged key of a slot.
  datatype Tag = Free | Busy(owner: Option<Key>) | InUse(key: Key) | Moved(was: Option<Key>)
  datatype Slot = Slot(tag: Tag, value: Val)
  type Table = seq<Slot>

  // An operation remembers how many writes its key had seen when it was called.
  datatype Op = Put(key: Key, value: Val, since: nat, id: nat) | Get(key: Key, since: nat)

  // One write to the slot of a key, by the put with the given number.
  datatype Write = Write(value: Val, id: nat)

  datatype Pc =
    | Idle
    | Start(op: Op)                                       // load h->tab
    | Check(op: Op, cur: nat)                             // load h->members
    | Probe(op: Op, cur: nat, slot: nat, k: nat)          // load the tag
    | Claim(op: Op, cur: nat, slot: nat, k: nat)          // CAS free -> busy
    | Fill(op: Op, cur: nat, slot: nat, k: nat)           // write the value
    | Reveal(op: Op, cur: nat, slot: nat, k: nat)         // store busy -> in use
    | Count(op: Op)                                       // add to h->members
    | Seize(op: Op, cur: nat, slot: nat)                  // overwrite: CAS in use -> busy
    | Refill(op: Op, cur: nat, slot: nat)
    | Release(op: Op, cur: nat, slot: nat)
    | Fetch(op: Op, cur: nat, slot: nat)                  // get: read the value
    | WaitTab(op: Op)
    | WaitResizing(op: Op, seen: nat)
    | Grow(op: Op, cur: nat)                              // CAS h->resizing
    | CopyLoad(op: Op, to: nat, i: nat)
    | CopyProbe(op: Op, to: nat, i: nat, key: Key, slot: nat, k: nat)
    | CopyValue(op: Op, to: nat, i: nat, key: Key, slot: nat, k: nat)
    | CopyStore(op: Op, to: nat, i: nat, key: Key, slot: nat, k: nat)
    | CopyMark(op: Op, to: nat, i: nat, found: Option<Key>)
    | Publish(op: Op, to: nat)
    | Fault                                               // an assertion of the source failed

  // `seen` is how many writes the key had seen when the operation returned.
  datatype Return = Return(op: Op, result: Val, seen: nat)

  datatype State = State(
    tables: seq<Table>,
    tab: nat,                    // the published table
    resizing: nat,
    members: nat,
    threads: map<nat, Pc>,
    writes: map<Key, seq<Write>>,  // history: the writes that became visible, key by key
    calls: nat,                    // history: the number of calls of put
    log: seq<Return>)

  datatype Action = CallPut(tid: nat, key: Key, value: Val) | CallGet(tid: nat, key: Key) | Run(tid: nat)

  function PcOf(s: State, t: nat): Pc { if t in s.threads then s.threads[t] else Idle }

  function Log(ws: map<Key, seq<Write>>, key: Key): seq<Write> { if key in ws then ws[key] else [] }

  function WritesOf(s: State, key: Key): seq<Write> { Log(s.writes, key) }

  // The value a key has after its first m writes.
  function ValueAt(ws: seq<Write>, m: nat): Val
    requires m <= |ws|
  {
    if m == 0 then 0 else ws[m - 1].value
  }

  function NewTable(size: nat): Table { seq(size, _ => Slot(Free, 0)) }

  // chash_new
  function Init(size: nat): State { State([NewTable(size)], 0, 0, 0, map[], map[], 0, []) }

  function Goto(s: State, t: nat, pc: Pc): State { s.(threads := s.threads[t := pc]) }

  function Finish(s: State, t: nat, op: Op, result: Val): State {
    Goto(s, t, Idle).(log := s.log + [Return(op, result, |WritesOf(s, op.key)|)])
  }

  function Recorded(ws: map<Key, seq<Write>>, op: Op): map<Key, seq<Write>> {
    if op.Put? then ws[op.key := Log(ws, op.key) + [Write(op.value, op.id)]] else ws
  }

  function Record(s: State, op: Op): State { s.(writes := Recorded(s.writes, op)) }

  function SetSlot(s: State, tab: nat, p: nat, v: Slot): State
    requires tab < |s.tables| && p < |s.tables[tab]|
  {
    s.(tables := s.tables[tab := s.tables[tab][p := v]])
  }

  predicate HasSlot(s: State, cur: nat, slot: nat) { cur < |s.tables| && slot < |s.tables[cur]| }

  function StepProbe(s: State, t: nat, pc: Pc): State
    requires pc.Probe?
  {
    var Probe(op, cur, slot, k) := pc;
    if !HasSlot(s, cur, slot) then Goto(s, t, Fault) else
    match s.tables[cur][slot].tag
    case Busy(_) => Goto(s, t, Start(op))
    case Free => if op.Put? then Goto(s, t, Claim(op, cur, slot, k)) else Finish(s, t, op, 0)
    case InUse(key) =>
      if key != op.key then Goto(s, t, Probe(op, cur, (slot + 1) % |s.tables[cur]|, k + 1))
      else if op.Put? then Goto(s, t, Seize(op, cur, slot))
      else Goto(s, t, Fetch(op, cur, slot))
    case Moved(_) => Goto(s, t, WaitTab(op))
  }

  // The steps of a put that has found its slot, and the value read of a get.
  function StepSlot(s: State, t: nat, pc: Pc): State
    requires pc.Claim? || pc.Fill? || pc.Reveal? || pc.Seize? || pc.Refill? || pc.Release? || pc.Fetch?
  {
    if !HasSlot(s, pc.cur, pc.slot) then Goto(s, t, Fault) else
    var x := s.tables[pc.cur][pc.slot];
    match pc
    case Claim(op, cur, slot, k) =>
      if x.tag == Free then Goto(SetSlot(s, cur, slot, x.(tag := Busy(None))), t, Fill(op, cur, slot, k))
      else Goto(s, t, Start(op))
    case Fill(op, cur, slot, k) =>
      Goto(SetSlot(s, cur, slot, x.(value := if op.Put? then op.value else 0)), t, Reveal(op, cur, slot, k))
    case Reveal(op, cur, slot, _) => Goto(Record(SetSlot(s, cur, slot, x.(tag := InUse(op.key))), op), t, Count(op))
    case Seize(op, cur, slot) =>
      if x.tag == InUse(op.key) then Goto(SetSlot(s, cur, slot, x.(tag := Busy(Some(op.key)))), t,
          Refill(op, cur, slot))
      else Goto(s, t, Start(op))
    case Refill(op, cur, slot) =>
      Goto(Record(SetSlot(s, cur, slot, x.(value := if op.Put? then op.value else 0)), op), t, Release(op, cur, slot))
    case Release(op, cur, slot) =>
      Finish(SetSlot(s, cur, slot, x.(tag := InUse(op.key))), t, op, 0)
    case Fetch(op, _, _) => Finish(s, t, op, x.value)
  }

  // chash_copy_table: the source is the table before `to`.
  function StepCopy(h: HashFn, s: State, t: nat, pc: Pc): State
    requires pc.CopyLoad? || pc.CopyProbe? || pc.CopyValue? || pc.CopyStore? || pc.CopyMark?
  {
    if pc.to == 0 || pc.to >= |s.tables| then Goto(s, t, Fault) else
    var from, to := s.tables[pc.to - 1], s.tables[pc.to];
    match pc
    case CopyLoad(op, n, i) =>
      if i >= |from| then Goto(s, t, Publish(op, n)) else
      (match from[i].tag
       case Busy(_) => s                                   // spin
       case Free => Goto(s, t, CopyMark(op, n, i, None))
       case InUse(key) => if |to| == 0 then Goto(s, t, Fault)
           else Goto(s, t, CopyProbe(op, n, i, key, h(key) % |to|, 0))
       case Moved(_) => Goto(s, t, Fault))                 // should_not_reach_here
    case CopyProbe(op, n, i, key, slot, k) =>
      if slot >= |to| then Goto(s, t, Fault)
      else if to[slot].tag == Free then Goto(s, t, CopyValue(op, n, i, key, slot, k))
      else if to[slot].tag == InUse(key) then Goto(s, t, Fault)   // assert(exist != tagged_key)
      else Goto(s, t, CopyProbe(op, n, i, key, (slot + 1) % |to|, k + 1))
    case CopyValue(op, n, i, key, slot, k) =>
      if slot >= |to| || i >= |from| then Goto(s, t, Fault)
      else Goto(SetSlot(s, n, slot, to[slot].(value := from[i].value)), t, CopyStore(op, n, i, key, slot, k))
    case CopyStore(op, n, i, key, slot, k) =>
      if slot >= |to| then Goto(s, t, Fault)
      else Goto(SetSlot(s, n, slot, to[slot].(tag := InUse(key))), t, CopyMark(op, n, i, Some(key)))
    case CopyMark(op, n, i, found) =>
      if i >= |from| then Goto(s, t, Fault)
      else if from[i].tag == (if found.None? then Free else InUse(found.value)) then
        Goto(SetSlot(s, n - 1, i, from[i].(tag := Moved(found))), t, CopyLoad(op, n, i + 1))
      else if found.Some? then Goto(s, t, Fault)           // assert(marker == FREE_MARKER)
      else Goto(s, t, CopyLoad(op, n, i))
  }

  function Step(h: HashFn, s: State, t: nat): State {
    match PcOf(s, t)
    case Idle => s
    case Fault => s
    case Start(op) => if s.tab >= |s.tables| || |s.tables[s.tab]| == 0 then Goto(s, t, Fault)
                      else if op.Put? then Goto(s, t, Check(op, s.tab))
                      else Goto(s, t, Probe(op, s.tab, h(op.key) % |s.tables[s.tab]|, 0))
    case Check(op, cur) => if cur >= |s.tables| || |s.tables[cur]| == 0 then Goto(s, t, Fault)
                           else if s.members > |s.tables[cur]| / 2 then Goto(s, t, Grow(op, cur))
                           else Goto(s, t, Probe(op, cur, h(op.key) % |s.tables[cur]|, 0))
    case Probe(_, _, _, _) => StepProbe(s, t, PcOf(s, t))
    case Count(op) => Finish(s.(members := s.members + 1), t, op, 0)
    case WaitTab(op) => Goto(s, t, WaitResizing(op, s.tab))
    case WaitResizing(op, seen) => Goto(s, t, if seen == s.resizing then Start(op) else WaitTab(op))
    case Grow(op, cur) =>
      if cur >= |s.tables| then Goto(s, t, Fault)
      else if s.resizing == cur then
        var to := |s.tables|;
        Goto(s.(tables := s.tables + [NewTable(2 * |s.tables[cur]|)], resizing := to), t, CopyLoad(op, to, 0))
      else Goto(s, t, WaitTab(op))
    case Publish(op, to) =>
      if s.resizing != to || to == 0 || s.tab != to - 1 then Goto(s, t, Fault)
      else Goto(s.(tab := to), t, Start(op))
    case CopyLoad(_, _, _) => StepCopy(h, s, t, PcOf(s, t))
    case CopyProbe(_, _, _, _, _, _) => StepCopy(h, s, t, PcOf(s, t))
    case CopyValue(_, _, _, _, _, _) => StepCopy(h, s, t, PcOf(s, t))
    case CopyStore(_, _, _, _, _, _) => StepCopy(h, s, t, PcOf(s, t))
    case CopyMark(_, _, _, _) => StepCopy(h, s, t, PcOf(s, t))
    case _ => StepSlot(s, t, PcOf(s, t))
  }

  function Apply(h: HashFn, s: State, a: Action): State {
    match a
    case CallPut(t, key, value) =>
      if !PcOf(s, t).Idle? then s
      else Goto(s.(calls := s.calls + 1), t, Start(Put(key, value, |WritesOf(s, key)|, s.calls)))
    case CallGet(t, key) =>
      if !PcOf(s, t).Idle? then s else Goto(s, t, Start(Get(key, |WritesOf(s, key)|)))
    case Run(t) => Step(h, s, t)
  }

  function From(h: HashFn, s: State, run: seq<Action>): State
    decreases |run|
  {
    if run == [] then s else From(h, Apply(h, s, run[0]), run[1..])
  }

  // ---------------------------------------------------------------- conditions on runs

  predicate Active(pc: Pc) { !pc.Idle? && !pc.Fault? }

  // The copier has read the value of slot i of table n - 1 and has not yet marked the slot.
  predicate HasValue(pc: Pc, n: nat, i: nat) {
    (pc.CopyStore? || (pc.CopyMark? && pc.found.Some?)) && pc.to == n && pc.i == i
  }

  // No put writes another value over the one that the copier has just read, and the
  // copier does not mark a slot that a put holds.
  ghost predicate Clean(s: State, a: Action) {
    a.Run? ==>
      var pc := PcOf(s, a.tid);
      && (pc.Refill? && pc.op.Put? && HasSlot(s, pc.cur, pc.slot) && s.tables[pc.cur][pc.slot].value != pc.op.value ==>
            forall u :: u in s.threads ==> !HasValue(s.threads[u], pc.cur + 1, pc.slot))
      && (pc.CopyMark? && pc.found.Some? && pc.to > 0 && HasSlot(s, pc.to - 1, pc.i) ==>
            !s.tables[pc.to - 1][pc.i].tag.Busy?)
  }

  ghost predicate CleanRun(h: HashFn, s: State, run: seq<Action>)
    decreases |run|
  {
    run == [] || (Clean(s, run[0]) && CleanRun(h, Apply(h, s, run[0]), run[1..]))
  }

  // The copier has read slot i of table n - 1 as in use and has not yet marked it.
  predicate InWindow(pc: Pc, n: nat, i: nat) {
    ((pc.CopyProbe? || pc.CopyValue?) && pc.to == n && pc.i == i) || HasValue(pc, n, i)
  }

  // A stricter condition, which does not depend on how fast the put and the copier go
  // on: no put seizes a slot while the copier is between reading and marking it.
  ghost predicate Orderly(s: State, a: Action) {
    a.Run? && PcOf(s, a.tid).Seize? ==>
      forall u :: u in s.threads ==> !InWindow(s.threads[u], PcOf(s, a.tid).cur + 1, PcOf(s, a.tid).slot)
  }

  ghost predicate OrderlyRun(h: HashFn, s: State, run: seq<Action>)
    decreases |run|
  {
    run == [] || (Orderly(s, run[0]) && OrderlyRun(h, Apply(h, s, run[0]), run[1..]))
  }
}
