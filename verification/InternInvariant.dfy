// The inductive invariant of the identifier table.
module InternInvariant {
  import opened Options
  import opened Probing
  import opened InternTable

  // ---------------------------------------------------------------- slots

  function SlotId(x: Slot): Option<nat> {
    match x
    case Empty => None
    case Held(i) => Some(i)
    case Moved(w) => w
  }

  // A slot only ever goes NULL -> identifier -> MOVED, keeping its identifier.
  predicate SlotLe(a: Slot, b: Slot) {
    a == b || a == Empty || (a.Held? && b == Moved(Some(a.id)))
  }

  // p is the k-th slot tried for the hash and no earlier one is NULL.
  ghost predicate ReachAt(tab: Table, hash: nat, p: nat, k: nat)
    requires |tab| > 0
  {
    && p == PathSlot(hash, k, |tab|)
    && forall j: nat :: j < k ==> tab[PathSlot(hash, j, |tab|)] != Empty
  }

  ghost predicate Reachable(tab: Table, hash: nat, p: nat)
    requires |tab| > 0
  {
    exists k: nat :: ReachAt(tab, hash, p, k)
  }

  ghost predicate Contains(tab: Table, id: nat) {
    exists p :: 0 <= p < |tab| && SlotId(tab[p]) == Some(id)
  }

  ghost predicate TableOk(idents: seq<Ident>, tab: Table)
    requires |tab| > 0
  {
    && (forall p :: 0 <= p < |tab| && SlotId(tab[p]).Some? ==>
          SlotId(tab[p]).value < |idents| && Reachable(tab, idents[SlotId(tab[p]).value].hash, p))
    && (forall p, q :: 0 <= p < q < |tab| && SlotId(tab[p]).Some? ==> SlotId(tab[p]) != SlotId(tab[q]))
  }

  // ---------------------------------------------------------------- global part

  ghost predicate Shape(s: State) {
    && (forall n :: 0 <= n < |s.tables| ==> |s.tables[n]| > 0)
    && (s.tables != [] ==> |s.tables[0]| == INITIAL_SIZE)
    && (forall n :: 0 < n < |s.tables| ==> |s.tables[n]| == 2 * |s.tables[n - 1]|)
    && s.resizing == (if s.tables == [] then None else Some(|s.tables| - 1))
    && (match s.table
        case None => |s.tables| <= 1
        case Some(n) => n < |s.tables| <= n + 2)
  }

  ghost predicate AllMoved(tab: Table) {
    forall p :: 0 <= p < |tab| ==> tab[p].Moved?
  }

  ghost predicate NoneMoved(tab: Table) {
    forall p :: 0 <= p < |tab| ==> !tab[p].Moved?
  }

  ghost predicate AllEmpty(tab: Table) {
    forall p :: 0 <= p < |tab| ==> tab[p] == Empty
  }

  ghost predicate Tables(s: State)
    requires Shape(s)
  {
    match s.table
    case None => s.idents == [] && forall n :: 0 <= n < |s.tables| ==> AllEmpty(s.tables[n])
    case Some(cur) =>
      && (forall n :: 0 <= n < cur ==> AllMoved(s.tables[n]))
      && (s.resizing == s.table ==> NoneMoved(s.tables[cur]))
      && TableOk(s.idents, s.tables[cur])
      && (forall id :: 0 <= id < |s.idents| ==> Contains(s.tables[cur], id))
  }

  ghost predicate Canonical(h: HashFn, s: State) {
    && (forall i :: 0 <= i < |s.idents| ==> s.idents[i].hash == h(s.idents[i].bytes))
    && (forall i, j :: 0 <= i < j < |s.idents| ==> s.idents[i].bytes != s.idents[j].bytes)
  }

  ghost predicate LogOk(s: State) {
    forall n :: 0 <= n < |s.log| ==> ReturnOk(s, s.log[n])
  }

  ghost predicate ReturnOk(s: State, r: Return) {
    r.result.Some? ==> r.result.value < |s.idents| && s.idents[r.result.value].bytes == Joined(r.request.parts)
  }

  // ---------------------------------------------------------------- threads

  predicate Resizer(pc: Pc) {
    pc.InitPublish? || pc.CopyLoad? || pc.CopyProbe? || pc.CopyStore? || pc.CopyMark? || pc.Publish?
  }

  ghost predicate Published(s: State, n: nat) {
    s.table.Some? && n <= s.table.value
  }

  // The first k slots tried for the request hold identifiers with other bytes.
  ghost predicate Missed(h: HashFn, s: State, tab: Table, bytes: Bytes, k: nat)
    requires |tab| > 0
  {
    forall j: nat :: j < k ==>
      var found := SlotId(tab[PathSlot(h(bytes), j, |tab|)]);
      found.Some? && found.value < |s.idents| && s.idents[found.value].bytes != bytes
  }

  predicate Requesting(pc: Pc) { !pc.Idle? && !pc.TooLong? && !pc.Fault? }

  ghost predicate ThreadOk(h: HashFn, s: State, pc: Pc)
    requires Shape(s)
  {
    PlaceOk(h, s, pc) && (Requesting(pc) ==> Proper(h, pc.req))
  }

  ghost predicate PlaceOk(h: HashFn, s: State, pc: Pc)
    requires Shape(s)
  {
    match pc
    case WaitTable(_, starting) => starting ==> s.resizing.Some?
    case WaitResizing(_, starting, seen) => (starting ==> s.resizing.Some?) && (seen.Some? ==> s.table.Some?)
    case Reload(_) => s.table.Some?
    case Probe(req, cur, slot, k) =>
      && Published(s, cur) && slot == PathSlot(req.hash, k, |s.tables[cur]|) && k < REPROBE_LIMIT
      && Missed(h, s, s.tables[cur], Joined(req.parts), k)
    case Install(req, cur, slot, k) =>
      && Published(s, cur) && slot == PathSlot(req.hash, k, |s.tables[cur]|)
      && Missed(h, s, s.tables[cur], Joined(req.parts), k)
    case Grow(_, cur) => Published(s, cur)
    case Fault => false
    case _ => true
  }

  ghost predicate Below(tab: Table, n: nat, id: nat) {
    exists p :: 0 <= p < n <= |tab| && SlotId(tab[p]) == Some(id)
  }

  // Slots of `from` below i are marked, and `dest` holds what they held, plus `extra`.
  ghost predicate Copied(idents: seq<Ident>, from: Table, dest: Table, i: nat, extra: Option<nat>)
    requires |dest| > 0
  {
    && i <= |from|
    && (forall p :: 0 <= p < i ==> from[p].Moved?)
    && (forall p :: i <= p < |from| ==> !from[p].Moved?)
    && TableOk(idents, dest)
    && NoneMoved(dest)
    && (forall p :: 0 <= p < i && SlotId(from[p]).Some? ==> Contains(dest, SlotId(from[p]).value))
    && (extra.Some? ==> Contains(dest, extra.value))
    && (forall q :: 0 <= q < |dest| && dest[q] != Empty ==>
        dest[q].Held? && (Some(dest[q].id) == extra || Below(from, i, dest[q].id)))
  }

  // The copier tries slot k of the destination after finding the first k taken.
  ghost predicate Seeking(idents: seq<Ident>, from: Table, dest: Table, i: nat, id: nat, slot: nat, k: nat)
    requires |dest| > 0
  {
    && i < |from| && from[i] == Held(id) && id < |idents|
    && ReachAt(dest, idents[id].hash, slot, k)
    && k < |dest|
  }

  ghost predicate CopierOk(idents: seq<Ident>, from: Table, dest: Table, pc: Pc)
    requires |dest| > 0
  {
    match pc
    case CopyLoad(_, _, i) => Copied(idents, from, dest, i, None)
    case CopyProbe(_, _, i, id, slot, k) => Copied(idents, from, dest, i, None)
        && Seeking(idents, from, dest, i, id, slot, k)
    case CopyStore(_, _, i, id, slot, k) =>
      Copied(idents, from, dest, i, None) && Seeking(idents, from, dest, i, id, slot, k) && dest[slot] == Empty
    case CopyMark(_, _, i, found) =>
      && Copied(idents, from, dest, i, found) && i < |from|
      && (found.Some? ==> from[i] == Held(found.value))
    case Publish(_, _) => Copied(idents, from, dest, |from|, None)
    case _ => false
  }

  ghost predicate ResizerOk(s: State, pc: Pc)
    requires Shape(s) && Resizer(pc)
  {
    && s.resizing == Some(pc.to)
    && s.table == (if pc.to == 0 then None else Some(pc.to - 1))
    && (if pc.to == 0 then pc.InitPublish? else CopierOk(s.idents, s.tables[pc.to - 1], s.tables[pc.to], pc))
  }

  ghost predicate Threads(h: HashFn, s: State)
    requires Shape(s)
  {
    && (forall t :: t in s.threads ==> ThreadOk(h, s, s.threads[t]))
    && (forall t :: t in s.threads && Resizer(s.threads[t]) ==> ResizerOk(s, s.threads[t]))
    && (forall t, u :: t in s.threads && u in s.threads && Resizer(s.threads[t]) && Resizer(s.threads[u]) ==> t == u)
  }

  ghost predicate Inv(h: HashFn, s: State) {
    Shape(s) && Tables(s) && Canonical(h, s) && LogOk(s) && Threads(h, s)
  }

  // ---------------------------------------------------------------- monotonicity

  ghost predicate TableLe(a: Table, b: Table) {
    |a| == |b| && forall p :: 0 <= p < |a| ==> SlotLe(a[p], b[p])
  }

  // What any number of steps may change.
  ghost predicate Evolves(s: State, s': State) {
    && |s.tables| <= |s'.tables|
    && (forall n :: 0 <= n < |s.tables| ==> TableLe(s.tables[n], s'.tables[n]))
    && s.idents <= s'.idents
    && s.log <= s'.log
    && (s.resizing.Some? ==> s'.resizing.Some?)
    && (s.table.Some? ==> s'.table.Some? && s.table.value <= s'.table.value)
  }

  // Only the published table has slots that are not marked.
  lemma CurrentTable(s: State, cur: nat, slot: nat)
    requires Shape(s) && Tables(s) && Published(s, cur) && slot < |s.tables[cur]| && !s.tables[cur][slot].Moved?
    ensures cur == s.table.value
  {
    assert forall n :: 0 <= n < s.table.value ==> AllMoved(s.tables[n]);
  }

  lemma ThreadStable(h: HashFn, s: State, s': State, pc: Pc)
    requires Shape(s) && Shape(s') && Evolves(s, s') && ThreadOk(h, s, pc)
    ensures ThreadOk(h, s', pc)
  {
    if pc.Probe? || pc.Install? {
      var a, b := s.tables[pc.cur], s'.tables[pc.cur];
      assert TableLe(a, b);
    }
  }

  lemma ReachStable(a: Table, b: Table, hash: nat, p: nat)
    requires TableLe(a, b) && |a| > 0 && Reachable(a, hash, p)
    requires forall q :: 0 <= q < |a| && b[q] == Empty ==> a[q] == Empty
    ensures Reachable(b, hash, p)
  {
    var k: nat :| ReachAt(a, hash, p, k);
    assert ReachAt(b, hash, p, k);
  }

  // ---------------------------------------------------------------- one step

  lemma LogThreads(h: HashFn, s: State, s': State, t: nat, pc: Pc)
    requires Shape(s) && Threads(h, s) && ThreadOk(h, s, pc)
    requires Resizer(pc) ==> Resizer(PcOf(s, t)) && ResizerOk(s, pc)
    requires s' == s.(threads := s.threads[t := pc], log := s'.log) && s.log <= s'.log
    ensures Shape(s') && Evolves(s, s') && Threads(h, s')
  {
    forall u | u in s'.threads ensures ThreadOk(h, s', s'.threads[u]) {
      ThreadStable(h, s, s', if u == t then pc else s.threads[u]);
    }
  }

  // A step that changes no shared memory; it may return something to its caller.
  lemma LogStep(h: HashFn, s: State, t: nat, pc: Pc, log: seq<Return>)
    requires Inv(h, s) && ThreadOk(h, s, pc) && s.log <= log
    requires forall n :: |s.log| <= n < |log| ==> ReturnOk(s, log[n])
    requires Resizer(pc) ==> Resizer(PcOf(s, t)) && ResizerOk(s, pc)
    ensures var s' := Goto(s, t, pc).(log := log); Inv(h, s') && Evolves(s, s')
  {
    var s' := Goto(s, t, pc).(log := log);
    LogThreads(h, s, s', t, pc);
    assert LogOk(s');
  }

  lemma LocalStep(h: HashFn, s: State, t: nat, pc: Pc)
    requires Inv(h, s) && ThreadOk(h, s, pc)
    requires Resizer(pc) ==> Resizer(PcOf(s, t)) && ResizerOk(s, pc)
    ensures Inv(h, Goto(s, t, pc)) && Evolves(s, Goto(s, t, pc))
  {
    LogStep(h, s, t, pc, s.log);
    assert Goto(s, t, pc).(log := s.log) == Goto(s, t, pc);
  }

  lemma FinishStep(h: HashFn, s: State, t: nat, req: Request, result: Option<nat>)
    requires Inv(h, s) && ReturnOk(s, Return(req, result))
    ensures Inv(h, Finish(s, t, req, result)) && Evolves(s, Finish(s, t, req, result))
  {
    LogStep(h, s, t, Idle, s.log + [Return(req, result)]);
  }

  // Storing an identifier at the end of its probe path keeps a table well formed.
  lemma TableOkInsert(idents: seq<Ident>, idents': seq<Ident>, tab: Table, p: nat, id: nat, k: nat)
    requires |tab| > 0 && TableOk(idents, tab) && idents <= idents' && id < |idents'|
    requires p < |tab| && tab[p] == Empty && !Contains(tab, id)
    requires ReachAt(tab, idents'[id].hash, p, k)
    ensures TableOk(idents', tab[p := Held(id)])
  {
    var tab' := tab[p := Held(id)];
    assert TableLe(tab, tab');
    forall q | 0 <= q < |tab'| && SlotId(tab'[q]).Some?
      ensures SlotId(tab'[q]).value < |idents'| && Reachable(tab', idents'[SlotId(tab'[q]).value].hash, q)
    {
      if q == p {
        assert ReachAt(tab', idents'[id].hash, p, k);
      } else {
        ReachStable(tab, tab', idents[SlotId(tab[q]).value].hash, q);
      }
    }
  }

  // No identifier with the requested bytes exists when the install CAS succeeds.
  lemma NotPresent(h: HashFn, s: State, bytes: Bytes, slot: nat, k: nat, id: nat)
    requires Shape(s) && Tables(s) && Canonical(h, s) && s.table.Some?
    requires var tab := s.tables[s.table.value];
             slot == PathSlot(h(bytes), k, |tab|) && tab[slot] == Empty && Missed(h, s, tab, bytes, k)
    requires id < |s.idents|
    ensures s.idents[id].bytes != bytes
  {
    var tab := s.tables[s.table.value];
    assert Contains(tab, id);
    var p :| 0 <= p < |tab| && SlotId(tab[p]) == Some(id);
    assert Reachable(tab, s.idents[id].hash, p);
    var m: nat :| ReachAt(tab, s.idents[id].hash, p, m);
  }

  lemma InstallStep(h: HashFn, s: State, t: nat)
    requires Inv(h, s) && PcOf(s, t).Install?
    ensures Inv(h, Step(s, t)) && Evolves(s, Step(s, t))
  {
    var pc := PcOf(s, t);
    var Install(req, cur, slot, k) := pc;
    if TotalLength(req.parts) >= MAX_LEN {
      LocalStep(h, s, t, TooLong);
    } else if s.tables[cur][slot] != Empty {
      LocalStep(h, s, t, GetTable(req));
    } else {
      CurrentTable(s, cur, slot);
      var tab, id := s.tables[cur], |s.idents|;
      var s1 := SetSlot(s, cur, slot, Held(id)).(idents := s.idents + [Ident(Joined(req.parts), req.hash)]);
      forall i | 0 <= i < |s.idents| ensures s.idents[i].bytes != Joined(req.parts) {
        NotPresent(h, s, Joined(req.parts), slot, k, i);
      }
      assert ReachAt(tab, req.hash, slot, k);
      TableOkInsert(s.idents, s1.idents, tab, slot, id, k);
      InstallTables(s, s1, cur, slot, id);
      assert Canonical(h, s1);
      InstallThreads(h, s, s1, cur, slot);
      FinishStep(h, s1, t, req, Some(id));
    }
  }

  lemma InstallTables(s: State, s1: State, cur: nat, slot: nat, id: nat)
    requires Shape(s) && Tables(s) && s.table == Some(cur) && slot < |s.tables[cur]| && s.tables[cur][slot] == Empty
    requires id == |s.idents| && s.idents <= s1.idents && |s1.idents| == id + 1
    requires s1 == SetSlot(s, cur, slot, Held(id)).(idents := s1.idents)
    requires TableOk(s1.idents, s1.tables[cur])
    ensures Shape(s1) && Tables(s1)
  {
    var tab, tab' := s.tables[cur], s1.tables[cur];
    forall i | 0 <= i < |s1.idents| ensures Contains(tab', i) {
      if i == id {
        assert SlotId(tab'[slot]) == Some(i);
      } else {
        assert Contains(tab, i);
        var p :| 0 <= p < |tab| && SlotId(tab[p]) == Some(i);
        assert SlotId(tab'[p]) == Some(i);
      }
    }
  }

  lemma InstallThreads(h: HashFn, s: State, s1: State, cur: nat, slot: nat)
    requires Inv(h, s) && Shape(s1) && s.table == Some(cur)
    requires slot < |s.tables[cur]| && s.tables[cur][slot] == Empty && s.idents <= s1.idents
    requires s1 == SetSlot(s, cur, slot, Held(|s.idents|)).(idents := s1.idents)
    ensures Threads(h, s1) && Evolves(s, s1)
  {
    forall u | u in s1.threads ensures ThreadOk(h, s1, s1.threads[u]) {
      ThreadStable(h, s, s1, s.threads[u]);
    }
    forall u | u in s1.threads && Resizer(s1.threads[u]) ensures ResizerOk(s1, s1.threads[u]) {
      var pc := s.threads[u];
      assert ResizerOk(s, pc);
      CopierFrame(s.idents, s1.idents, s.tables[cur], s.tables[pc.to], slot, Held(|s.idents|), pc);
    }
  }

  lemma TableOkMore(idents: seq<Ident>, idents': seq<Ident>, tab: Table)
    requires |tab| > 0 && idents <= idents' && TableOk(idents, tab)
    ensures TableOk(idents', tab)
  {
  }

  // Copying does not depend on the part of the source table not yet reached.
  lemma CopiedFrame(idents: seq<Ident>, idents': seq<Ident>, from: Table, dest: Table, i: nat, extra: Option<nat>,
      slot: nat, v: Slot)
    requires |dest| > 0 && Copied(idents, from, dest, i, extra) && idents <= idents'
    requires slot < |from| && from[slot] == Empty && !v.Moved?
    ensures Copied(idents', from[slot := v], dest, i, extra)
  {
    var from' := from[slot := v];
    TableOkMore(idents, idents', dest);
    forall q | 0 <= q < |dest| && dest[q] != Empty && Some(dest[q].id) != extra ensures Below(from', i, dest[q].id) {
      var p :| 0 <= p < i <= |from| && SlotId(from[p]) == Some(dest[q].id);
      assert from'[p] == from[p];
    }
  }

  lemma CopierFrame(idents: seq<Ident>, idents': seq<Ident>, from: Table, dest: Table, slot: nat, v: Slot, pc: Pc)
    requires |dest| > 0 && CopierOk(idents, from, dest, pc) && idents <= idents'
    requires slot < |from| && from[slot] == Empty && !v.Moved?
    ensures CopierOk(idents', from[slot := v], dest, pc)
  {
    var i := if pc.Publish? then |from| else pc.i;
    CopiedFrame(idents, idents', from, dest, i, if pc.CopyMark? then pc.found else None, slot, v);
  }

  lemma DoublePow2(size: nat)
    requires IsPow2(size)
    ensures IsPow2(2 * size)
  {
    var n: nat :| size == Pow2(n);
    assert 2 * size == Pow2(n + 1);
  }

  lemma InitialPow2()
    ensures IsPow2(INITIAL_SIZE)
  {
    assert Pow2(5) == 32;
    assert Pow2(10) == 1024;
  }

  lemma {:induction false} SizesArePowers(s: State, n: nat)
    requires Shape(s) && n < |s.tables|
    ensures IsPow2(|s.tables[n]|)
  {
    if n == 0 {
      InitialPow2();
    } else {
      SizesArePowers(s, n - 1);
      DoublePow2(|s.tables[n - 1]|);
    }
  }

  // The winning CAS on `resizing` makes its thread the only resizer.
  lemma NewTableStep(h: HashFn, s: State, t: nat, size: nat, pc: Pc)
    requires Inv(h, s) && s.resizing == s.table
    requires size == if s.tables == [] then INITIAL_SIZE else 2 * |s.tables[|s.tables| - 1]|
    requires if s.tables == [] then pc.InitPublish? && pc.to == 0 else pc.CopyLoad? && pc.i == 0 && pc.to == |s.tables|
    requires Proper(h, pc.req)
    ensures var s' := Goto(s.(tables := s.tables + [NewTable(size)], resizing := Some(|s.tables|)), t, pc);
            Inv(h, s') && Evolves(s, s')
  {
    var s' := Goto(s.(tables := s.tables + [NewTable(size)], resizing := Some(|s.tables|)), t, pc);
    NewTableTables(s, s', size, pc);
    NewTableThreads(h, s, s', t, pc);
  }

  lemma NewTableTables(s: State, s': State, size: nat, pc: Pc)
    requires Shape(s) && Tables(s) && s.resizing == s.table
    requires size == if s.tables == [] then INITIAL_SIZE else 2 * |s.tables[|s.tables| - 1]|
    requires if s.tables == [] then pc.InitPublish? && pc.to == 0 else pc.CopyLoad? && pc.i == 0 && pc.to == |s.tables|
    requires s' == s.(tables := s.tables + [NewTable(size)], resizing := Some(|s.tables|), threads := s'.threads)
    ensures Shape(s') && Tables(s') && Evolves(s, s') && ResizerOk(s', pc)
  {
    NewTableShape(s, s', size);
    if pc.CopyLoad? {
      NothingCopied(s.idents, s.tables[pc.to - 1], size);
    }
  }

  lemma NewTableShape(s: State, s': State, size: nat)
    requires Shape(s) && Tables(s) && s.resizing == s.table
    requires size == if s.tables == [] then INITIAL_SIZE else 2 * |s.tables[|s.tables| - 1]|
    requires s' == s.(tables := s.tables + [NewTable(size)], resizing := Some(|s.tables|), threads := s'.threads)
    ensures Shape(s') && Tables(s') && Evolves(s, s')
  {
    assert forall n :: 0 <= n < |s.tables| ==> s'.tables[n] == s.tables[n];
  }

  lemma NothingCopied(idents: seq<Ident>, from: Table, size: nat)
    requires size > 0 && NoneMoved(from)
    ensures Copied(idents, from, NewTable(size), 0, None)
  {
  }

  lemma NewTableThreads(h: HashFn, s: State, s': State, t: nat, pc: Pc)
    requires Shape(s) && Threads(h, s) && s.resizing == s.table && Shape(s') && Evolves(s, s')
    requires s'.threads == s.threads[t := pc] && (pc.InitPublish? || pc.CopyLoad?) && ResizerOk(s', pc)
             && Proper(h, pc.req)
    ensures Threads(h, s')
  {
    forall u | u in s.threads ensures !Resizer(s.threads[u]) {
      assert Resizer(s.threads[u]) ==> ResizerOk(s, s.threads[u]);
    }
    forall u | u in s'.threads ensures ThreadOk(h, s', s'.threads[u]) {
      if u != t { ThreadStable(h, s, s', s.threads[u]); }
    }
  }

  lemma GrowStep(h: HashFn, s: State, t: nat)
    requires Inv(h, s) && PcOf(s, t).Grow?
    ensures Inv(h, Step(s, t)) && Evolves(s, Step(s, t))
  {
    var Grow(req, cur) := PcOf(s, t);
    if s.resizing == Some(cur) {
      NewTableStep(h, s, t, 2 * |s.tables[cur]|, CopyLoad(req, |s.tables|, 0));
    } else {
      LocalStep(h, s, t, WaitTable(req, false));
    }
  }

  // The copier always finds a NULL slot before it has tried the whole table.
  lemma FreeSlotRemains(idents: seq<Ident>, from: Table, dest: Table, i: nat, id: nat, slot: nat, k: nat)
    requires |dest| == 2 * |from| > 0 && IsPow2(|dest|)
    requires Copied(idents, from, dest, i, None) && Seeking(idents, from, dest, i, id, slot, k) && dest[slot] != Empty
    ensures k + 1 < |dest|
  {
    var n: nat :| |dest| == Pow2(n);
    var q := EmptySlot(idents, from, dest, i);
    TriangularVisitsAll(idents[id].hash, n, q);
  }

  // A table twice as large as the one copied into it is never full.
  lemma EmptySlot(idents: seq<Ident>, from: Table, dest: Table, i: nat) returns (q: nat)
    requires |dest| == 2 * |from| > 0 && Copied(idents, from, dest, i, None)
    ensures q < |dest| && dest[q] == Empty
  {
    q := 0;
    if e :| 0 <= e < |dest| && dest[e] == Empty {
      q := e;
    } else {
      var home := HomeSlots(idents, from, dest, i, |dest|);
      Pigeonhole(home, |from|);
    }
  }

  lemma {:induction false} HomeSlots(idents: seq<Ident>, from: Table, dest: Table, i: nat,
      n: nat) returns (home: seq<nat>)
    requires |dest| > 0 && Copied(idents, from, dest, i, None)
    requires n <= |dest| && forall q :: 0 <= q < |dest| ==> dest[q] != Empty
    ensures |home| == n
    ensures forall q :: 0 <= q < n ==> home[q] < |from| && SlotId(from[home[q]]) == SlotId(dest[q])
  {
    if n == 0 {
      home := [];
    } else {
      home := HomeSlots(idents, from, dest, i, n - 1);
      assert Below(from, i, dest[n - 1].id);
      var p :| 0 <= p < i <= |from| && SlotId(from[p]) == Some(dest[n - 1].id);
      home := home + [p];
    }
  }

  // The identifier being moved is not in the destination yet.
  lemma NotYetCopied(idents: seq<Ident>, from: Table, dest: Table, i: nat, id: nat)
    requires |dest| > 0 && |from| > 0 && Copied(idents, from, dest, i, None) && TableOk(idents, from)
    requires i < |from| && from[i] == Held(id)
    ensures !Contains(dest, id)
  {
    forall q | 0 <= q < |dest| && dest[q] != Empty ensures SlotId(dest[q]) != Some(id) {
      assert Below(from, i, dest[q].id);
      var p :| 0 <= p < i <= |from| && SlotId(from[p]) == Some(dest[q].id);
    }
  }

  lemma CopyLoadStep(h: HashFn, s: State, t: nat)
    requires Inv(h, s) && PcOf(s, t).CopyLoad?
    ensures Inv(h, Step(s, t)) && Evolves(s, Step(s, t))
  {
    var CopyLoad(req, to, i) := PcOf(s, t);
    assert ResizerOk(s, PcOf(s, t));
    var from, dest := s.tables[to - 1], s.tables[to];
    if i == |from| {
      LocalStep(h, s, t, Publish(req, to));
    } else {
      match from[i]
      case Empty => LocalStep(h, s, t, CopyMark(req, to, i, None));
      case Held(id) =>
        assert SlotId(from[i]) == Some(id);
        var hash := s.idents[id].hash;
        assert Tri(0) == 0;
        assert ReachAt(dest, hash, hash % |dest|, 0);
        LocalStep(h, s, t, CopyProbe(req, to, i, id, hash % |dest|, 0));
    }
  }

  // The facts a copier relies on, without the rest of the invariant.
  ghost predicate CopierView(s: State, t: nat) {
    && Shape(s) && Resizer(PcOf(s, t)) && 0 < PcOf(s, t).to < |s.tables| && ResizerOk(s, PcOf(s, t))
    && TableOk(s.idents, s.tables[PcOf(s, t).to - 1])
  }

  lemma CopyProbeNext(s: State, t: nat) returns (next: Pc)
    requires CopierView(s, t) && PcOf(s, t).CopyProbe?
    ensures Step(s, t) == Goto(s, t, next) && Resizer(next) && next.req == PcOf(s, t).req && ResizerOk(s, next)
  {
    var CopyProbe(req, to, i, id, slot, k) := PcOf(s, t);
    var from, dest := s.tables[to - 1], s.tables[to];
    if dest[slot] == Empty {
      next := CopyStore(req, to, i, id, slot, k);
    } else {
      SizesArePowers(s, to);
      SeekNext(s.idents, from, dest, i, id, slot, k);
      next := CopyProbe(req, to, i, id, (slot + (k + 1)) % |dest|, k + 1);
    }
  }

  lemma CopyProbeStep(h: HashFn, s: State, t: nat)
    requires Inv(h, s) && PcOf(s, t).CopyProbe?
    ensures Inv(h, Step(s, t)) && Evolves(s, Step(s, t))
  {
    assert ResizerOk(s, PcOf(s, t)) && ThreadOk(h, s, PcOf(s, t));
    var next := CopyProbeNext(s, t);
    LocalStep(h, s, t, next);
  }

  lemma SeekNext(idents: seq<Ident>, from: Table, dest: Table, i: nat, id: nat, slot: nat, k: nat)
    requires |dest| == 2 * |from| > 0 && IsPow2(|dest|) && TableOk(idents, from)
    requires Copied(idents, from, dest, i, None) && Seeking(idents, from, dest, i, id, slot, k) && dest[slot] != Empty
    ensures dest[slot] != Held(id) && Seeking(idents, from, dest, i, id, (slot + (k + 1)) % |dest|, k + 1)
  {
    NotYetCopied(idents, from, dest, i, id);
    assert SlotId(dest[slot]) == Some(dest[slot].id);
    FreeSlotRemains(idents, from, dest, i, id, slot, k);
    PathStep(idents[id].hash, k, |dest|);
    assert ReachAt(dest, idents[id].hash, (slot + (k + 1)) % |dest|, k + 1);
  }

  lemma CopyStoreNext(s: State, t: nat) returns (s': State, next: Pc)
    requires CopierView(s, t) && PcOf(s, t).CopyStore?
    ensures s' == Step(s, t) && s'.threads == s.threads[t := next]
    ensures s' == s.(tables := s'.tables, threads := s'.threads) && |s'.tables| == |s.tables|
            && 0 < PcOf(s, t).to < |s.tables|
    ensures s'.tables[..PcOf(s, t).to] == s.tables[..PcOf(s, t).to]
    ensures Shape(s') && Evolves(s, s') && !next.InitPublish? && Resizer(next) && next.req == PcOf(s, t).req
            && ResizerOk(s', next)
  {
    var CopyStore(req, to, i, id, slot, k) := PcOf(s, t);
    var from, dest := s.tables[to - 1], s.tables[to];
    next := CopyMark(req, to, i, Some(id));
    s' := Goto(SetSlot(s, to, slot, Held(id)), t, next);
    NotYetCopied(s.idents, from, dest, i, id);
    TableOkInsert(s.idents, s.idents, dest, slot, id, k);
    StoreCopied(s.idents, from, dest, i, id, slot);
  }

  lemma CopyStoreStep(h: HashFn, s: State, t: nat)
    requires Inv(h, s) && PcOf(s, t).CopyStore?
    ensures Inv(h, Step(s, t)) && Evolves(s, Step(s, t))
  {
    assert ResizerOk(s, PcOf(s, t)) && ThreadOk(h, s, PcOf(s, t));
    var to := PcOf(s, t).to;
    var s', next := CopyStoreNext(s, t);
    assert forall n :: 0 <= n < to ==> s'.tables[n] == s'.tables[..to][n] && s.tables[n] == s.tables[..to][n];
    ResizerMoves(h, s, s', t, next);
  }

  lemma StoreCopied(idents: seq<Ident>, from: Table, dest: Table, i: nat, id: nat, slot: nat)
    requires |dest| > 0 && Copied(idents, from, dest, i, None)
    requires slot < |dest| && dest[slot] == Empty && TableOk(idents, dest[slot := Held(id)])
    ensures Copied(idents, from, dest[slot := Held(id)], i, Some(id))
  {
    var dest' := dest[slot := Held(id)];
    assert SlotId(dest'[slot]) == Some(id);
    forall p | 0 <= p < i && SlotId(from[p]).Some? ensures Contains(dest', SlotId(from[p]).value) {
      var q :| 0 <= q < |dest| && SlotId(dest[q]) == Some(SlotId(from[p]).value);
      assert dest'[q] == dest[q];
    }
  }

  // A step of the resizer itself: other threads keep what they know.
  lemma ResizerMoves(h: HashFn, s: State, s': State, t: nat, pc: Pc)
    requires Inv(h, s) && Shape(s') && Evolves(s, s') && Resizer(PcOf(s, t))
    requires s'.threads == s.threads[t := pc]
    requires ThreadOk(h, s', pc) && (Resizer(pc) ==> ResizerOk(s', pc))
    ensures Threads(h, s')
  {
    forall u | u in s'.threads ensures ThreadOk(h, s', s'.threads[u]) {
      if u != t { ThreadStable(h, s, s', s.threads[u]); }
    }
  }

  lemma CopyMarkNext(s: State, t: nat) returns (s': State, next: Pc)
    requires CopierView(s, t) && PcOf(s, t).CopyMark? && Tables(s)
    requires s.tables[PcOf(s, t).to - 1][PcOf(s, t).i]
             == (if PcOf(s, t).found.None? then Empty else Held(PcOf(s, t).found.value))
    ensures s' == Step(s, t) && s'.threads == s.threads[t := next]
    ensures s' == s.(tables := s'.tables, threads := s'.threads)
    ensures Shape(s') && Tables(s') && Evolves(s, s') && Resizer(next) && next.req == PcOf(s, t).req
            && ResizerOk(s', next)
  {
    var CopyMark(req, to, i, found) := PcOf(s, t);
    var from, dest := s.tables[to - 1], s.tables[to];
    next := CopyLoad(req, to, i + 1);
    s' := Goto(SetSlot(s, to - 1, i, Moved(found)), t, next);
    var from' := from[i := Moved(found)];
    MarkTable(s.idents, from, from');
    MarkTables(s, s', to, from');
    MarkCopied(s.idents, from, dest, i, found);
  }

  lemma CopyMarkStep(h: HashFn, s: State, t: nat)
    requires Inv(h, s) && PcOf(s, t).CopyMark?
    ensures Inv(h, Step(s, t)) && Evolves(s, Step(s, t))
  {
    var CopyMark(req, to, i, found) := PcOf(s, t);
    assert ResizerOk(s, PcOf(s, t)) && ThreadOk(h, s, PcOf(s, t));
    if s.tables[to - 1][i] != (if found.None? then Empty else Held(found.value)) {
      LocalStep(h, s, t, CopyLoad(req, to, i));
    } else {
      var s', next := CopyMarkNext(s, t);
      ResizerMoves(h, s, s', t, next);
    }
  }

  lemma MarkTables(s: State, s': State, to: nat, from': Table)
    requires Shape(s) && Tables(s) && s.table == Some(to - 1) && 0 < to < |s.tables|
    requires TableLe(s.tables[to - 1], from') && |from'| > 0 && TableOk(s.idents, from')
    requires forall id: nat :: Contains(s.tables[to - 1], id) ==> Contains(from', id)
    requires s'.tables == s.tables[to - 1 := from'] && s'.table == s.table && s'.resizing == s.resizing
    requires s'.idents == s.idents && s'.log == s.log
    ensures Shape(s') && Tables(s') && Evolves(s, s')
  {
  }

  lemma MarkCopied(idents: seq<Ident>, from: Table, dest: Table, i: nat, found: Option<nat>)
    requires |dest| > 0 && Copied(idents, from, dest, i, found) && i < |from| && SlotId(from[i]) == found
    ensures Copied(idents, from[i := Moved(found)], dest, i + 1, None)
  {
    var from' := from[i := Moved(found)];
    forall q | 0 <= q < |dest| && dest[q] != Empty ensures Below(from', i + 1, dest[q].id) {
      if Some(dest[q].id) == found {
        assert SlotId(from'[i]) == Some(dest[q].id);
      } else {
        var p :| 0 <= p < i <= |from| && SlotId(from[p]) == Some(dest[q].id);
        assert from'[p] == from[p];
      }
    }
  }

  lemma MarkTable(idents: seq<Ident>, a: Table, b: Table)
    requires |a| > 0 && TableLe(a, b) && TableOk(idents, a)
    requires forall p :: 0 <= p < |a| ==> SlotId(b[p]) == SlotId(a[p])
    ensures TableOk(idents, b)
    ensures forall id: nat :: Contains(a, id) ==> Contains(b, id)
  {
    forall q | 0 <= q < |b| && SlotId(b[q]).Some?
      ensures Reachable(b, idents[SlotId(b[q]).value].hash, q)
    {
      ReachStable(a, b, idents[SlotId(a[q]).value].hash, q);
    }
    forall id: nat | Contains(a, id) ensures Contains(b, id) {
      var p :| 0 <= p < |a| && SlotId(a[p]) == Some(id);
      assert SlotId(b[p]) == Some(id);
    }
  }

  // Everything the old table held is in the table that replaces it.
  lemma PublishTables(s: State, to: nat)
    requires Shape(s) && Tables(s) && s.resizing == Some(to) && s.table == (if to == 0 then None else Some(to - 1))
    requires to > 0 ==> Copied(s.idents, s.tables[to - 1], s.tables[to], |s.tables[to - 1]|, None)
    ensures Shape(s.(table := Some(to))) && Tables(s.(table := Some(to)))
  {
    if to > 0 {
      var from, dest := s.tables[to - 1], s.tables[to];
      forall id | 0 <= id < |s.idents| ensures Contains(dest, id) {
        assert Contains(from, id);
        var p :| 0 <= p < |from| && SlotId(from[p]) == Some(id);
      }
    }
  }

  lemma PublishNext(h: HashFn, s: State, t: nat) returns (next: Pc)
    requires Shape(s) && Tables(s) && (PcOf(s, t).Publish? || PcOf(s, t).InitPublish?) && ResizerOk(s, PcOf(s, t))
    requires Proper(h, PcOf(s, t).req)
    ensures var s' := Goto(s.(table := Some(PcOf(s, t).to)), t, next);
            && Step(s, t) == s' && !Resizer(next)
            && Shape(s') && Tables(s') && Evolves(s, s') && ThreadOk(h, s', next)
  {
    var pc := PcOf(s, t);
    PublishTables(s, pc.to);
    assert Tri(0) == 0;
    next := if pc.Publish? then GetTable(pc.req)
            else Probe(pc.req, pc.to, pc.req.hash % |s.tables[pc.to]|, 0);
  }

  lemma PublishStep(h: HashFn, s: State, t: nat)
    requires Inv(h, s) && (PcOf(s, t).Publish? || PcOf(s, t).InitPublish?)
    ensures Inv(h, Step(s, t)) && Evolves(s, Step(s, t))
  {
    assert ResizerOk(s, PcOf(s, t));
    var next := PublishNext(h, s, t);
    ResizerMoves(h, s, Step(s, t), t, next);
  }

  lemma {:induction false} PiecesIff(bytes: Bytes, parts: seq<Bytes>)
    ensures TotalLength(parts) == |Joined(parts)|
    ensures |bytes| == TotalLength(parts) ==> (SamePieces(bytes, parts) <==> bytes == Joined(parts))
    decreases |parts|
  {
    if parts != [] {
      var n := |parts[0]|;
      PiecesIff(if n <= |bytes| then bytes[n..] else [], parts[1..]);
      if n <= |bytes| { assert bytes == bytes[..n] + bytes[n..]; }
      assert Joined(parts)[..n] == parts[0] && Joined(parts)[n..] == Joined(parts[1..]);
    }
  }

  // Whether by pieces or with the hash, the test accepts exactly the identifier of
  // the joined string.
  lemma MatchesIff(h: HashFn, id: Ident, req: Request)
    requires Proper(h, req) && id.hash == h(id.bytes)
    ensures Matches(id, req) <==> id.bytes == Joined(req.parts)
    ensures TotalLength(req.parts) == |Joined(req.parts)|
  {
    PiecesIff(id.bytes, req.parts);
  }

  lemma ProbeNext(h: HashFn, s: State, t: nat) returns (next: Pc)
    requires Shape(s) && Tables(s) && PcOf(s, t).Probe? && ThreadOk(h, s, PcOf(s, t)) && Canonical(h, s)
    ensures var r := Return(PcOf(s, t).req, if PcOf(s, t).req.uniq then None
            else SlotId(s.tables[PcOf(s, t).cur][PcOf(s, t).slot]));
            if next.Idle? then Step(s, t) == Finish(s, t, r.request, r.result) && ReturnOk(s, r)
            else Step(s, t) == Goto(s, t, next) && ThreadOk(h, s, next) && !Resizer(next)
  {
    var Probe(req, cur, slot, k) := PcOf(s, t);
    var tab := s.tables[cur];
    match tab[slot]
    case Moved(_) => next := WaitTable(req, false);
    case Empty => next := Install(req, cur, slot, k);
    case Held(id) =>
      CurrentTable(s, cur, slot);
      assert SlotId(tab[slot]) == Some(id);
      MatchesIff(h, s.idents[id], req);
      if Matches(s.idents[id], req) {
        next := Idle;
      } else if k + 1 == REPROBE_LIMIT {
        next := Grow(req, cur);
      } else {
        MissedNext(h, s, tab, Joined(req.parts), slot, k);
        next := Probe(req, cur, (slot + (k + 1)) % |tab|, k + 1);
      }
  }

  lemma ProbeStep(h: HashFn, s: State, t: nat)
    requires Inv(h, s) && PcOf(s, t).Probe?
    ensures Inv(h, Step(s, t)) && Evolves(s, Step(s, t))
  {
    var pc := PcOf(s, t);
    var next := ProbeNext(h, s, t);
    if next.Idle? {
      FinishStep(h, s, t, pc.req, if pc.req.uniq then None else SlotId(s.tables[pc.cur][pc.slot]));
    } else {
      LocalStep(h, s, t, next);
    }
  }

  lemma MissedNext(h: HashFn, s: State, tab: Table, bytes: Bytes, slot: nat, k: nat)
    requires |tab| > 0 && Missed(h, s, tab, bytes, k) && slot == PathSlot(h(bytes), k, |tab|)
    requires tab[slot].Held? && tab[slot].id < |s.idents| && s.idents[tab[slot].id].bytes != bytes
    ensures (slot + (k + 1)) % |tab| == PathSlot(h(bytes), k + 1, |tab|) && Missed(h, s, tab, bytes, k + 1)
  {
    PathStep(h(bytes), k, |tab|);
  }

  lemma StartStep(h: HashFn, s: State, t: nat, req: Request)
    requires Inv(h, s) && s.table.Some? && Proper(h, req)
    ensures var s' := StartProbe(s, t, req, s.table.value); Inv(h, s') && Evolves(s, s')
  {
    var cur := s.table.value;
    assert Tri(0) == 0;
    LocalStep(h, s, t, Probe(req, cur, req.hash % |s.tables[cur]|, 0));
  }

  lemma WaitStep(h: HashFn, s: State, t: nat)
    requires Inv(h, s)
    requires var pc := PcOf(s, t); pc.GetTable? || pc.InitCas? || pc.WaitTable? || pc.WaitResizing? || pc.Reload?
    ensures Inv(h, Step(s, t)) && Evolves(s, Step(s, t))
  {
    match PcOf(s, t)
    case GetTable(req) =>
      if s.table.None? { LocalStep(h, s, t, InitCas(req)); } else { StartStep(h, s, t, req); }
    case InitCas(req) =>
      if s.resizing.None? {
        NewTableStep(h, s, t, INITIAL_SIZE, InitPublish(req, |s.tables|));
      } else {
        LocalStep(h, s, t, WaitTable(req, true));
      }
    case WaitTable(req, starting) => LocalStep(h, s, t, WaitResizing(req, starting, s.table));
    case WaitResizing(req, starting, seen) =>
      if seen != s.resizing { LocalStep(h, s, t, WaitTable(req, starting)); }
      else { LocalStep(h, s, t, if starting then Reload(req) else GetTable(req)); }
    case Reload(req) => StartStep(h, s, t, req);
  }

  lemma StepKeepsInv(h: HashFn, s: State, t: nat)
    requires Inv(h, s)
    ensures Inv(h, Step(s, t)) && Evolves(s, Step(s, t))
  {
    match PcOf(s, t)
    case Idle =>
    case TooLong =>
    case Probe(_, _, _, _) => ProbeStep(h, s, t);
    case Install(_, _, _, _) => InstallStep(h, s, t);
    case Grow(_, _) => GrowStep(h, s, t);
    case InitPublish(_, _) => PublishStep(h, s, t);
    case Publish(_, _) => PublishStep(h, s, t);
    case CopyLoad(_, _, _) => CopyLoadStep(h, s, t);
    case CopyProbe(_, _, _, _, _, _) => CopyProbeStep(h, s, t);
    case CopyStore(_, _, _, _, _, _) => CopyStoreStep(h, s, t);
    case CopyMark(_, _, _, _) => CopyMarkStep(h, s, t);
    case Fault =>
    case _ => WaitStep(h, s, t);
  }
}
