// The inductive invariant of the concurrent hash table over runs in which no put
// writes over a value that the copier has just read, or holds a slot that is marked.
module ConcurrentHashInvariant {
  import opened Probing
  import opened Options
  import opened ConcurrentHash

  // ---------------------------------------------------------------- slots

  function TagKey(t: Tag): Option<Key> {
    match t
    case Free => None
    case Busy(owner) => owner
    case InUse(key) => Some(key)
    case Moved(was) => was
  }

  // A slot never becomes free again, keeps its key once it has one, and does
  // not change any more once it is moved.
  predicate SlotLe(a: Slot, b: Slot) {
    match a.tag
    case Free => true
    case Moved(_) => b == a
    case _ => !b.tag.Free? && (TagKey(a.tag).Some? ==> TagKey(b.tag) == TagKey(a.tag))
  }

  ghost predicate TableLe(a: Table, b: Table) {
    |a| == |b| && forall p :: 0 <= p < |a| ==> SlotLe(a[p], b[p])
  }

  ghost predicate ReachAt(tab: Table, hash: nat, p: nat, k: nat)
    requires |tab| > 0
  {
    && p == LinearSlot(hash, k, |tab|)
    && forall j: nat :: j < k ==> TagKey(tab[LinearSlot(hash, j, |tab|)].tag).Some?
  }

  // Every slot tried before p holds a key.
  ghost predicate Reachable(tab: Table, hash: nat, p: nat)
    requires |tab| > 0
  {
    exists k: nat :: ReachAt(tab, hash, p, k)
  }

  ghost predicate Below(tab: Table, n: nat, key: Key) {
    exists p :: 0 <= p < n <= |tab| && TagKey(tab[p].tag) == Some(key)
  }

  ghost predicate Contains(tab: Table, key: Key) { Below(tab, |tab|, key) }

  // Every key sits in one slot, and a probe for it gets there.
  ghost predicate Placed(h: HashFn, tab: Table)
    requires |tab| > 0
  {
    && (forall p :: 0 <= p < |tab| && TagKey(tab[p].tag).Some? ==> Reachable(tab, h(TagKey(tab[p].tag).value), p))
    && (forall p, q :: 0 <= p < q < |tab| && TagKey(tab[p].tag).Some? ==> TagKey(tab[p].tag) != TagKey(tab[q].tag))
  }

  predicate Newest(ws: map<Key, seq<Write>>, key: Key, v: Val) {
    Log(ws, key) != [] && v == ValueAt(Log(ws, key), |Log(ws, key)|)
  }

  // Every key has the value of its latest write.
  ghost predicate Current(ws: map<Key, seq<Write>>, tab: Table) {
    forall p :: 0 <= p < |tab| && TagKey(tab[p].tag).Some? ==> Newest(ws, TagKey(tab[p].tag).value, tab[p].value)
  }

  // ---------------------------------------------------------------- global part

  ghost predicate Shape(s: State) {
    && s.tab < |s.tables| <= s.tab + 2
    && s.resizing == |s.tables| - 1
    && (forall n :: 0 <= n < |s.tables| ==> |s.tables[n]| > 0)
    && (forall n :: 0 < n < |s.tables| ==> |s.tables[n]| == 2 * |s.tables[n - 1]|)
  }

  ghost predicate AllMoved(tab: Table) { forall p :: 0 <= p < |tab| ==> tab[p].tag.Moved? }

  ghost predicate NoneMoved(tab: Table) { forall p :: 0 <= p < |tab| ==> !tab[p].tag.Moved? }

  ghost predicate Present(ws: map<Key, seq<Write>>, tab: Table) {
    forall key: Key :: key in ws ==> Contains(tab, key)
  }

  ghost predicate Tables(h: HashFn, s: State)
    requires Shape(s)
  {
    && (forall n :: 0 <= n < s.tab ==> AllMoved(s.tables[n]))
    && (s.resizing == s.tab ==> NoneMoved(s.tables[s.tab]))
    && (forall n :: 0 <= n < |s.tables| ==> Placed(h, s.tables[n]))
    && Current(s.writes, s.tables[s.tab])
    && Present(s.writes, s.tables[s.tab])
  }

  // The value v was that of the key at some moment between its lo-th and its hi-th write.
  ghost predicate SomeTime(ws: seq<Write>, lo: nat, hi: nat, v: Val) {
    hi <= |ws| && exists m: nat :: lo <= m <= hi && ValueAt(ws, m) == v
  }

  // A get returns a value its key had at some moment between call and return.
  ghost predicate ReturnOk(ws: map<Key, seq<Write>>, r: Return) {
    r.op.Get? ==> SomeTime(Log(ws, r.op.key), r.op.since, r.seen, r.result)
  }

  ghost predicate LogOk(ws: map<Key, seq<Write>>, log: seq<Return>) {
    forall n :: 0 <= n < |log| ==> ReturnOk(ws, log[n])
  }

  // ---------------------------------------------------------------- threads

  predicate Resizer(pc: Pc) {
    pc.CopyLoad? || pc.CopyProbe? || pc.CopyValue? || pc.CopyStore? || pc.CopyMark? || pc.Publish?
  }

  // The thread has made its slot busy.
  predicate Filling(pc: Pc) { pc.Fill? || pc.Reveal? || pc.Refill? || pc.Release? }

  // The first k slots tried hold other keys.
  ghost predicate Passed(h: HashFn, tab: Table, key: Key, k: nat)
    requires |tab| > 0
  {
    forall j: nat :: j < k ==>
      var found := TagKey(tab[LinearSlot(h(key), j, |tab|)].tag);
      found.Some? && found.value != key
  }

  ghost predicate AtSlot(h: HashFn, s: State, op: Op, cur: nat, slot: nat, k: nat)
    requires Shape(s)
  {
    cur <= s.tab && slot == LinearSlot(h(op.key), k, |s.tables[cur]|) && Passed(h, s.tables[cur], op.key, k)
  }

  ghost predicate AtKey(s: State, op: Op, cur: nat, slot: nat)
    requires Shape(s)
  {
    cur <= s.tab && slot < |s.tables[cur]| && TagKey(s.tables[cur][slot].tag) == Some(op.key)
  }

  ghost predicate PlaceOk(h: HashFn, s: State, pc: Pc)
    requires Shape(s)
  {
    match pc
    case Check(_, cur) => cur <= s.tab
    case Grow(_, cur) => cur <= s.tab
    case Probe(op, cur, slot, k) => AtSlot(h, s, op, cur, slot, k)
    case Claim(op, cur, slot, k) => op.Put? && AtSlot(h, s, op, cur, slot, k)
    case Fill(op, cur, slot, k) =>
      op.Put? && cur == s.tab && AtSlot(h, s, op, cur, slot, k) && s.tables[cur][slot].tag == Busy(None)
    case Reveal(op, cur, slot, k) =>
      op.Put? && cur == s.tab && AtSlot(h, s, op, cur, slot, k) && s.tables[cur][slot] == Slot(Busy(None), op.value)
    case Seize(op, cur, slot) => op.Put? && AtKey(s, op, cur, slot) && WritesOf(s, op.key) != []
    case Refill(op, cur, slot) =>
      op.Put? && cur == s.tab && slot < |s.tables[cur]| && s.tables[cur][slot].tag == Busy(Some(op.key))
    case Release(op, cur, slot) =>
      op.Put? && cur == s.tab && slot < |s.tables[cur]| && s.tables[cur][slot].tag == Busy(Some(op.key))
    case Fetch(op, cur, slot) =>
      && op.Get? && AtKey(s, op, cur, slot)
      && SomeTime(WritesOf(s, op.key), op.since, |WritesOf(s, op.key)|, s.tables[cur][slot].value)
    case Count(op) => op.Put?
    case Fault => false
    case _ => true
  }

  ghost predicate ThreadOk(h: HashFn, s: State, pc: Pc)
    requires Shape(s)
  {
    PlaceOk(h, s, pc) && (Active(pc) ==> pc.op.since <= |WritesOf(s, pc.op.key)|)
  }

  // ---------------------------------------------------------------- the copier

  ghost predicate Copied(from: Table, dest: Table, i: nat, extra: Option<Key>) {
    && i <= |from|
    && (forall p :: 0 <= p < i ==> from[p].tag.Moved?)
    && (forall p :: i <= p < |from| ==> !from[p].tag.Moved?)
    && (forall q :: 0 <= q < |dest| ==> dest[q].tag.Free? || dest[q].tag.InUse?)
    && (forall p :: 0 <= p < i && TagKey(from[p].tag).Some? ==> Contains(dest, TagKey(from[p].tag).value))
    && (extra.Some? ==> Contains(dest, extra.value))
    && (forall q :: 0 <= q < |dest| && dest[q].tag.InUse? ==>
          Some(dest[q].tag.key) == extra || Below(from, i, dest[q].tag.key))
  }

  ghost predicate Seeking(h: HashFn, from: Table, dest: Table, i: nat, key: Key, slot: nat, k: nat)
    requires |dest| > 0
  {
    i < |from| && TagKey(from[i].tag) == Some(key) && ReachAt(dest, h(key), slot, k) && k < |dest|
  }

  ghost predicate CopierOk(h: HashFn, from: Table, dest: Table, pc: Pc)
    requires |dest| > 0
  {
    match pc
    case CopyLoad(_, _, i) => Copied(from, dest, i, None)
    case CopyProbe(_, _, i, key, slot, k) => Copied(from, dest, i, None) && Seeking(h, from, dest, i, key, slot, k)
    case CopyValue(_, _, i, key, slot, k) =>
      Copied(from, dest, i, None) && Seeking(h, from, dest, i, key, slot, k) && dest[slot].tag.Free?
    case CopyStore(_, _, i, key, slot, k) =>
      && Copied(from, dest, i, None) && Seeking(h, from, dest, i, key, slot, k)
      && dest[slot] == Slot(Free, from[i].value)
    case CopyMark(_, _, i, found) =>
      Copied(from, dest, i, found) && i < |from| && (found.Some? ==> TagKey(from[i].tag) == found)
    case Publish(_, _) => Copied(from, dest, |from|, None)
    case _ => false
  }

  ghost predicate ResizerOk(h: HashFn, s: State, pc: Pc)
    requires Shape(s) && Resizer(pc)
  {
    && s.resizing == pc.to && pc.to > 0 && s.tab == pc.to - 1
    && CopierOk(h, s.tables[s.tab], s.tables[s.tab + 1], pc)
    && Current(s.writes, s.tables[s.tab + 1])
  }

  // ---------------------------------------------------------------- the invariant

  // Two threads never resize together or make the same slot busy.
  ghost predicate Apart(a: Pc, b: Pc) {
    !(Resizer(a) && Resizer(b)) && (Filling(a) && Filling(b) ==> a.slot != b.slot)
  }

  ghost predicate Threads(h: HashFn, s: State)
    requires Shape(s)
  {
    && (forall t :: t in s.threads ==> ThreadOk(h, s, s.threads[t]))
    && (forall t :: t in s.threads && Resizer(s.threads[t]) ==> ResizerOk(h, s, s.threads[t]))
    && (forall t, u :: t in s.threads && u in s.threads && t != u ==> Apart(s.threads[t], s.threads[u]))
  }

  ghost predicate Inv(h: HashFn, s: State) {
    Shape(s) && Tables(h, s) && LogOk(s.writes, s.log) && Threads(h, s)
  }

  // ---------------------------------------------------------------- monotonicity

  ghost predicate WritesLe(a: map<Key, seq<Write>>, b: map<Key, seq<Write>>) {
    forall key: Key :: Log(a, key) <= Log(b, key)
  }

  // What any number of steps may change.
  ghost predicate Evolves(s: State, s': State) {
    && |s.tables| <= |s'.tables| && s.tab <= s'.tab
    && (forall n :: 0 <= n < |s.tables| ==> TableLe(s.tables[n], s'.tables[n]))
    && WritesLe(s.writes, s'.writes)
    && s.log <= s'.log
  }

  // One step changes the value beside a key only to that of the latest write.
  ghost predicate Values(s: State, s': State)
    requires |s.tables| <= |s'.tables|
  {
    forall n :: 0 <= n < |s.tables| && |s.tables[n]| == |s'.tables[n]| ==>
        TableValues(s.tables[n], s'.tables[n], s'.writes)
  }

  ghost predicate TableValues(a: Table, b: Table, ws: map<Key, seq<Write>>)
    requires |a| == |b|
  {
    forall p :: 0 <= p < |a| && TagKey(a[p].tag).Some? && b[p].value != a[p].value ==>
      Newest(ws, TagKey(a[p].tag).value, b[p].value)
  }

  lemma LaterSomeTime(a: seq<Write>, b: seq<Write>, lo: nat, hi: nat, v: Val)
    requires a <= b && SomeTime(a, lo, hi, v)
    ensures SomeTime(b, lo, hi, v) && SomeTime(b, lo, |b|, v)
  {
    var m: nat :| lo <= m <= hi && ValueAt(a, m) == v;
    assert ValueAt(b, m) == v;
  }

  lemma NewestSomeTime(ws: map<Key, seq<Write>>, key: Key, lo: nat, v: Val)
    requires Newest(ws, key, v) && lo <= |Log(ws, key)|
    ensures SomeTime(Log(ws, key), lo, |Log(ws, key)|, v)
  {
    assert ValueAt(Log(ws, key), |Log(ws, key)|) == v;
  }

  lemma LogGrows(a: map<Key, seq<Write>>, b: map<Key, seq<Write>>, log: seq<Return>)
    requires LogOk(a, log) && WritesLe(a, b)
    ensures LogOk(b, log)
  {
    forall n | 0 <= n < |log| && log[n].op.Get? ensures ReturnOk(b, log[n]) {
      assert ReturnOk(a, log[n]);
      LaterSomeTime(Log(a, log[n].op.key), Log(b, log[n].op.key), log[n].op.since, log[n].seen, log[n].result);
    }
  }

  lemma FetchStable(s: State, s': State, op: Op, cur: nat, slot: nat)
    requires Shape(s) && Shape(s') && Evolves(s, s') && Values(s, s') && AtKey(s, op, cur, slot)
    requires op.since <= |WritesOf(s, op.key)|
    requires SomeTime(WritesOf(s, op.key), op.since, |WritesOf(s, op.key)|, s.tables[cur][slot].value)
    ensures SomeTime(WritesOf(s', op.key), op.since, |WritesOf(s', op.key)|, s'.tables[cur][slot].value)
  {
    assert TableLe(s.tables[cur], s'.tables[cur]) && TableValues(s.tables[cur], s'.tables[cur], s'.writes);
    assert WritesOf(s, op.key) <= WritesOf(s', op.key);
    if s'.tables[cur][slot].value == s.tables[cur][slot].value {
      LaterSomeTime(WritesOf(s, op.key), WritesOf(s', op.key), op.since, |WritesOf(s, op.key)|,
          s.tables[cur][slot].value);
    } else {
      NewestSomeTime(s'.writes, op.key, op.since, s'.tables[cur][slot].value);
    }
  }

  // Everything but a slot being filled survives any step.
  lemma ThreadStable(h: HashFn, s: State, s': State, pc: Pc)
    requires Shape(s) && Shape(s') && Evolves(s, s') && Values(s, s') && ThreadOk(h, s, pc)
    requires Filling(pc) ==> s'.tab == s.tab && s'.tables[s.tab][pc.slot] == s.tables[s.tab][pc.slot]
    ensures ThreadOk(h, s', pc)
  {
    assert Active(pc) ==> WritesOf(s, pc.op.key) <= WritesOf(s', pc.op.key);
    if pc.Probe? || pc.Claim? || pc.Fill? || pc.Reveal? {
      assert TableLe(s.tables[pc.cur], s'.tables[pc.cur]);
      PassedStable(h, s.tables[pc.cur], s'.tables[pc.cur], pc.op.key, pc.k);
    } else if pc.Fetch? || pc.Seize? {
      assert TableLe(s.tables[pc.cur], s'.tables[pc.cur]);
      if pc.Fetch? { FetchStable(s, s', pc.op, pc.cur, pc.slot); }
    } else if pc.Refill? || pc.Release? {
      assert TableLe(s.tables[pc.cur], s'.tables[pc.cur]);
    }
  }

  lemma PassedStable(h: HashFn, a: Table, b: Table, key: Key, k: nat)
    requires TableLe(a, b) && |a| > 0 && Passed(h, a, key, k)
    ensures Passed(h, b, key, k)
  {
  }

  lemma ReachStable(a: Table, b: Table, hash: nat, p: nat)
    requires TableLe(a, b) && |a| > 0 && Reachable(a, hash, p)
    ensures Reachable(b, hash, p)
  {
    var k: nat :| ReachAt(a, hash, p, k);
    assert ReachAt(b, hash, p, k);
  }

  // Only the published table has slots that are not marked.
  lemma CurrentTable(h: HashFn, s: State, cur: nat, slot: nat)
    requires Shape(s) && Tables(h, s) && cur <= s.tab && slot < |s.tables[cur]| && !s.tables[cur][slot].tag.Moved?
    ensures cur == s.tab
  {
    assert forall n :: 0 <= n < s.tab ==> AllMoved(s.tables[n]);
  }

  // ---------------------------------------------------------------- writing one slot of a table

  // What v may be: the key that was there, or a new key that a probe finds here.
  ghost predicate Fits(h: HashFn, tab: Table, slot: nat, v: Slot)
    requires slot < |tab|
  {
    && SlotLe(tab[slot], v)
    && (TagKey(v.tag) != TagKey(tab[slot].tag) ==>
          && TagKey(v.tag).Some? && !Contains(tab, TagKey(v.tag).value)
          && Reachable(tab[slot := v], h(TagKey(v.tag).value), slot))
  }

  lemma WritePlaced(h: HashFn, tab: Table, slot: nat, v: Slot)
    requires |tab| > 0 && Placed(h, tab) && slot < |tab| && Fits(h, tab, slot, v)
    ensures Placed(h, tab[slot := v]) && TableLe(tab, tab[slot := v])
  {
    var tab' := tab[slot := v];
    forall p | 0 <= p < |tab'| && TagKey(tab'[p].tag).Some?
      ensures Reachable(tab', h(TagKey(tab'[p].tag).value), p)
    {
      if p != slot || TagKey(v.tag) == TagKey(tab[slot].tag) {
        ReachStable(tab, tab', h(TagKey(tab'[p].tag).value), p);
      }
    }
    assert TagKey(v.tag) != TagKey(tab[slot].tag) ==>
        forall p :: 0 <= p < |tab| && TagKey(tab[p].tag).Some? ==> TagKey(tab[p].tag) != TagKey(v.tag);
  }

  lemma WriteKeys(tab: Table, slot: nat, v: Slot, key: Key)
    requires slot < |tab| && SlotLe(tab[slot], v)
    ensures Contains(tab[slot := v], key) <==> Contains(tab, key) || TagKey(v.tag) == Some(key)
  {
    var tab' := tab[slot := v];
    if Contains(tab, key) {
      var p :| 0 <= p < |tab| && TagKey(tab[p].tag) == Some(key);
      assert TagKey(tab'[p].tag) == Some(key);
    }
    if TagKey(v.tag) == Some(key) {
      assert TagKey(tab'[slot].tag) == Some(key);
    }
    if Contains(tab', key) {
      var p :| 0 <= p < |tab'| && TagKey(tab'[p].tag) == Some(key);
      assert p != slot ==> TagKey(tab[p].tag) == Some(key);
    }
  }

  // Only the key of v may have been written to, and v holds the latest value.
  ghost predicate Writing(ws: map<Key, seq<Write>>, ws': map<Key, seq<Write>>, v: Slot) {
    && WritesLe(ws, ws')
    && (forall key: Key :: TagKey(v.tag) != Some(key) ==> Log(ws', key) == Log(ws, key) && (key in ws' ==> key in ws))
    && (TagKey(v.tag).Some? ==> Newest(ws', TagKey(v.tag).value, v.value))
  }

  lemma WriteCurrent(h: HashFn, ws: map<Key, seq<Write>>, ws': map<Key, seq<Write>>, tab: Table, slot: nat, v: Slot)
    requires |tab| > 0 && slot < |tab| && Current(ws, tab) && Present(ws, tab) && Writing(ws, ws', v)
    requires Placed(h, tab[slot := v]) && SlotLe(tab[slot], v)
    ensures Current(ws', tab[slot := v]) && Present(ws', tab[slot := v])
  {
    var tab' := tab[slot := v];
    forall p | 0 <= p < |tab'| && TagKey(tab'[p].tag).Some?
      ensures Newest(ws', TagKey(tab'[p].tag).value, tab'[p].value) {
      assert tab'[slot] == v;
      assert p < slot ==> TagKey(tab'[p].tag) != TagKey(tab'[slot].tag);
      assert slot < p && TagKey(v.tag).Some? ==> TagKey(tab'[slot].tag) != TagKey(tab'[p].tag);
    }
    forall key: Key | key in ws' ensures Contains(tab', key) {
      WriteKeys(tab, slot, v, key);
    }
  }

  // ---------------------------------------------------------------- one step

  // What the other threads need from a step of thread t.
  ghost predicate OthersOk(h: HashFn, s: State, s': State, t: nat)
    requires Shape(s) && Shape(s')
  {
    && (forall u :: u in s.threads && u != t && Filling(s.threads[u]) ==>
          s'.tab == s.tab && s.threads[u].slot < |s.tables[s.tab]| == |s'.tables[s'.tab]|
          && s'.tables[s.tab][s.threads[u].slot] == s.tables[s.tab][s.threads[u].slot])
    && (forall u :: u in s.threads && u != t && Resizer(s.threads[u]) ==> ResizerOk(h, s', s.threads[u]))
  }

  lemma Assemble(h: HashFn, s: State, s': State, t: nat, pc: Pc)
    requires Shape(s) && Threads(h, s) && Shape(s') && Evolves(s, s') && Values(s, s') && OthersOk(h, s, s', t)
    requires s'.threads == s.threads[t := pc] && ThreadOk(h, s', pc) && (Resizer(pc) ==> ResizerOk(h, s', pc))
    requires forall u :: u in s.threads && u != t ==> Apart(pc, s.threads[u])
    ensures Threads(h, s')
  {
    forall u | u in s'.threads ensures ThreadOk(h, s', s'.threads[u]) {
      if u != t {
        ThreadStable(h, s, s', s.threads[u]);
      }
    }
    forall u, v | u in s'.threads && v in s'.threads && u != v ensures Apart(s'.threads[u], s'.threads[v]) {
      if u != t && v != t {
        assert Apart(s.threads[u], s.threads[v]);
      } else if v == t {
        assert Apart(pc, s.threads[u]);
      }
    }
  }

  // Going on with the same slot keeps threads apart.
  lemma StillApart(h: HashFn, s: State, t: nat, pc: Pc)
    requires Shape(s) && Threads(h, s)
    requires Resizer(pc) ==> Resizer(PcOf(s, t))
    requires Filling(pc) ==> Filling(PcOf(s, t)) && PcOf(s, t).slot == pc.slot
    ensures forall u :: u in s.threads && u != t ==> Apart(pc, s.threads[u])
  {
    forall u | u in s.threads && u != t ensures Apart(pc, s.threads[u]) {
      assert t in s.threads ==> Apart(s.threads[t], s.threads[u]);
    }
  }

  // A step that changes neither tables nor writes.
  ghost predicate SameData(s: State, s': State) {
    s'.tables == s.tables && s'.tab == s.tab && s'.resizing == s.resizing && s'.writes == s.writes && s.log <= s'.log
  }

  lemma SameTables(h: HashFn, s: State, s': State, t: nat)
    requires Shape(s) && Threads(h, s) && SameData(s, s')
    ensures Shape(s') && Evolves(s, s') && Values(s, s') && OthersOk(h, s, s', t)
  {
    forall u | u in s.threads && u != t && Filling(s.threads[u]) ensures s.threads[u].slot < |s.tables[s.tab]| {
      assert ThreadOk(h, s, s.threads[u]);
    }
  }

  lemma ThreadFrame(h: HashFn, s: State, s': State, pc: Pc)
    requires Shape(s) && Shape(s') && SameData(s, s') && ThreadOk(h, s, pc)
    ensures ThreadOk(h, s', pc) && (Resizer(pc) && ResizerOk(h, s, pc) ==> ResizerOk(h, s', pc))
  {
  }

  // A step that changes no table; it may return.
  lemma LogStep(h: HashFn, s: State, s': State, t: nat, pc: Pc)
    requires Inv(h, s) && SameData(s, s') && s'.threads == s.threads[t := pc]
    requires ThreadOk(h, s, pc) && (Resizer(pc) ==> ResizerOk(h, s, pc))
    requires LogOk(s.writes, s'.log)
    requires Resizer(pc) ==> Resizer(PcOf(s, t))
    requires !Filling(pc)
    ensures Inv(h, s') && Evolves(s, s')
  {
    SameTables(h, s, s', t);
    StillApart(h, s, t, pc);
    ThreadFrame(h, s, s', pc);
    Assemble(h, s, s', t, pc);
  }

  lemma LocalStep(h: HashFn, s: State, t: nat, pc: Pc)
    requires Inv(h, s) && ThreadOk(h, s, pc) && (Resizer(pc) ==> ResizerOk(h, s, pc))
    requires Resizer(pc) ==> Resizer(PcOf(s, t))
    requires !Filling(pc)
    ensures Inv(h, Goto(s, t, pc)) && Evolves(s, Goto(s, t, pc))
  {
    LogStep(h, s, Goto(s, t, pc), t, pc);
  }

  // ---------------------------------------------------------------- get and probing

  // A slot without a key at the end of a probe shows that the key is not in the table.
  lemma KeylessMeansAbsent(h: HashFn, tab: Table, key: Key, slot: nat, k: nat)
    requires |tab| > 0 && Placed(h, tab)
    requires slot == LinearSlot(h(key), k, |tab|) && TagKey(tab[slot].tag).None? && Passed(h, tab, key, k)
    ensures !Contains(tab, key)
  {
    forall p | 0 <= p < |tab| && TagKey(tab[p].tag).Some? ensures TagKey(tab[p].tag) != Some(key) {
      var m: nat :| ReachAt(tab, h(TagKey(tab[p].tag).value), p, m);
    }
  }

  // A get that meets a free slot is called before the first write.
  lemma ProbeMisses(h: HashFn, s: State, pc: Pc)
    requires Shape(s) && Tables(h, s) && pc.Probe? && ThreadOk(h, s, pc) && s.tables[pc.cur][pc.slot].tag.Free?
    ensures ReturnOk(s.writes, Return(pc.op, 0, |WritesOf(s, pc.op.key)|))
  {
    CurrentTable(h, s, pc.cur, pc.slot);
    KeylessMeansAbsent(h, s.tables[s.tab], pc.op.key, pc.slot, pc.k);
    assert ValueAt(WritesOf(s, pc.op.key), 0) == 0;
  }

  lemma ProbeMeets(h: HashFn, s: State, pc: Pc)
    requires Shape(s) && Tables(h, s) && pc.Probe? && ThreadOk(h, s, pc)
             && s.tables[pc.cur][pc.slot].tag == InUse(pc.op.key)
    ensures AtKey(s, pc.op, pc.cur, pc.slot)
    ensures SomeTime(WritesOf(s, pc.op.key), pc.op.since, |WritesOf(s, pc.op.key)|, s.tables[pc.cur][pc.slot].value)
  {
    CurrentTable(h, s, pc.cur, pc.slot);
    assert TagKey(s.tables[pc.cur][pc.slot].tag) == Some(pc.op.key);
    NewestSomeTime(s.writes, pc.op.key, pc.op.since, s.tables[pc.cur][pc.slot].value);
  }

  // Where a probe goes; Idle is the end of a get that found nothing.
  function ProbeTo(s: State, pc: Pc): Pc
    requires pc.Probe? && HasSlot(s, pc.cur, pc.slot)
  {
    var Probe(op, cur, slot, k) := pc;
    match s.tables[cur][slot].tag
    case Busy(_) => Start(op)
    case Moved(_) => WaitTab(op)
    case Free => if op.Put? then Claim(op, cur, slot, k) else Idle
    case InUse(key) =>
      if key != op.key then Probe(op, cur, (slot + 1) % |s.tables[cur]|, k + 1)
      else if op.Put? then Seize(op, cur, slot)
      else Fetch(op, cur, slot)
  }

  lemma ProbeGoes(h: HashFn, s: State, t: nat)
    requires PcOf(s, t).Probe? && HasSlot(s, PcOf(s, t).cur, PcOf(s, t).slot)
    ensures var pc, next := PcOf(s, t), ProbeTo(s, PcOf(s, t));
            Step(h, s, t) == if next.Idle? then Finish(s, t, pc.op, 0) else Goto(s, t, next)
  {
  }

  lemma ProbeNext(h: HashFn, s: State, pc: Pc)
    requires Shape(s) && Tables(h, s) && pc.Probe? && ThreadOk(h, s, pc)
    ensures ThreadOk(h, s, ProbeTo(s, pc))
    ensures ProbeTo(s, pc).Idle? ==> ReturnOk(s.writes, Return(pc.op, 0, |WritesOf(s, pc.op.key)|))
  {
    if s.tables[pc.cur][pc.slot].tag.Free? {
      ProbeMisses(h, s, pc);
    } else if s.tables[pc.cur][pc.slot].tag.InUse? {
      ProbeKey(h, s, pc);
    }
  }

  lemma ProbeKey(h: HashFn, s: State, pc: Pc)
    requires Shape(s) && Tables(h, s) && pc.Probe? && ThreadOk(h, s, pc) && s.tables[pc.cur][pc.slot].tag.InUse?
    ensures ThreadOk(h, s, ProbeTo(s, pc))
  {
    if s.tables[pc.cur][pc.slot].tag.key != pc.op.key {
      PassNext(h, s.tables[pc.cur], pc.op.key, pc.slot, pc.k);
    } else {
      ProbeMeets(h, s, pc);
    }
  }

  lemma PassNext(h: HashFn, tab: Table, key: Key, slot: nat, k: nat)
    requires |tab| > 0 && Passed(h, tab, key, k) && slot == LinearSlot(h(key), k, |tab|)
    requires tab[slot].tag.InUse? && tab[slot].tag.key != key
    ensures (slot + 1) % |tab| == LinearSlot(h(key), k + 1, |tab|) && Passed(h, tab, key, k + 1)
  {
    LinearStep(h(key), k, |tab|);
  }

  lemma LogSnoc(ws: map<Key, seq<Write>>, log: seq<Return>, r: Return)
    requires LogOk(ws, log) && ReturnOk(ws, r)
    ensures LogOk(ws, log + [r])
  {
  }

  lemma ReturnStep(h: HashFn, s: State, t: nat, op: Op, result: Val)
    requires Inv(h, s) && ReturnOk(s.writes, Return(op, result, |WritesOf(s, op.key)|))
    ensures Inv(h, Finish(s, t, op, result)) && Evolves(s, Finish(s, t, op, result))
  {
    LogSnoc(s.writes, s.log, Return(op, result, |WritesOf(s, op.key)|));
    LogStep(h, s, Finish(s, t, op, result), t, Idle);
  }

  lemma ProbeStep(h: HashFn, s: State, t: nat)
    requires Inv(h, s) && PcOf(s, t).Probe?
    ensures Inv(h, Step(h, s, t)) && Evolves(s, Step(h, s, t))
  {
    var pc := PcOf(s, t);
    assert ThreadOk(h, s, pc);
    ProbeGoes(h, s, t);
    ProbeNext(h, s, pc);
    if ProbeTo(s, pc).Idle? {
      ReturnStep(h, s, t, pc.op, 0);
    } else {
      LocalStep(h, s, t, ProbeTo(s, pc));
    }
  }

  lemma FetchStep(h: HashFn, s: State, t: nat)
    requires Inv(h, s) && PcOf(s, t).Fetch?
    ensures Inv(h, Step(h, s, t)) && Evolves(s, Step(h, s, t))
  {
    var Fetch(op, cur, slot) := PcOf(s, t);
    ReturnStep(h, s, t, op, s.tables[cur][slot].value);
  }

  lemma CountStep(h: HashFn, s: State, t: nat)
    requires Inv(h, s) && PcOf(s, t).Count?
    ensures Inv(h, Step(h, s, t)) && Evolves(s, Step(h, s, t))
  {
    var op := PcOf(s, t).op;
    LogSnoc(s.writes, s.log, Return(op, 0, |WritesOf(s, op.key)|));
    LogStep(h, s, Step(h, s, t), t, Idle);
  }

  // ---------------------------------------------------------------- writing the published table

  ghost predicate Writes(s: State, s': State, slot: nat, v: Slot) {
    && s.tab < |s.tables| && slot < |s.tables[s.tab]|
    && !s.tables[s.tab][slot].tag.Moved? && !v.tag.Moved?
    && s'.tables == s.tables[s.tab := s.tables[s.tab][slot := v]]
    && s'.tab == s.tab && s'.resizing == s.resizing && s.log <= s'.log
    && Writing(s.writes, s'.writes, v)
  }

  // The write does not change a value that a copier has just read.
  ghost predicate Quiet(s: State, slot: nat, v: Slot) {
    && HasSlot(s, s.tab, slot)
    && (v.value == s.tables[s.tab][slot].value ||
        forall u :: u in s.threads ==> !HasValue(s.threads[u], s.tab + 1, slot))
  }

  // The keys in the new table have slots that nobody writes, except for the last one copied.
  lemma NotInDest(h: HashFn, from: Table, dest: Table, slot: nat, key: Key, pc: Pc)
    requires |dest| > 0 && |from| > 0 && CopierOk(h, from, dest, pc) && Placed(h, from)
    requires slot < |from| && !from[slot].tag.Moved? && !(pc.CopyMark? && pc.found.Some? && pc.i == slot)
    requires TagKey(from[slot].tag) == Some(key) || !Contains(from, key)
    ensures !Contains(dest, key)
  {
    var i := if pc.Publish? then |from| else pc.i;
    forall q | 0 <= q < |dest| && dest[q].tag.InUse? ensures TagKey(dest[q].tag) != Some(key) {
      if Below(from, i, dest[q].tag.key) {
        var p :| 0 <= p < i <= |from| && TagKey(from[p].tag) == Some(dest[q].tag.key);
        assert p != slot;
      } else {
        assert TagKey(from[pc.i].tag) == Some(dest[q].tag.key);
      }
    }
  }

  lemma CopiedFrame(from: Table, dest: Table, i: nat, extra: Option<Key>, slot: nat, v: Slot)
    requires Copied(from, dest, i, extra) && slot < |from| && !from[slot].tag.Moved? && !v.tag.Moved?
    ensures Copied(from[slot := v], dest, i, extra)
  {
    var from' := from[slot := v];
    forall q | 0 <= q < |dest| && dest[q].tag.InUse? && Some(dest[q].tag.key) != extra
      ensures Below(from', i, dest[q].tag.key)
    {
      var p :| 0 <= p < i <= |from| && TagKey(from[p].tag) == Some(dest[q].tag.key);
      assert from'[p] == from[p];
    }
  }

  lemma CopierFrame(h: HashFn, from: Table, dest: Table, slot: nat, v: Slot, pc: Pc)
    requires |dest| > 0 && CopierOk(h, from, dest, pc)
    requires slot < |from| && !from[slot].tag.Moved? && !v.tag.Moved? && SlotLe(from[slot], v)
    requires v.value == from[slot].value || !HasValue(pc, pc.to, slot)
    ensures CopierOk(h, from[slot := v], dest, pc)
  {
    var i := if pc.Publish? then |from| else pc.i;
    CopiedFrame(from, dest, i, if pc.CopyMark? then pc.found else None, slot, v);
  }

  lemma DestCurrent(ws: map<Key, seq<Write>>, ws': map<Key, seq<Write>>, dest: Table, v: Slot)
    requires Current(ws, dest) && Writing(ws, ws', v)
    requires TagKey(v.tag).Some? && Contains(dest, TagKey(v.tag).value) ==> Newest(ws, TagKey(v.tag).value, v.value)
    ensures Current(ws', dest)
  {
    forall p | 0 <= p < |dest| && TagKey(dest[p].tag).Some?
      ensures Newest(ws', TagKey(dest[p].tag).value, dest[p].value)
    {
      assert Newest(ws, TagKey(dest[p].tag).value, dest[p].value);
      assert TagKey(dest[p].tag) == TagKey(v.tag) ==> Contains(dest, TagKey(v.tag).value);
    }
  }

  lemma WriteResizer(h: HashFn, s: State, s': State, slot: nat, v: Slot, pc: Pc)
    requires Shape(s) && Writes(s, s', slot, v) && Shape(s') && Resizer(pc) && ResizerOk(h, s, pc)
    requires Placed(h, s.tables[s.tab]) && Current(s.writes, s.tables[s.tab]) && Fits(h, s.tables[s.tab], slot, v)
    requires v.value == s.tables[s.tab][slot].value || !HasValue(pc, s.tab + 1, slot)
    ensures ResizerOk(h, s', pc)
  {
    var from, dest := s.tables[s.tab], s.tables[s.tab + 1];
    CopierFrame(h, from, dest, slot, v, pc);
    if TagKey(v.tag).Some? && !(pc.CopyMark? && pc.found.Some? && pc.i == slot) {
      NotInDest(h, from, dest, slot, TagKey(v.tag).value, pc);
    }
    DestCurrent(s.writes, s'.writes, dest, v);
  }

  lemma WriteShape(h: HashFn, s: State, s': State, slot: nat, v: Slot)
    requires Shape(s) && Tables(h, s) && Writes(s, s', slot, v) && Fits(h, s.tables[s.tab], slot, v)
    ensures Shape(s') && Tables(h, s') && Evolves(s, s') && Values(s, s')
  {
    assert forall n :: 0 <= n < |s.tables| && n != s.tab ==> s'.tables[n] == s.tables[n];
    WritePlaced(h, s.tables[s.tab], slot, v);
    WriteCurrent(h, s.writes, s'.writes, s.tables[s.tab], slot, v);
  }

  // A slot that is not busy, or that t has made busy, is no other thread's.
  lemma WriteApart(h: HashFn, s: State, t: nat, slot: nat)
    requires Shape(s) && Threads(h, s) && slot < |s.tables[s.tab]|
    requires !s.tables[s.tab][slot].tag.Busy? || (Filling(PcOf(s, t)) && PcOf(s, t).slot == slot)
    ensures forall u :: u in s.threads && u != t && Filling(s.threads[u]) ==>
              s.threads[u].slot != slot && s.threads[u].slot < |s.tables[s.tab]|
  {
    forall u | u in s.threads && u != t && Filling(s.threads[u])
      ensures s.threads[u].slot != slot && s.threads[u].slot < |s.tables[s.tab]|
    {
      assert ThreadOk(h, s, s.threads[u]);
      assert t in s.threads ==> Apart(s.threads[t], s.threads[u]);
    }
  }

  lemma WriteFrame(h: HashFn, s: State, s': State, t: nat, slot: nat, v: Slot)
    requires Shape(s) && Threads(h, s) && Writes(s, s', slot, v) && Shape(s')
    requires Placed(h, s.tables[s.tab]) && Current(s.writes, s.tables[s.tab])
    requires Fits(h, s.tables[s.tab], slot, v) && Quiet(s, slot, v)
    requires !s.tables[s.tab][slot].tag.Busy? || (Filling(PcOf(s, t)) && PcOf(s, t).slot == slot)
    ensures OthersOk(h, s, s', t)
  {
    WriteApart(h, s, t, slot);
    forall u | u in s.threads && u != t && Resizer(s.threads[u]) ensures ResizerOk(h, s', s.threads[u]) {
      WriteResizer(h, s, s', slot, v, s.threads[u]);
    }
  }

  lemma WriteStep(h: HashFn, s: State, s': State, t: nat, slot: nat, v: Slot, next: Pc)
    requires Inv(h, s) && Writes(s, s', slot, v) && Fits(h, s.tables[s.tab], slot, v) && Quiet(s, slot, v)
    requires !s.tables[s.tab][slot].tag.Busy? || (Filling(PcOf(s, t)) && PcOf(s, t).slot == slot)
    requires s'.threads == s.threads[t := next] && !Resizer(next) && (Filling(next) ==> next.slot == slot)
    requires Shape(s') ==> ThreadOk(h, s', next)
    requires LogOk(s'.writes, s'.log)
    ensures Inv(h, s') && Evolves(s, s')
  {
    WriteShape(h, s, s', slot, v);
    WriteFrame(h, s, s', t, slot, v);
    WriteApart(h, s, t, slot);
    Assemble(h, s, s', t, next);
  }

  // The copier has read a slot with a key.
  lemma QuietWithoutKey(h: HashFn, s: State, slot: nat, v: Slot)
    requires Shape(s) && Threads(h, s) && slot < |s.tables[s.tab]| && TagKey(s.tables[s.tab][slot].tag).None?
    ensures Quiet(s, slot, v)
  {
    forall u | u in s.threads ensures !HasValue(s.threads[u], s.tab + 1, slot) {
      assert Resizer(s.threads[u]) ==> ResizerOk(h, s, s.threads[u]);
    }
  }

  // Once its slot is written, a put goes on there.
  lemma NextOk(h: HashFn, s: State, s': State, slot: nat, v: Slot, pc: Pc, next: Pc)
    requires Shape(s) && Writes(s, s', slot, v) && Fits(h, s.tables[s.tab], slot, v) && ThreadOk(h, s, pc) && Active(pc)
    requires pc.op.Put? && Active(next) && next.op == pc.op
    requires
      || (next.Fill? && pc.Claim? && next == Fill(pc.op, s.tab, slot, pc.k) && pc.cur == s.tab && pc.slot == slot
          && v.tag == Busy(None))
      || (next.Reveal? && pc.Fill? && next == Reveal(pc.op, s.tab, slot, pc.k) && pc.slot == slot
          && v == Slot(Busy(None), pc.op.value))
      || next == Count(pc.op)
      || (next == Refill(pc.op, s.tab, slot) && v.tag == Busy(Some(pc.op.key)))
      || (next == Release(pc.op, s.tab, slot) && v.tag == Busy(Some(pc.op.key)))
    ensures Shape(s') ==> ThreadOk(h, s', next)
  {
    assert Log(s.writes, pc.op.key) <= Log(s'.writes, pc.op.key);
    if next.Fill? || next.Reveal? {
      PassedStable(h, s.tables[s.tab], s'.tables[s.tab], pc.op.key, pc.k);
    }
  }

  lemma SameWriting(ws: map<Key, seq<Write>>, v: Slot)
    requires TagKey(v.tag).Some? ==> Newest(ws, TagKey(v.tag).value, v.value)
    ensures Writing(ws, ws, v)
  {
  }

  lemma RecordWriting(ws: map<Key, seq<Write>>, op: Op, v: Slot)
    requires op.Put? && TagKey(v.tag) == Some(op.key) && v.value == op.value
    ensures Writing(ws, Recorded(ws, op), v)
  {
  }

  lemma ClaimStep(h: HashFn, s: State, t: nat)
    requires Inv(h, s) && PcOf(s, t).Claim?
    ensures Inv(h, Step(h, s, t)) && Evolves(s, Step(h, s, t))
  {
    var Claim(op, cur, slot, k) := PcOf(s, t);
    var x := s.tables[cur][slot];
    if x.tag != Free {
      LocalStep(h, s, t, Start(op));
    } else {
      CurrentTable(h, s, cur, slot);
      var v, next := x.(tag := Busy(None)), Fill(op, cur, slot, k);
      var s' := Goto(SetSlot(s, cur, slot, v), t, next);
      SameWriting(s.writes, v);
      NextOk(h, s, s', slot, v, PcOf(s, t), next);
      WriteStep(h, s, s', t, slot, v, next);
    }
  }

  lemma FillStep(h: HashFn, s: State, t: nat)
    requires Inv(h, s) && PcOf(s, t).Fill?
    ensures Inv(h, Step(h, s, t)) && Evolves(s, Step(h, s, t))
  {
    var Fill(op, cur, slot, k) := PcOf(s, t);
    var v, next := s.tables[cur][slot].(value := op.value), Reveal(op, cur, slot, k);
    var s' := Goto(SetSlot(s, cur, slot, v), t, next);
    SameWriting(s.writes, v);
    QuietWithoutKey(h, s, slot, v);
    NextOk(h, s, s', slot, v, PcOf(s, t), next);
    WriteStep(h, s, s', t, slot, v, next);
  }

  lemma RevealFits(h: HashFn, tab: Table, key: Key, slot: nat, k: nat, v: Slot)
    requires |tab| > 0 && Placed(h, tab) && slot == LinearSlot(h(key), k, |tab|) && Passed(h, tab, key, k)
    requires tab[slot].tag == Busy(None) && v.tag == InUse(key)
    ensures Fits(h, tab, slot, v)
  {
    KeylessMeansAbsent(h, tab, key, slot, k);
    assert ReachAt(tab[slot := v], h(key), slot, k);
  }

  lemma RevealStep(h: HashFn, s: State, t: nat)
    requires Inv(h, s) && PcOf(s, t).Reveal?
    ensures Inv(h, Step(h, s, t)) && Evolves(s, Step(h, s, t))
  {
    var Reveal(op, cur, slot, k) := PcOf(s, t);
    var v, next := s.tables[cur][slot].(tag := InUse(op.key)), Count(op);
    var s' := Goto(Record(SetSlot(s, cur, slot, v), op), t, next);
    RecordWriting(s.writes, op, v);
    RevealFits(h, s.tables[cur], op.key, slot, k, v);
    NextOk(h, s, s', slot, v, PcOf(s, t), next);
    LogGrows(s.writes, s'.writes, s.log);
    WriteStep(h, s, s', t, slot, v, next);
  }

  // ---------------------------------------------------------------- overwriting

  // A slot made busy, the key being there.
  function Seized(s: State, t: nat, op: Op, cur: nat, slot: nat): State
    requires HasSlot(s, cur, slot)
  {
    Goto(SetSlot(s, cur, slot, s.tables[cur][slot].(tag := Busy(Some(op.key)))), t, Refill(op, cur, slot))
  }

  lemma SeizeGoes(h: HashFn, s: State, t: nat)
    requires PcOf(s, t).Seize? && HasSlot(s, PcOf(s, t).cur, PcOf(s, t).slot)
    ensures var Seize(op, cur, slot) := PcOf(s, t);
            Step(h, s, t) == if s.tables[cur][slot].tag == InUse(op.key) then Seized(s, t, op, cur, slot)
                             else Goto(s, t, Start(op))
  {
  }

  lemma SeizeWrites(h: HashFn, s: State, t: nat, op: Op, slot: nat)
    requires Inv(h, s) && PcOf(s, t) == Seize(op, s.tab, slot) && HasSlot(s, s.tab, slot)
    requires s.tables[s.tab][slot].tag == InUse(op.key)
    ensures Inv(h, Seized(s, t, op, s.tab, slot)) && Evolves(s, Seized(s, t, op, s.tab, slot))
  {
    var v, s' := s.tables[s.tab][slot].(tag := Busy(Some(op.key))), Seized(s, t, op, s.tab, slot);
    SameWriting(s.writes, v);
    NextOk(h, s, s', slot, v, PcOf(s, t), Refill(op, s.tab, slot));
    WriteStep(h, s, s', t, slot, v, Refill(op, s.tab, slot));
  }

  lemma SeizeStep(h: HashFn, s: State, t: nat)
    requires Inv(h, s) && PcOf(s, t).Seize?
    ensures Inv(h, Step(h, s, t)) && Evolves(s, Step(h, s, t))
  {
    var Seize(op, cur, slot) := PcOf(s, t);
    assert ThreadOk(h, s, s.threads[t]);
    SeizeGoes(h, s, t);
    if s.tables[cur][slot].tag != InUse(op.key) {
      LocalStep(h, s, t, Start(op));
    } else {
      CurrentTable(h, s, cur, slot);
      SeizeWrites(h, s, t, op, slot);
    }
  }

  lemma RefillGoes(h: HashFn, s: State, t: nat)
    requires PcOf(s, t).Refill? && PcOf(s, t).op.Put? && HasSlot(s, PcOf(s, t).cur, PcOf(s, t).slot)
    ensures var Refill(op, cur, slot) := PcOf(s, t);
            var v := s.tables[cur][slot].(value := op.value);
            Step(h, s, t) == Goto(Record(SetSlot(s, cur, slot, v), op), t, Release(op, cur, slot))
  {
  }

  lemma RefillStep(h: HashFn, s: State, t: nat)
    requires Inv(h, s) && PcOf(s, t).Refill? && Clean(s, Run(t))
    ensures Inv(h, Step(h, s, t)) && Evolves(s, Step(h, s, t))
  {
    var Refill(op, cur, slot) := PcOf(s, t);
    var v, next := s.tables[cur][slot].(value := op.value), Release(op, cur, slot);
    var s' := Goto(Record(SetSlot(s, cur, slot, v), op), t, next);
    RecordWriting(s.writes, op, v);
    NextOk(h, s, s', slot, v, PcOf(s, t), next);
    LogGrows(s.writes, s'.writes, s.log);
    WriteStep(h, s, s', t, slot, v, next);
  }

  lemma ReleaseStep(h: HashFn, s: State, t: nat)
    requires Inv(h, s) && PcOf(s, t).Release?
    ensures Inv(h, Step(h, s, t)) && Evolves(s, Step(h, s, t))
  {
    var Release(op, cur, slot) := PcOf(s, t);
    var v := s.tables[cur][slot].(tag := InUse(op.key));
    var s' := Finish(SetSlot(s, cur, slot, v), t, op, 0);
    SameWriting(s.writes, v);
    LogSnoc(s.writes, s.log, Return(op, 0, |WritesOf(s, op.key)|));
    WriteStep(h, s, s', t, slot, v, Idle);
  }

  // ---------------------------------------------------------------- resize

  lemma EmptyTable(h: HashFn, ws: map<Key, seq<Write>>, from: Table, n: nat)
    requires n > 0 && NoneMoved(from)
    ensures Placed(h, NewTable(n)) && Current(ws, NewTable(n)) && Copied(from, NewTable(n), 0, None)
  {
  }

  lemma GrowTables(h: HashFn, s: State, s': State)
    requires Shape(s) && Tables(h, s) && s.resizing == s.tab
    requires s' == s.(tables := s.tables + [NewTable(2 * |s.tables[s.tab]|)], resizing := |s.tables|,
             threads := s'.threads)
    ensures Shape(s') && Tables(h, s') && Evolves(s, s') && Values(s, s')
    ensures Copied(s'.tables[s.tab], s'.tables[s.tab + 1], 0, None) && Current(s.writes, s'.tables[s.tab + 1])
  {
    EmptyTable(h, s.writes, s.tables[s.tab], 2 * |s.tables[s.tab]|);
    assert forall n :: 0 <= n < |s.tables| ==> s'.tables[n] == s.tables[n];
  }

  // The winning CAS on `resizing` makes its thread the only resizer.
  lemma GrowStep(h: HashFn, s: State, t: nat)
    requires Inv(h, s) && PcOf(s, t).Grow?
    ensures Inv(h, Step(h, s, t)) && Evolves(s, Step(h, s, t))
  {
    var Grow(op, cur) := PcOf(s, t);
    if s.resizing != cur {
      LocalStep(h, s, t, WaitTab(op));
    } else {
      var s', next := Step(h, s, t), CopyLoad(op, |s.tables|, 0);
      GrowTables(h, s, s');
      GrowThreads(h, s, s', t, next);
    }
  }

  lemma GrowThreads(h: HashFn, s: State, s': State, t: nat, next: Pc)
    requires Shape(s) && Threads(h, s) && s.resizing == s.tab && Shape(s') && s'.tab == s.tab
    requires s'.tables[s.tab] == s.tables[s.tab] && s'.writes == s.writes && Evolves(s, s') && Values(s, s')
    requires s'.threads == s.threads[t := next] && next.CopyLoad? && ResizerOk(h, s', next)
    requires PcOf(s, t).Grow? && next.op == PcOf(s, t).op
    ensures Threads(h, s')
  {
    forall u | u in s.threads
      ensures !Resizer(s.threads[u]) && (Filling(s.threads[u]) ==> s.threads[u].slot < |s.tables[s.tab]|)
    {
      assert Resizer(s.threads[u]) ==> ResizerOk(h, s, s.threads[u]);
      assert ThreadOk(h, s, s.threads[u]);
    }
    assert ThreadOk(h, s, s.threads[t]);
    Assemble(h, s, s', t, next);
  }

  // A table twice as large as the one copied into it is never full.
  lemma EmptySlot(h: HashFn, from: Table, dest: Table, i: nat) returns (q: nat)
    requires |dest| == 2 * |from| > 0 && Copied(from, dest, i, None) && Placed(h, dest)
    ensures q < |dest| && dest[q].tag.Free?
  {
    q := 0;
    if e :| 0 <= e < |dest| && dest[e].tag.Free? {
      q := e;
    } else {
      var home := HomeSlots(from, dest, i, |dest|);
      Pigeonhole(home, |from|);
    }
  }

  lemma {:induction false} HomeSlots(from: Table, dest: Table, i: nat, n: nat) returns (home: seq<nat>)
    requires Copied(from, dest, i, None)
    requires n <= |dest| && forall q :: 0 <= q < |dest| ==> !dest[q].tag.Free?
    ensures |home| == n
    ensures forall q :: 0 <= q < n ==> home[q] < |from| && TagKey(from[home[q]].tag) == TagKey(dest[q].tag)
  {
    if n == 0 {
      home := [];
    } else {
      home := HomeSlots(from, dest, i, n - 1);
      assert Below(from, i, dest[n - 1].tag.key);
      var p :| 0 <= p < i <= |from| && TagKey(from[p].tag) == Some(dest[n - 1].tag.key);
      home := home + [p];
    }
  }

  lemma NotYetCopied(h: HashFn, from: Table, dest: Table, i: nat, key: Key)
    requires |from| > 0 && Copied(from, dest, i, None) && Placed(h, from)
    requires i < |from| && TagKey(from[i].tag) == Some(key)
    ensures !Contains(dest, key)
  {
    forall q | 0 <= q < |dest| && dest[q].tag.InUse? ensures TagKey(dest[q].tag) != Some(key) {
      assert Below(from, i, dest[q].tag.key);
      var p :| 0 <= p < i <= |from| && TagKey(from[p].tag) == Some(dest[q].tag.key);
    }
  }

  // While a slot is free, no round of taken slots is complete.
  lemma SeekMore(dest: Table, hash: nat, k: nat, q: nat)
    requires q < |dest| && dest[q].tag.Free?
    requires forall j: nat :: j <= k ==> TagKey(dest[LinearSlot(hash, j, |dest|)].tag).Some?
    ensures k + 1 < |dest|
  {
    var m := LinearVisitsAll(hash, |dest|, q);
    assert LinearSlot(hash, m, |dest|) == q;
  }

  lemma SeekOn(dest: Table, hash: nat, slot: nat, k: nat, q: nat)
    requires q < |dest| && dest[q].tag.Free? && ReachAt(dest, hash, slot, k) && TagKey(dest[slot].tag).Some?
    ensures ReachAt(dest, hash, (slot + 1) % |dest|, k + 1) && k + 1 < |dest|
  {
    SeekMore(dest, hash, k, q);
    LinearStep(hash, k, |dest|);
  }

  lemma SeekNext(h: HashFn, from: Table, dest: Table, i: nat, key: Key, slot: nat, k: nat)
    requires |dest| == 2 * |from| > 0 && Placed(h, from) && Placed(h, dest)
    requires Copied(from, dest, i, None) && Seeking(h, from, dest, i, key, slot, k) && !dest[slot].tag.Free?
    ensures dest[slot].tag != InUse(key) && Seeking(h, from, dest, i, key, (slot + 1) % |dest|, k + 1)
  {
    NotYetCopied(h, from, dest, i, key);
    assert TagKey(dest[slot].tag) == Some(dest[slot].tag.key);
    var q := EmptySlot(h, from, dest, i);
    SeekOn(dest, h(key), slot, k, q);
  }

  // The facts a copier relies on, without the rest of the invariant.
  ghost predicate CopierView(h: HashFn, s: State, t: nat) {
    && Shape(s) && Resizer(PcOf(s, t)) && ResizerOk(h, s, PcOf(s, t)) && ThreadOk(h, s, PcOf(s, t))
    && Placed(h, s.tables[s.tab]) && Placed(h, s.tables[s.tab + 1]) && Current(s.writes, s.tables[s.tab])
  }

  lemma Viewed(h: HashFn, s: State, t: nat)
    requires Inv(h, s) && Resizer(PcOf(s, t))
    ensures CopierView(h, s, t)
  {
    assert ResizerOk(h, s, s.threads[t]) && ThreadOk(h, s, s.threads[t]);
  }

  lemma CopyLoadNext(h: HashFn, s: State, t: nat) returns (next: Pc)
    requires CopierView(h, s, t) && PcOf(s, t).CopyLoad?
    requires PcOf(s, t).i < |s.tables[s.tab]| ==> !s.tables[s.tab][PcOf(s, t).i].tag.Busy?
    ensures Step(h, s, t) == Goto(s, t, next) && ThreadOk(h, s, next) && Resizer(next) && ResizerOk(h, s, next)
  {
    var CopyLoad(op, to, i) := PcOf(s, t);
    var from, dest := s.tables[to - 1], s.tables[to];
    if i == |from| {
      next := Publish(op, to);
    } else {
      match from[i].tag
      case Free => next := CopyMark(op, to, i, None);
      case InUse(key) =>
        assert ReachAt(dest, h(key), h(key) % |dest|, 0);
        next := CopyProbe(op, to, i, key, h(key) % |dest|, 0);
    }
  }

  lemma CopyProbeNext(h: HashFn, s: State, t: nat) returns (next: Pc)
    requires CopierView(h, s, t) && PcOf(s, t).CopyProbe?
    ensures Step(h, s, t) == Goto(s, t, next) && ThreadOk(h, s, next) && Resizer(next) && ResizerOk(h, s, next)
  {
    var CopyProbe(op, to, i, key, slot, k) := PcOf(s, t);
    var from, dest := s.tables[to - 1], s.tables[to];
    if dest[slot].tag == Free {
      next := CopyValue(op, to, i, key, slot, k);
    } else {
      SeekNext(h, from, dest, i, key, slot, k);
      next := CopyProbe(op, to, i, key, (slot + 1) % |dest|, k + 1);
    }
  }

  lemma CopyLocalStep(h: HashFn, s: State, t: nat)
    requires Inv(h, s) && (PcOf(s, t).CopyLoad? || PcOf(s, t).CopyProbe?)
    ensures Inv(h, Step(h, s, t)) && Evolves(s, Step(h, s, t))
  {
    var pc := PcOf(s, t);
    Viewed(h, s, t);
    if pc.CopyLoad? && pc.i < |s.tables[s.tab]| && s.tables[s.tab][pc.i].tag.Busy? {
      assert Step(h, s, t) == s;
    } else {
      var next;
      if pc.CopyLoad? { next := CopyLoadNext(h, s, t); } else { next := CopyProbeNext(h, s, t); }
      LocalStep(h, s, t, next);
    }
  }

  // ---------------------------------------------------------------- writing the new table

  // Only the copier changes the tables n.. and the published one only by marks.
  lemma CopyWriteEnd(h: HashFn, s: State, s': State, t: nat, next: Pc)
    requires Inv(h, s) && Shape(s') && Tables(h, s') && Evolves(s, s') && Values(s, s') && OthersOk(h, s, s', t)
    requires Resizer(PcOf(s, t)) && Resizer(next) && next.op == PcOf(s, t).op && ResizerOk(h, s', next)
    requires s'.threads == s.threads[t := next] && s'.log == s.log && s'.writes == s.writes
    ensures Inv(h, s')
  {
    assert ThreadOk(h, s, PcOf(s, t));
    StillApart(h, s, t, next);
    Assemble(h, s, s', t, next);
  }

  lemma DestOthers(h: HashFn, s: State, s': State, t: nat)
    requires Shape(s) && Threads(h, s) && Resizer(PcOf(s, t)) && Shape(s') && s'.tab == s.tab
    requires s'.tables[s.tab] == s.tables[s.tab]
    ensures OthersOk(h, s, s', t)
  {
    forall u | u in s.threads && u != t
      ensures !Resizer(s.threads[u]) && (Filling(s.threads[u]) ==> s.threads[u].slot < |s.tables[s.tab]|)
    {
      assert Apart(s.threads[t], s.threads[u]) && ThreadOk(h, s, s.threads[u]);
    }
  }

  // Writing the new table, which no other thread reads.
  lemma DestFrame(h: HashFn, s: State, s': State, slot: nat, v: Slot)
    requires Shape(s) && Tables(h, s) && s.tab + 1 < |s.tables| && slot < |s.tables[s.tab + 1]|
    requires s' == s.(tables := s.tables[s.tab + 1 := s.tables[s.tab + 1][slot := v]], threads := s'.threads)
    requires s.tables[s.tab + 1][slot].tag.Free? && Fits(h, s.tables[s.tab + 1], slot, v)
    ensures Shape(s') && Tables(h, s') && Evolves(s, s') && Values(s, s')
  {
    assert forall n :: 0 <= n < |s.tables| && n != s.tab + 1 ==> s'.tables[n] == s.tables[n];
    WritePlaced(h, s.tables[s.tab + 1], slot, v);
  }

  lemma WriteCopied(from: Table, dest: Table, i: nat, slot: nat, v: Slot)
    requires Copied(from, dest, i, None) && slot < |dest| && dest[slot].tag.Free? && (v.tag.Free? || v.tag.InUse?)
    ensures Copied(from, dest[slot := v], i, TagKey(v.tag))
  {
    var dest' := dest[slot := v];
    assert v.tag.InUse? ==> TagKey(dest'[slot].tag) == TagKey(v.tag);
    forall p | 0 <= p < i && TagKey(from[p].tag).Some? ensures Contains(dest', TagKey(from[p].tag).value) {
      WriteKeys(dest, slot, v, TagKey(from[p].tag).value);
    }
  }

  lemma CopyValueNext(h: HashFn, from: Table, dest: Table, pc: Pc)
    requires |dest| > 0 && pc.CopyValue? && CopierOk(h, from, dest, pc)
    ensures var v := dest[pc.slot].(value := from[pc.i].value);
            && Fits(h, dest, pc.slot, v)
            && CopierOk(h, from, dest[pc.slot := v], CopyStore(pc.op, pc.to, pc.i, pc.key, pc.slot, pc.k))
  {
    WriteCopied(from, dest, pc.i, pc.slot, dest[pc.slot].(value := from[pc.i].value));
  }

  lemma CopyStoreNext(h: HashFn, from: Table, dest: Table, pc: Pc)
    requires |dest| > 0 && |from| > 0 && pc.CopyStore? && CopierOk(h, from, dest, pc) && Placed(h, from)
    ensures var v := dest[pc.slot].(tag := InUse(pc.key));
            && Fits(h, dest, pc.slot, v)
            && CopierOk(h, from, dest[pc.slot := v], CopyMark(pc.op, pc.to, pc.i, Some(pc.key)))
  {
    var CopyStore(op, to, i, key, slot, k) := pc;
    var v := dest[slot].(tag := InUse(key));
    NotYetCopied(h, from, dest, i, key);
    assert ReachAt(dest[slot := v], h(key), slot, k);
    WriteCopied(from, dest, i, slot, v);
  }

  // The copier writes v to a free slot of the new table and goes on.
  ghost predicate Copies(h: HashFn, s: State, s': State, t: nat, slot: nat, v: Slot, next: Pc)
    requires Shape(s)
  {
    && s.tab + 1 < |s.tables| && slot < |s.tables[s.tab + 1]| && s.tables[s.tab + 1][slot].tag.Free?
    && Fits(h, s.tables[s.tab + 1], slot, v)
    && s' == s.(tables := s.tables[s.tab + 1 := s.tables[s.tab + 1][slot := v]], threads := s.threads[t := next])
    && Resizer(PcOf(s, t)) && Resizer(next) && next.op == PcOf(s, t).op && next.to == s.tab + 1
    && CopierOk(h, s.tables[s.tab], s.tables[s.tab + 1][slot := v], next)
    && Current(s.writes, s.tables[s.tab + 1][slot := v])
  }

  lemma CopiesStep(h: HashFn, s: State, s': State, t: nat, slot: nat, v: Slot, next: Pc)
    requires Inv(h, s) && Copies(h, s, s', t, slot, v, next)
    ensures Inv(h, s') && Evolves(s, s')
  {
    DestFrame(h, s, s', slot, v);
    DestOthers(h, s, s', t);
    CopyWriteEnd(h, s, s', t, next);
  }

  lemma CopyValueCopies(h: HashFn, s: State, t: nat)
    requires CopierView(h, s, t) && PcOf(s, t).CopyValue?
    ensures var CopyValue(op, to, i, key, slot, k) := PcOf(s, t);
            var v := s.tables[to][slot].(value := s.tables[s.tab][i].value);
            Copies(h, s, Step(h, s, t), t, slot, v, CopyStore(op, to, i, key, slot, k))
  {
    CopyValueNext(h, s.tables[s.tab], s.tables[s.tab + 1], PcOf(s, t));
  }

  lemma CopyStoreCopies(h: HashFn, s: State, t: nat)
    requires CopierView(h, s, t) && PcOf(s, t).CopyStore?
    ensures var CopyStore(op, to, i, key, slot, k) := PcOf(s, t);
            var v := s.tables[to][slot].(tag := InUse(key));
            Copies(h, s, Step(h, s, t), t, slot, v, CopyMark(op, to, i, Some(key)))
  {
    var pc := PcOf(s, t);
    CopyStoreNext(h, s.tables[s.tab], s.tables[s.tab + 1], pc);
    assert TagKey(s.tables[s.tab][pc.i].tag) == Some(pc.key);
  }

  lemma CopyValueStep(h: HashFn, s: State, t: nat)
    requires Inv(h, s) && PcOf(s, t).CopyValue?
    ensures Inv(h, Step(h, s, t)) && Evolves(s, Step(h, s, t))
  {
    var CopyValue(op, to, i, key, slot, k) := PcOf(s, t);
    Viewed(h, s, t);
    CopyValueCopies(h, s, t);
    var v := s.tables[to][slot].(value := s.tables[s.tab][i].value);
    CopiesStep(h, s, Step(h, s, t), t, slot, v, CopyStore(op, to, i, key, slot, k));
  }

  lemma CopyStoreStep(h: HashFn, s: State, t: nat)
    requires Inv(h, s) && PcOf(s, t).CopyStore?
    ensures Inv(h, Step(h, s, t)) && Evolves(s, Step(h, s, t))
  {
    var CopyStore(op, to, i, key, slot, k) := PcOf(s, t);
    Viewed(h, s, t);
    CopyStoreCopies(h, s, t);
    CopiesStep(h, s, Step(h, s, t), t, slot, s.tables[to][slot].(tag := InUse(key)), CopyMark(op, to, i, Some(key)));
  }

  // ---------------------------------------------------------------- marking and publishing

  lemma MarkCopied(from: Table, dest: Table, i: nat, found: Option<Key>)
    requires Copied(from, dest, i, found) && i < |from| && TagKey(from[i].tag) == found
    ensures Copied(from[i := from[i].(tag := Moved(found))], dest, i + 1, None)
  {
    var from' := from[i := from[i].(tag := Moved(found))];
    forall q | 0 <= q < |dest| && dest[q].tag.InUse? ensures Below(from', i + 1, dest[q].tag.key) {
      if Some(dest[q].tag.key) == found {
        assert TagKey(from'[i].tag) == Some(dest[q].tag.key);
      } else {
        var p :| 0 <= p < i <= |from| && TagKey(from[p].tag) == Some(dest[q].tag.key);
        assert from'[p] == from[p];
      }
    }
  }

  lemma MarkTables(h: HashFn, s: State, s': State, i: nat, v: Slot)
    requires Shape(s) && Tables(h, s) && s.tab + 1 < |s.tables| && i < |s.tables[s.tab]|
    requires v == s.tables[s.tab][i].(tag := Moved(TagKey(s.tables[s.tab][i].tag))) && !s.tables[s.tab][i].tag.Moved?
    requires s' == s.(tables := s.tables[s.tab := s.tables[s.tab][i := v]], threads := s'.threads)
    ensures Shape(s') && Tables(h, s') && Evolves(s, s') && Values(s, s')
  {
    MarkTable(h, s.writes, s.tables[s.tab], i, v);
    assert forall n :: 0 <= n < |s.tables| && n != s.tab ==> s'.tables[n] == s.tables[n];
  }

  lemma MarkTable(h: HashFn, ws: map<Key, seq<Write>>, tab: Table, i: nat, v: Slot)
    requires |tab| > 0 && i < |tab| && Placed(h, tab) && Current(ws, tab) && Present(ws, tab)
    requires v == tab[i].(tag := Moved(TagKey(tab[i].tag))) && !tab[i].tag.Moved?
    ensures Placed(h, tab[i := v]) && TableLe(tab, tab[i := v]) && Current(ws, tab[i := v]) && Present(ws, tab[i := v])
  {
    WritePlaced(h, tab, i, v);
    SameWriting(ws, v);
    WriteCurrent(h, ws, ws, tab, i, v);
  }

  lemma MarkOthers(h: HashFn, s: State, s': State, t: nat, i: nat)
    requires Shape(s) && Threads(h, s) && Resizer(PcOf(s, t)) && Shape(s') && s'.tab == s.tab
    requires i < |s.tables[s.tab]| && !s.tables[s.tab][i].tag.Busy? && |s'.tables[s.tab]| == |s.tables[s.tab]|
    requires s'.tables[s.tab] == s.tables[s.tab][i := s'.tables[s.tab][i]]
    ensures OthersOk(h, s, s', t)
  {
    forall u | u in s.threads && u != t
      ensures !Resizer(s.threads[u])
      ensures Filling(s.threads[u]) ==> s.threads[u].slot < |s.tables[s.tab]| && s.threads[u].slot != i
    {
      assert Apart(s.threads[t], s.threads[u]) && ThreadOk(h, s, s.threads[u]);
    }
  }

  // The CAS fails only on a slot that was free when it was read: it is read again.
  lemma CopyMarkRetry(h: HashFn, s: State, t: nat)
    requires CopierView(h, s, t) && PcOf(s, t).CopyMark?
    requires var pc := PcOf(s, t);
             s.tables[s.tab][pc.i].tag != (if pc.found.None? then Free else InUse(pc.found.value))
    requires Clean(s, Run(t))
    ensures var next := CopyLoad(PcOf(s, t).op, PcOf(s, t).to, PcOf(s, t).i);
            Step(h, s, t) == Goto(s, t, next) && ThreadOk(h, s, next) && ResizerOk(h, s, next)
  {
  }

  lemma CopyMarkMoves(h: HashFn, s: State, t: nat)
    requires CopierView(h, s, t) && PcOf(s, t).CopyMark?
    requires var pc := PcOf(s, t);
             s.tables[s.tab][pc.i].tag == (if pc.found.None? then Free else InUse(pc.found.value))
    ensures var pc := PcOf(s, t);
            var v := s.tables[s.tab][pc.i].(tag := Moved(pc.found));
            Step(h, s, t) == s.(tables := s.tables[s.tab := s.tables[s.tab][pc.i := v]],
                                threads := s.threads[t := CopyLoad(pc.op, pc.to, pc.i + 1)])
  {
  }

  lemma CopyMarkStep(h: HashFn, s: State, t: nat)
    requires Inv(h, s) && PcOf(s, t).CopyMark? && Clean(s, Run(t))
    ensures Inv(h, Step(h, s, t)) && Evolves(s, Step(h, s, t))
  {
    var CopyMark(op, to, i, found) := PcOf(s, t);
    Viewed(h, s, t);
    if s.tables[s.tab][i].tag != (if found.None? then Free else InUse(found.value)) {
      CopyMarkRetry(h, s, t);
      LocalStep(h, s, t, CopyLoad(op, to, i));
    } else {
      CopyMarkMoves(h, s, t);
      MarkStep(h, s, Step(h, s, t), t);
    }
  }

  ghost predicate Marks(s: State, s': State, t: nat) {
    && PcOf(s, t).CopyMark? && s.tab < |s.tables| && PcOf(s, t).i < |s.tables[s.tab]|
    && var CopyMark(op, to, i, found) := PcOf(s, t);
       && s.tables[s.tab][i].tag == (if found.None? then Free else InUse(found.value))
       && s' == s.(tables := s.tables[s.tab := s.tables[s.tab][i := s.tables[s.tab][i].(tag := Moved(found))]],
                   threads := s.threads[t := CopyLoad(op, to, i + 1)])
  }

  lemma MarkNext(h: HashFn, s: State, s': State, t: nat)
    requires Shape(s) && Tables(h, s) && Threads(h, s) && CopierView(h, s, t) && Marks(s, s', t)
    ensures Shape(s') && Tables(h, s') && Evolves(s, s') && Values(s, s') && OthersOk(h, s, s', t)
  {
    MarkTables(h, s, s', PcOf(s, t).i, s.tables[s.tab][PcOf(s, t).i].(tag := Moved(PcOf(s, t).found)));
    MarkOthers(h, s, s', t, PcOf(s, t).i);
  }

  lemma MarkResizer(h: HashFn, s: State, s': State, t: nat)
    requires CopierView(h, s, t) && Marks(s, s', t) && Shape(s')
    ensures ResizerOk(h, s', CopyLoad(PcOf(s, t).op, PcOf(s, t).to, PcOf(s, t).i + 1))
  {
    MarkCopied(s.tables[s.tab], s.tables[s.tab + 1], PcOf(s, t).i, PcOf(s, t).found);
  }

  lemma MarkStep(h: HashFn, s: State, s': State, t: nat)
    requires Inv(h, s) && CopierView(h, s, t) && Marks(s, s', t)
    ensures Inv(h, s') && Evolves(s, s')
  {
    MarkNext(h, s, s', t);
    MarkResizer(h, s, s', t);
    CopyWriteEnd(h, s, s', t, CopyLoad(PcOf(s, t).op, PcOf(s, t).to, PcOf(s, t).i + 1));
  }

  lemma PublishTables(h: HashFn, s: State, s': State)
    requires Shape(s) && Tables(h, s) && s.tab + 1 == s.resizing && Current(s.writes, s.tables[s.tab + 1])
    requires Copied(s.tables[s.tab], s.tables[s.tab + 1], |s.tables[s.tab]|, None)
    requires s' == s.(tab := s.tab + 1, threads := s'.threads)
    ensures Shape(s') && Tables(h, s') && Evolves(s, s') && Values(s, s')
  {
    var from, dest := s.tables[s.tab], s.tables[s.tab + 1];
    forall key: Key | key in s.writes ensures Contains(dest, key) {
      assert Contains(from, key);
      var p :| 0 <= p < |from| && TagKey(from[p].tag) == Some(key);
    }
  }

  lemma PublishOthers(h: HashFn, s: State, s': State, t: nat)
    requires Shape(s) && Threads(h, s) && Resizer(PcOf(s, t)) && AllMoved(s.tables[s.tab]) && Shape(s')
    ensures OthersOk(h, s, s', t)
  {
    forall u | u in s.threads && u != t ensures !Resizer(s.threads[u]) && !Filling(s.threads[u]) {
      assert Apart(s.threads[t], s.threads[u]) && ThreadOk(h, s, s.threads[u]);
    }
  }

  lemma PublishStep(h: HashFn, s: State, t: nat)
    requires Inv(h, s) && PcOf(s, t).Publish?
    ensures Inv(h, Step(h, s, t)) && Evolves(s, Step(h, s, t))
  {
    var Publish(op, to) := PcOf(s, t);
    Viewed(h, s, t);
    var next := Start(op);
    var s' := Goto(s.(tab := to), t, next);
    PublishTables(h, s, s');
    PublishOthers(h, s, s', t);
    StillApart(h, s, t, next);
    Assemble(h, s, s', t, next);
  }

  // ---------------------------------------------------------------- all steps

  lemma WaitNext(h: HashFn, s: State, t: nat) returns (next: Pc)
    requires Shape(s) && ThreadOk(h, s, PcOf(s, t))
    requires var pc := PcOf(s, t); pc.Start? || pc.Check? || pc.WaitTab? || pc.WaitResizing?
    ensures Step(h, s, t) == Goto(s, t, next) && ThreadOk(h, s, next) && !Resizer(next) && !Filling(next)
  {
    match PcOf(s, t)
    case Start(op) =>
      next := if op.Put? then Check(op, s.tab) else Probe(op, s.tab, h(op.key) % |s.tables[s.tab]|, 0);
    case Check(op, cur) =>
      next := if s.members > |s.tables[cur]| / 2 then Grow(op, cur) else Probe(op, cur, h(op.key) % |s.tables[cur]|, 0);
    case WaitTab(op) => next := WaitResizing(op, s.tab);
    case WaitResizing(op, seen) => next := if seen == s.resizing then Start(op) else WaitTab(op);
  }

  lemma WaitStep(h: HashFn, s: State, t: nat)
    requires Inv(h, s)
    requires var pc := PcOf(s, t); pc.Start? || pc.Check? || pc.WaitTab? || pc.WaitResizing?
    ensures Inv(h, Step(h, s, t)) && Evolves(s, Step(h, s, t))
  {
    var next := WaitNext(h, s, t);
    LocalStep(h, s, t, next);
  }

  lemma StepKeepsInv(h: HashFn, s: State, t: nat)
    requires Inv(h, s) && Clean(s, Run(t))
    ensures Inv(h, Step(h, s, t)) && Evolves(s, Step(h, s, t))
  {
    match PcOf(s, t)
    case Idle =>
    case Probe(_, _, _, _) => ProbeStep(h, s, t);
    case Claim(_, _, _, _) => ClaimStep(h, s, t);
    case Fill(_, _, _, _) => FillStep(h, s, t);
    case Reveal(_, _, _, _) => RevealStep(h, s, t);
    case Count(_) => CountStep(h, s, t);
    case Seize(_, _, _) => SeizeStep(h, s, t);
    case Refill(_, _, _) => RefillStep(h, s, t);
    case Release(_, _, _) => ReleaseStep(h, s, t);
    case Fetch(_, _, _) => FetchStep(h, s, t);
    case Grow(_, _) => GrowStep(h, s, t);
    case CopyLoad(_, _, _) => CopyLocalStep(h, s, t);
    case CopyProbe(_, _, _, _, _, _) => CopyLocalStep(h, s, t);
    case CopyValue(_, _, _, _, _, _) => CopyValueStep(h, s, t);
    case CopyStore(_, _, _, _, _, _) => CopyStoreStep(h, s, t);
    case CopyMark(_, _, _, _) => CopyMarkStep(h, s, t);
    case Publish(_, _) => PublishStep(h, s, t);
    case Fault =>
    case _ => WaitStep(h, s, t);
  }

  // Calls only start an operation.
  lemma ApplyKeepsInv(h: HashFn, s: State, a: Action)
    requires Inv(h, s) && Clean(s, a)
    ensures Inv(h, Apply(h, s, a)) && Evolves(s, Apply(h, s, a))
  {
    match a
    case CallPut(t, key, value) =>
      if PcOf(s, t).Idle? {
        LogStep(h, s, Apply(h, s, a), t, Start(Put(key, value, |WritesOf(s, key)|, s.calls)));
      }
    case CallGet(t, key) =>
      if PcOf(s, t).Idle? {
        LogStep(h, s, Apply(h, s, a), t, Start(Get(key, |WritesOf(s, key)|)));
      }
    case Run(t) => StepKeepsInv(h, s, t);
  }
}
