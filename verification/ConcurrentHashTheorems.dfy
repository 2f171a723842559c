// What holds over whole runs of the concurrent hash table in which no put writes
// over a value that the copier has just read, or holds a slot that is marked.
module ConcurrentHashTheorems {
  import opened Options
  import opened ConcurrentHash
  import opened ConcurrentHashInvariant
  import opened ConcurrentHashWrites

  lemma InitInv(h: HashFn, size: nat)
    requires size > 0
    ensures Inv(h, Init(size)) && Once(Init(size))
  {
  }

  lemma EvolvesTransitive(a: State, b: State, c: State)
    requires Evolves(a, b) && Evolves(b, c)
    ensures Evolves(a, c)
  {
    forall n | 0 <= n < |a.tables| ensures TableLe(a.tables[n], c.tables[n]) {
      assert TableLe(a.tables[n], b.tables[n]) && TableLe(b.tables[n], c.tables[n]);
    }
    forall key: Key ensures Log(a.writes, key) <= Log(c.writes, key) {
      assert Log(a.writes, key) <= Log(b.writes, key) && Log(b.writes, key) <= Log(c.writes, key);
    }
  }

  // From any state satisfying the invariant a run keeps it; slots never lose
  // their key or become free again, and histories only grow.
  lemma {:induction false} RunsOnlyAdvance(h: HashFn, s: State, run: seq<Action>)
    requires Inv(h, s) && CleanRun(h, s, run)
    ensures Inv(h, From(h, s, run)) && Evolves(s, From(h, s, run))
    decreases |run|
  {
    if run != [] {
      var next := Apply(h, s, run[0]);
      ApplyKeepsInv(h, s, run[0]);
      RunsOnlyAdvance(h, next, run[1..]);
      EvolvesTransitive(s, next, From(h, s, run));
    }
  }

  lemma ReachableInv(h: HashFn, size: nat, run: seq<Action>)
    requires size > 0 && CleanRun(h, Init(size), run)
    ensures Inv(h, From(h, Init(size), run)) && Once(From(h, Init(size), run))
  {
    InitInv(h, size);
    RunsOnlyAdvance(h, Init(size), run);
    EachPutWritesOnce(h, Init(size), run);
  }

  // An operation takes effect at one moment between its call and its return:
  // a put at a write of its own, a get while its key had the value it returns.
  ghost predicate TakesEffect(s: State, r: Return) {
    if r.op.Put? then WroteBy(WritesOf(s, r.op.key), r.op, r.seen)
    else SomeTime(WritesOf(s, r.op.key), r.op.since, r.seen, r.result)
  }

  // Operations take effect in the order of the writes, which no two puts share. An
  // operation called later has at least as many writes behind it as `seen`.
  ghost predicate Linear(s: State) {
    && Distinct(s.writes)
    && forall n :: 0 <= n < |s.log| ==>
         TakesEffect(s, s.log[n]) && s.log[n].op.since <= s.log[n].seen <= |WritesOf(s, s.log[n].op.key)|
  }

  // Clean runs are linearizable, whatever puts overlap and whatever resizes happen.
  lemma Linearizable(h: HashFn, size: nat, run: seq<Action>)
    requires size > 0 && CleanRun(h, Init(size), run)
    ensures Linear(From(h, Init(size), run))
  {
    ReachableInv(h, size, run);
    var s := From(h, Init(size), run);
    forall n | 0 <= n < |s.log|
      ensures TakesEffect(s, s.log[n]) && s.log[n].op.since <= s.log[n].seen <= |WritesOf(s, s.log[n].op.key)|
    {
      assert ReturnOk(s.writes, s.log[n]);
    }
  }

  // A get that no put of its key overlaps returns the value of the last put.
  lemma QuietGetSeesLastPut(h: HashFn, size: nat, run: seq<Action>, n: nat)
    requires size > 0 && CleanRun(h, Init(size), run)
    requires var s := From(h, Init(size), run); n < |s.log| && s.log[n].op.Get? && s.log[n].seen == s.log[n].op.since
    ensures var s := From(h, Init(size), run);
            var r := s.log[n];
            r.seen <= |WritesOf(s, r.op.key)| && r.result == ValueAt(WritesOf(s, r.op.key), r.seen)
  {
    Linearizable(h, size, run);
    var s := From(h, Init(size), run);
    assert TakesEffect(s, s.log[n]);
  }

  // At every moment the published table is the map from each written key to its
  // latest value: one slot that a probe reaches, and none for any other key.
  lemma TableIsHistory(h: HashFn, size: nat, run: seq<Action>, key: Key) returns (p: nat)
    requires size > 0 && CleanRun(h, Init(size), run)
    ensures var s := From(h, Init(size), run);
            && s.tab < |s.tables|
            && var tab := s.tables[s.tab];
               && (WritesOf(s, key) != [] ==>
                     && p < |tab| && TagKey(tab[p].tag) == Some(key) && Reachable(tab, h(key), p)
                     && tab[p].value == ValueAt(WritesOf(s, key), |WritesOf(s, key)|))
               && forall q :: 0 <= q < |tab| && TagKey(tab[q].tag) == Some(key) ==> WritesOf(s, key) != [] && q == p
  {
    ReachableInv(h, size, run);
    var s := From(h, Init(size), run);
    var tab := s.tables[s.tab];
    p := 0;
    if WritesOf(s, key) != [] {
      assert Contains(tab, key);
      p :| 0 <= p < |tab| && TagKey(tab[p].tag) == Some(key);
    } else {
      assert forall q :: 0 <= q < |tab| && TagKey(tab[q].tag).Some? ==>
          Newest(s.writes, TagKey(tab[q].tag).value, tab[q].value);
    }
  }

  // No table, past, published or being filled, holds a key in two slots.
  lemma OneSlotPerKey(h: HashFn, size: nat, run: seq<Action>, n: nat, p: nat, q: nat)
    requires size > 0 && CleanRun(h, Init(size), run)
    requires var s := From(h, Init(size), run); n < |s.tables| && p < |s.tables[n]| && q < |s.tables[n]|
    requires var tab := From(h, Init(size), run).tables[n];
             TagKey(tab[p].tag).Some? && TagKey(tab[p].tag) == TagKey(tab[q].tag)
    ensures p == q
  {
    ReachableInv(h, size, run);
  }

  // No assertion of the source fails.
  lemma NoFault(h: HashFn, size: nat, run: seq<Action>, t: nat)
    requires size > 0 && CleanRun(h, Init(size), run)
    ensures !PcOf(From(h, Init(size), run), t).Fault?
  {
    ReachableInv(h, size, run);
  }

  // One thread copies at a time, and its probe ends inside the new table.
  lemma CopierProbeEnds(h: HashFn, size: nat, run: seq<Action>, t: nat, u: nat)
    requires size > 0 && CleanRun(h, Init(size), run)
    requires var s := From(h, Init(size), run); Resizer(PcOf(s, t)) && Resizer(PcOf(s, u))
    ensures t == u
    ensures var s := From(h, Init(size), run);
            PcOf(s, t).CopyProbe? ==> PcOf(s, t).to < |s.tables| && PcOf(s, t).k < |s.tables[PcOf(s, t).to]|
  {
    ReachableInv(h, size, run);
    var s := From(h, Init(size), run);
    assert ResizerOk(h, s, PcOf(s, t));
  }

  // ---------------------------------------------------------------- when a run is clean

  // The copier is about to publish a value that is not the latest one of its key.
  ghost predicate Stale(s: State, pc: Pc) {
    || (pc.CopyStore? && HasSlot(s, pc.to, pc.slot) && !Newest(s.writes, pc.key, s.tables[pc.to][pc.slot].value))
    || (pc.CopyMark? && pc.found.Some? && pc.to < |s.tables| && StaleCopy(s.writes, s.tables[pc.to], pc.found.value))
  }

  ghost predicate StaleCopy(ws: map<Key, seq<Write>>, dest: Table, key: Key) {
    exists q :: 0 <= q < |dest| && dest[q].tag == InUse(key) && !Newest(ws, key, dest[q].value)
  }

  ghost predicate Sound(s: State) {
    forall u :: u in s.threads ==> !s.threads[u].Fault? && !Stale(s, s.threads[u])
  }

  // So it is in every state along the run.
  ghost predicate SoundRun(h: HashFn, s: State, run: seq<Action>)
    decreases |run|
  {
    Sound(s) && (run != [] ==> SoundRun(h, Apply(h, s, run[0]), run[1..]))
  }

  lemma InvSound(h: HashFn, s: State)
    requires Inv(h, s)
    ensures Sound(s)
  {
    forall u | u in s.threads ensures !s.threads[u].Fault? && !Stale(s, s.threads[u]) {
      assert ThreadOk(h, s, s.threads[u]);
      if Resizer(s.threads[u]) {
        assert ResizerOk(h, s, s.threads[u]);
        NotStale(h, s, s.threads[u]);
      }
    }
  }

  lemma NotStale(h: HashFn, s: State, pc: Pc)
    requires Shape(s) && Resizer(pc) && ResizerOk(h, s, pc) && Current(s.writes, s.tables[s.tab])
    ensures !Stale(s, pc)
  {
    var dest := s.tables[s.tab + 1];
    forall q | 0 <= q < |dest| && dest[q].tag.InUse? ensures Newest(s.writes, dest[q].tag.key, dest[q].value) {
      assert TagKey(dest[q].tag) == Some(dest[q].tag.key);
    }
    if pc.CopyStore? {
      assert TagKey(s.tables[s.tab][pc.i].tag) == Some(pc.key);
    }
  }

  // Writing another value under a copier that has read the old one.
  lemma LateWriteStale(h: HashFn, s: State, s': State, op: Op, slot: nat, pc: Pc)
    requires Shape(s) && Current(s.writes, s.tables[s.tab]) && Resizer(pc) && ResizerOk(h, s, pc)
    requires op.Put? && HasSlot(s, s.tab, slot) && TagKey(s.tables[s.tab][slot].tag) == Some(op.key)
    requires s.tables[s.tab][slot].value != op.value && HasValue(pc, s.tab + 1, slot)
    requires s'.writes == Recorded(s.writes, op) && |s'.tables| == |s.tables|
    requires s'.tables[s.tab + 1] == s.tables[s.tab + 1]
    ensures Stale(s', pc)
  {
    var v := s.tables[s.tab][slot].value;
    OvertakenValue(s.writes, op, v);
    if pc.CopyMark? {
      CopyOvertaken(s.writes, s'.writes, s.tables[s.tab + 1], op.key, v);
    }
  }

  lemma OvertakenValue(ws: map<Key, seq<Write>>, op: Op, v: Val)
    requires op.Put? && v != op.value
    ensures !Newest(Recorded(ws, op), op.key, v)
  {
  }

  lemma CopyOvertaken(ws: map<Key, seq<Write>>, ws': map<Key, seq<Write>>, dest: Table, key: Key, v: Val)
    requires Current(ws, dest) && Contains(dest, key) && Newest(ws, key, v) && !Newest(ws', key, v)
    requires forall q :: 0 <= q < |dest| ==> dest[q].tag.Free? || dest[q].tag.InUse?
    ensures StaleCopy(ws', dest, key)
  {
    var q :| 0 <= q < |dest| && TagKey(dest[q].tag) == Some(key);
    assert dest[q].tag == InUse(key) && Newest(ws, key, dest[q].value);
  }

  lemma BusyMarkFaults(h: HashFn, s: State, t: nat)
    requires Inv(h, s) && PcOf(s, t).CopyMark? && !Clean(s, Run(t))
    ensures PcOf(Step(h, s, t), t).Fault? && t in Step(h, s, t).threads
  {
    assert ResizerOk(h, s, s.threads[t]);
  }

  lemma LateWriteUnsound(h: HashFn, s: State, t: nat)
    requires Inv(h, s) && PcOf(s, t).Refill? && !Clean(s, Run(t))
    ensures !Sound(Step(h, s, t))
  {
    var Refill(op, cur, slot) := PcOf(s, t);
    var s' := Step(h, s, t);
    assert ThreadOk(h, s, s.threads[t]);
    RefillGoes(h, s, t);
    var u :| u in s.threads && HasValue(s.threads[u], cur + 1, slot);
    assert ResizerOk(h, s, s.threads[u]);
    LateWriteStale(h, s, s', op, slot, s.threads[u]);
    assert u in s'.threads && Stale(s', s'.threads[u]);
  }

  lemma UncleanUnsound(h: HashFn, s: State, a: Action)
    requires Inv(h, s) && !Clean(s, a)
    ensures !Sound(Apply(h, s, a))
  {
    if PcOf(s, a.tid).Refill? {
      LateWriteUnsound(h, s, a.tid);
    } else {
      BusyMarkFaults(h, s, a.tid);
    }
  }

  // A run is clean if and only if in no state along it an assertion has failed or
  // the copier holds an overtaken value.
  lemma {:induction false} CleanIff(h: HashFn, s: State, run: seq<Action>)
    requires Inv(h, s)
    ensures CleanRun(h, s, run) <==> SoundRun(h, s, run)
    decreases |run|
  {
    InvSound(h, s);
    if run != [] {
      if Clean(s, run[0]) {
        ApplyKeepsInv(h, s, run[0]);
        CleanIff(h, Apply(h, s, run[0]), run[1..]);
      } else {
        UncleanUnsound(h, s, run[0]);
      }
    }
  }

  lemma CleanRunIff(h: HashFn, size: nat, run: seq<Action>)
    requires size > 0
    ensures CleanRun(h, Init(size), run) <==> SoundRun(h, Init(size), run)
  {
    InitInv(h, size);
    CleanIff(h, Init(size), run);
  }
}
