// The run in which an overwriting put is lost: it falls between the copier's
// read of the value and the copier's CAS on the key.
module LostUpdate {
  import opened Options
  import opened ConcurrentHash
  import Probing
  import opened ConcurrentHashInvariant

  function H(key: Key): nat { key }

  ghost predicate Reaches(s: State, s': State) { exists run :: From(H, s, run) == s' }

  lemma {:induction false} FromConcat(s: State, a: seq<Action>, b: seq<Action>)
    ensures From(H, s, a + b) == From(H, From(H, s, a), b)
    decreases |a|
  {
    if a == [] {
      assert a + b == b;
    } else {
      assert (a + b)[0] == a[0] && (a + b)[1..] == a[1..] + b;
      FromConcat(Apply(H, s, a[0]), a[1..], b);
    }
  }

  lemma Then(s: State, a: Action, s': State, s'': State)
    requires Apply(H, s, a) == s' && Reaches(s', s'')
    ensures Reaches(s, s'')
  {
    var run :| From(H, s', run) == s'';
    assert ([a] + run)[1..] == run;
    assert From(H, s, [a] + run) == s'';
  }

  lemma Join(s: State, s': State, s'': State)
    requires Reaches(s, s') && Reaches(s', s'')
    ensures Reaches(s, s'')
  {
    var a :| From(H, s, a) == s';
    var b :| From(H, s', b) == s'';
    FromConcat(s, a, b);
  }

  lemma Stay(s: State)
    ensures Reaches(s, s)
  {
    assert From(H, s, []) == s;
  }

  lemma Writes(s: State, t: nat, pc: Pc, n: nat, p: nat, v: Slot, w: Slot)
    requires n < |s.tables| && p < |s.tables[n]|
    ensures SetSlot(Goto(SetSlot(s, n, p, v), t, pc), n, p, w) == Goto(SetSlot(s, n, p, w), t, pc)
  {
    assert s.tables[n][p := v][p := w] == s.tables[n][p := w];
    assert s.tables[n := s.tables[n][p := v]][n := s.tables[n][p := w]] == s.tables[n := s.tables[n][p := w]];
  }

  // The put that a call in state s starts.
  predicate NewPut(s: State, op: Op) { op.Put? && op == Put(op.key, op.value, |WritesOf(s, op.key)|, s.calls) }

  function Called(s: State): State { s.(calls := s.calls + 1) }

  // The state once the value is in a slot of the table.
  function Stored(s: State, cur: nat, slot: nat, op: Op): State
    requires op.Put? && cur < |s.tables| && slot < |s.tables[cur]|
  {
    Record(SetSlot(s, cur, slot, Slot(InUse(op.key), op.value)), op)
  }

  lemma PutChecks(s: State, t: nat, op: Op)
    requires NewPut(s, op) && PcOf(s, t).Idle? && s.tab < |s.tables| && |s.tables[s.tab]| > 0
    ensures Reaches(s, Goto(Called(s), t, Check(op, s.tab)))
  {
    var s0 := Goto(Called(s), t, Start(op));
    var s1 := Goto(Called(s), t, Check(op, s.tab));
    assert s1 == Goto(s0, t, Check(op, s.tab));
    Stay(s1);
    Then(s0, Run(t), s1, s1);
    Then(s, CallPut(t, op.key, op.value), s0, s1);
  }

  lemma PutStepsToProbe(s: State, t: nat, op: Op)
    requires op.Put? && PcOf(s, t) == Check(op, s.tab) && s.tab < |s.tables| && op.key < |s.tables[s.tab]|
             && s.members <= |s.tables[s.tab]| / 2
    ensures Apply(H, s, Run(t)) == Goto(s, t, Probe(op, s.tab, op.key, 0))
  {
    Probing.WrapOnce(op.key, |s.tables[s.tab]|);
  }

  // A put on a table that need not grow reads the first slot of its path.
  lemma PutProbes(s: State, t: nat, op: Op, next: State)
    requires NewPut(s, op) && PcOf(s, t).Idle? && s.tab < |s.tables| && op.key < |s.tables[s.tab]|
             && s.members <= |s.tables[s.tab]| / 2
    requires next == StepProbe(Goto(Called(s), t, Probe(op, s.tab, op.key, 0)), t, Probe(op, s.tab, op.key, 0))
    ensures Reaches(s, next)
  {
    PutChecks(s, t, op);
    var s1 := Goto(Called(s), t, Check(op, s.tab));
    var s2 := Goto(Called(s), t, Probe(op, s.tab, op.key, 0));
    assert s2 == Goto(s1, t, Probe(op, s.tab, op.key, 0));
    Stay(next);
    assert Apply(H, s2, Run(t)) == next;
    Then(s2, Run(t), next, next);
    PutStepsToProbe(s1, t, op);
    Then(s1, Run(t), s2, next);
    Join(s, s1, next);
  }

  // A first put into a free slot, from the CAS on.
  lemma PutStores(s: State, t: nat, op: Op, cur: nat, k: nat)
    requires op.Put? && PcOf(s, t) == Claim(op, cur, k, 0) && cur < |s.tables| && k < |s.tables[cur]|
    requires s.tables[cur][k].tag.Free?
    ensures Reaches(s, Finish(Stored(s, cur, k, op).(members := s.members + 1), t, op, 0))
  {
    var x := s.tables[cur][k];
    var s4 := Goto(SetSlot(s, cur, k, x.(tag := Busy(None))), t, Fill(op, cur, k, 0));
    var s5 := Goto(SetSlot(s, cur, k, Slot(Busy(None), op.value)), t, Reveal(op, cur, k, 0));
    var s6 := Goto(Stored(s, cur, k, op), t, Count(op));
    var s7 := Finish(Stored(s, cur, k, op).(members := s.members + 1), t, op, 0);
    Stay(s7);
    Then(s6, Run(t), s7, s7);
    Writes(s, t, s5.threads[t], cur, k, s5.tables[cur][k], s6.tables[cur][k]);
    Then(s5, Run(t), s6, s7);
    Writes(s, t, s4.threads[t], cur, k, s4.tables[cur][k], s5.tables[cur][k]);
    Then(s4, Run(t), s5, s7);
    Then(s, Run(t), s4, s7);
  }

  // ---------------------------------------------------------------- overwriting and copying

  lemma OverwriteStores(s: State, t: nat, op: Op, cur: nat, slot: nat)
    requires op.Put? && PcOf(s, t) == Seize(op, cur, slot) && cur < |s.tables| && slot < |s.tables[cur]|
    requires s.tables[cur][slot].tag == InUse(op.key)
    ensures Reaches(s, Finish(Stored(s, cur, slot, op), t, op, 0))
  {
    var x := s.tables[cur][slot];
    var s1 := Goto(SetSlot(s, cur, slot, x.(tag := Busy(Some(op.key)))), t, Refill(op, cur, slot));
    var s2 := Goto(Record(SetSlot(s, cur, slot, Slot(Busy(Some(op.key)), op.value)), op), t, Release(op, cur, slot));
    var s3 := Finish(Stored(s, cur, slot, op), t, op, 0);
    Stay(s3);
    Writes(s, t, s2.threads[t], cur, slot, s2.tables[cur][slot], s3.tables[cur][slot]);
    Then(s2, Run(t), s3, s3);
    Writes(s, t, s1.threads[t], cur, slot, s1.tables[cur][slot], s2.tables[cur][slot]);
    Then(s1, Run(t), s2, s3);
    Then(s, Run(t), s1, s3);
  }

  lemma GrowRuns(s: State, t: nat, op: Op)
    requires NewPut(s, op) && PcOf(s, t).Idle? && s.tab < |s.tables| && |s.tables[s.tab]| > 0
             && s.members > |s.tables[s.tab]| / 2
    requires s.resizing == s.tab
    ensures Reaches(s, Goto(Called(s).(tables := s.tables + [NewTable(2 * |s.tables[s.tab]|)],
                               resizing := |s.tables|), t, CopyLoad(op, |s.tables|, 0)))
  {
    var s1 := Goto(Called(s), t, Check(op, s.tab));
    var s2 := Goto(s1, t, Grow(op, s.tab));
    var s3 := Goto(s2.(tables := s.tables + [NewTable(2 * |s.tables[s.tab]|)], resizing := |s.tables|), t,
        CopyLoad(op, |s.tables|, 0));
    Stay(s3);
    Then(s2, Run(t), s3, s3);
    Then(s1, Run(t), s2, s3);
    PutChecks(s, t, op);
    Join(s, s1, s3);
    assert s3.threads == s.threads[t := CopyLoad(op, |s.tables|, 0)];
  }

  lemma CopyLoads(s: State, t: nat, op: Op, n: nat, i: nat, key: Key)
    requires PcOf(s, t) == CopyLoad(op, n, i) && 0 < n < |s.tables| && i < |s.tables[n - 1]| && key < |s.tables[n]|
    requires s.tables[n - 1][i].tag == InUse(key)
    ensures Apply(H, s, Run(t)) == Goto(s, t, CopyProbe(op, n, i, key, key, 0))
  {
    Probing.WrapOnce(key, |s.tables[n]|);
  }

  lemma CopyProbes(s: State, t: nat, op: Op, n: nat, i: nat, key: Key, slot: nat, k: nat)
    requires PcOf(s, t) == CopyProbe(op, n, i, key, slot, k) && 0 < n < |s.tables| && slot < |s.tables[n]|
    requires i < |s.tables[n - 1]| && s.tables[n][slot].tag.Free?
    ensures Reaches(s, Goto(SetSlot(s, n, slot, Slot(Free, s.tables[n - 1][i].value)), t,
            CopyStore(op, n, i, key, slot, k)))
  {
    var s1 := Goto(s, t, CopyValue(op, n, i, key, slot, k));
    var s2 := Goto(SetSlot(s, n, slot, Slot(Free, s.tables[n - 1][i].value)), t, CopyStore(op, n, i, key, slot, k));
    Stay(s2);
    Then(s1, Run(t), s2, s2);
    Then(s, Run(t), s1, s2);
  }

  // The copier finds the first slot tried free and reads the value.
  lemma CopyReads(s: State, t: nat, op: Op, n: nat, i: nat, key: Key)
    requires PcOf(s, t) == CopyLoad(op, n, i) && 0 < n < |s.tables| && i < |s.tables[n - 1]| && key < |s.tables[n]|
    requires s.tables[n - 1][i].tag == InUse(key) && s.tables[n][key].tag.Free?
    ensures Reaches(s, Goto(SetSlot(s, n, key, Slot(Free, s.tables[n - 1][i].value)), t,
            CopyStore(op, n, i, key, key, 0)))
  {
    var s1 := Goto(s, t, CopyProbe(op, n, i, key, key, 0));
    var s2 := Goto(SetSlot(s, n, key, Slot(Free, s.tables[n - 1][i].value)), t, CopyStore(op, n, i, key, key, 0));
    CopyLoads(s, t, op, n, i, key);
    CopyProbes(s1, t, op, n, i, key, key, 0);
    assert Goto(SetSlot(s1, n, key, Slot(Free, s.tables[n - 1][i].value)), t, CopyStore(op, n, i, key, key, 0)) == s2;
    Then(s, Run(t), s1, s2);
  }

  // The copier reveals the copy and its CAS only looks at the key.
  lemma CopyEnds(s: State, t: nat, op: Op, n: nat, i: nat, key: Key, slot: nat, k: nat)
    requires PcOf(s, t) == CopyStore(op, n, i, key, slot, k) && 0 < n < |s.tables| && i < |s.tables[n - 1]|
             && slot < |s.tables[n]|
    requires s.tables[n - 1][i].tag == InUse(key)
    ensures Reaches(s, Goto(SetSlot(SetSlot(s, n, slot, Slot(InUse(key), s.tables[n][slot].value)),
                                    n - 1, i, Slot(Moved(Some(key)), s.tables[n - 1][i].value)), t,
                                        CopyLoad(op, n, i + 1)))
  {
    var s1 := Goto(SetSlot(s, n, slot, Slot(InUse(key), s.tables[n][slot].value)), t, CopyMark(op, n, i, Some(key)));
    var s2 := Goto(SetSlot(s1, n - 1, i, Slot(Moved(Some(key)), s.tables[n - 1][i].value)), t, CopyLoad(op, n, i + 1));
    Stay(s2);
    Then(s1, Run(t), s2, s2);
    Then(s, Run(t), s1, s2);
  }

  // In any state: an overwrite that starts after the copier read the value and
  // ends before its CAS returns to its caller, yet the new table keeps the old value.
  lemma OverwriteInWindowIsLost(s: State, t: nat, put: Op, u: nat, op: Op, n: nat, i: nat, slot: nat,
      k: nat) returns (s': State)
    requires put.Put? && t != u && n > 0 && PcOf(s, t) == Seize(put, n - 1, i)
             && PcOf(s, u) == CopyStore(op, n, i, put.key, slot, k)
    requires n < |s.tables| && i < |s.tables[n - 1]| && slot < |s.tables[n]|
    requires s.tables[n - 1][i].tag == InUse(put.key)
    ensures Reaches(s, s') && s'.writes == Recorded(s.writes, put) && Newest(s'.writes, put.key, put.value)
    ensures s'.tables == s.tables[n := s.tables[n][slot := Slot(InUse(put.key), s.tables[n][slot].value)]]
                                 [n - 1 := s.tables[n - 1][i := Slot(Moved(Some(put.key)), put.value)]]
    ensures s' == s.(tables := s'.tables, writes := s'.writes,
            log := s.log + [Return(put, 0, |WritesOf(s, put.key)| + 1)],
                     threads := s.threads[t := Idle][u := CopyLoad(op, n, i + 1)])
  {
    var s1 := Finish(Stored(s, n - 1, i, put), t, put, 0);
    OverwriteStores(s, t, put, n - 1, i);
    CopyEnds(s1, u, op, n, i, put.key, slot, k);
    s' := Goto(SetSlot(SetSlot(s1, n, slot, Slot(InUse(put.key), s1.tables[n][slot].value)),
                       n - 1, i, Slot(Moved(Some(put.key)), s1.tables[n - 1][i].value)), u, CopyLoad(op, n, i + 1));
    Join(s, s1, s');
    var a, b := s.tables[n - 1], s.tables[n];
    assert a[i := Slot(InUse(put.key), put.value)][i := Slot(Moved(Some(put.key)), put.value)]
        == a[i := Slot(Moved(Some(put.key)), put.value)];
  }

  // In any state: an overwrite in the window that ends before the copier reads the
  // value is kept, so the seizure alone does no harm.
  lemma OverwriteBeforeReadIsKept(s: State, t: nat, put: Op, u: nat, op: Op, n: nat, i: nat, slot: nat, k: nat)
    returns (s': State)
    requires put.Put? && t != u && n > 0 && PcOf(s, t) == Seize(put, n - 1, i)
    requires PcOf(s, u) == CopyValue(op, n, i, put.key, slot, k)
    requires n < |s.tables| && i < |s.tables[n - 1]| && slot < |s.tables[n]|
    requires s.tables[n - 1][i].tag == InUse(put.key)
    ensures Reaches(s, s') && PcOf(s', t).Idle? && PcOf(s', u) == CopyLoad(op, n, i + 1)
    ensures s'.writes == Recorded(s.writes, put) && n < |s'.tables| && slot < |s'.tables[n]|
    ensures s'.tables[n][slot] == Slot(InUse(put.key), put.value)
  {
    var s1 := Finish(Stored(s, n - 1, i, put), t, put, 0);
    OverwriteStores(s, t, put, n - 1, i);
    assert s1.tables[n] == s.tables[n] && s1.tables[n - 1][i] == Slot(InUse(put.key), put.value);
    var s2 := Goto(SetSlot(s1, n, slot, s1.tables[n][slot].(value := put.value)), u,
        CopyStore(op, n, i, put.key, slot, k));
    Stay(s2);
    Then(s1, Run(u), s2, s2);
    Join(s, s1, s2);
    CopyEnds(s2, u, op, n, i, put.key, slot, k);
    s' := Goto(SetSlot(SetSlot(s2, n, slot, Slot(InUse(put.key), s2.tables[n][slot].value)),
                       n - 1, i, Slot(Moved(Some(put.key)), s2.tables[n - 1][i].value)), u, CopyLoad(op, n, i + 1));
    Join(s, s2, s');
  }

  lemma PublishRuns(s: State, t: nat, op: Op, n: nat)
    requires 0 < n < |s.tables| && PcOf(s, t) == CopyLoad(op, n, |s.tables[n - 1]|) && s.resizing == n && s.tab == n - 1
    ensures Reaches(s, Goto(s.(tab := n), t, Start(op)))
  {
    var s1 := Goto(s, t, Publish(op, n));
    var s2 := Goto(s.(tab := n), t, Start(op));
    Stay(s2);
    Then(s1, Run(t), s2, s2);
    Then(s, Run(t), s1, s2);
  }

  lemma GetRuns(s: State, t: nat, key: Key)
    requires PcOf(s, t).Idle? && s.tab < |s.tables| && key < |s.tables[s.tab]|
    requires s.tables[s.tab][key].tag == InUse(key)
    ensures var op := Get(key, |WritesOf(s, key)|); Reaches(s, Finish(s, t, op, s.tables[s.tab][key].value))
  {
    Probing.WrapOnce(key, |s.tables[s.tab]|);
    var op := Get(key, |WritesOf(s, key)|);
    var s0 := Goto(s, t, Start(op));
    var s1 := Goto(s, t, Probe(op, s.tab, key, 0));
    var s2 := Goto(s, t, Fetch(op, s.tab, key));
    var s3 := Finish(s, t, op, s.tables[s.tab][key].value);
    Stay(s3);
    Then(s2, Run(t), s3, s3);
    Then(s1, Run(t), s2, s3);
    Then(s0, Run(t), s1, s3);
    Then(s, CallGet(t, key), s0, s3);
  }

  // ---------------------------------------------------------------- the run

  function AfterPut(s: State, t: nat, op: Op): State
    requires op.Put? && s.tab < |s.tables| && op.key < |s.tables[s.tab]|
  {
    Finish(Stored(Called(s), s.tab, op.key, op).(members := s.members + 1), t, op, 0)
  }

  lemma PutRuns(s: State, t: nat, op: Op)
    requires NewPut(s, op) && PcOf(s, t).Idle? && s.tab < |s.tables| && op.key < |s.tables[s.tab]|
             && s.members <= |s.tables[s.tab]| / 2
    requires s.tables[s.tab][op.key].tag.Free?
    ensures Reaches(s, AfterPut(s, t, op))
  {
    var a := Goto(Called(s), t, Claim(op, s.tab, op.key, 0));
    PutProbes(s, t, op, a);
    PutStores(a, t, op, s.tab, op.key);
    Join(s, a, AfterPut(s, t, op));
  }

  lemma OverwriteRuns(s: State, t: nat, op: Op)
    requires NewPut(s, op) && PcOf(s, t).Idle? && s.tab < |s.tables| && op.key < |s.tables[s.tab]|
             && s.members <= |s.tables[s.tab]| / 2
    requires s.tables[s.tab][op.key].tag == InUse(op.key)
    ensures Reaches(s, Goto(Called(s), t, Seize(op, s.tab, op.key)))
  {
    PutProbes(s, t, op, Goto(Called(s), t, Seize(op, s.tab, op.key)));
  }

  // Two keys stored and an overwrite of key 0 about to start.
  lemma Prepare(v1: Val, v2: Val, w: Val) returns (s: State)
    ensures Reaches(Init(2), s) && s.tab == 0 && s.resizing == 0 && s.members == 2 && s.calls == 3
    ensures s.tables == [[Slot(InUse(0), v1), Slot(InUse(1), w)]]
    ensures s.threads == map[0 := Idle, 1 := Seize(Put(0, v2, 1, 1), 0, 0), 2 := Idle]
    ensures WritesOf(s, 0) == [Write(v1, 0)] && WritesOf(s, 2) == []
  {
    var s0, put, over, other := Init(2), Put(0, v1, 0, 0), Put(0, v2, 1, 1), Put(1, w, 0, 2);
    PutRuns(s0, 0, put);
    var s1 := AfterPut(s0, 0, put);
    assert s1.tables[0] == [Slot(InUse(0), v1), Slot(Free, 0)];
    OverwriteRuns(s1, 1, over);
    var s2 := Goto(Called(s1), 1, Seize(over, 0, 0));
    PutRuns(s2, 2, other);
    s := AfterPut(s2, 2, other);
    assert s.tables[0] == [Slot(InUse(0), v1), Slot(InUse(1), w)];
    Join(s0, s1, s2);
    Join(s0, s2, s);
  }

  // A third key makes the table grow, and the copier stops after reading the value of key 0.
  lemma StartCopy(s: State, v1: Val, v2: Val, w: Val, op: Op) returns (s': State)
    requires s.tables == [[Slot(InUse(0), v1), Slot(InUse(1), w)]] && s.tab == 0 && s.resizing == 0 && s.members == 2
    requires s.threads == map[0 := Idle, 1 := Seize(Put(0, v2, 1, 1), 0, 0), 2 := Idle] && NewPut(s, op)
    ensures Reaches(s, s') && s'.tab == 0 && s'.resizing == 1 && s'.writes == s.writes
    ensures s'.tables == [s.tables[0], [Slot(Free, v1), Slot(Free, 0), Slot(Free, 0), Slot(Free, 0)]]
    ensures s'.threads == s.threads[3 := CopyStore(op, 1, 0, 0, 0, 0)]
  {
    var s1 := Goto(Called(s).(tables := s.tables + [NewTable(4)], resizing := 1), 3, CopyLoad(op, 1, 0));
    GrowRuns(s, 3, op);
    CopyReads(s1, 3, op, 1, 0, 0);
    s' := Goto(SetSlot(s1, 1, 0, Slot(Free, v1)), 3, CopyStore(op, 1, 0, 0, 0, 0));
    Join(s, s1, s');
    FirstWrite(s.tables[0], v1);
  }

  lemma FirstWrite(tab: Table, v: Val)
    ensures [tab, NewTable(4)][1 := NewTable(4)[0 := Slot(Free, v)]]
            == [tab, [Slot(Free, v), Slot(Free, 0), Slot(Free, 0), Slot(Free, 0)]]
    ensures [tab] + [NewTable(4)] == [tab, NewTable(4)]
  {
    assert NewTable(4)[0 := Slot(Free, v)] == [Slot(Free, v), Slot(Free, 0), Slot(Free, 0), Slot(Free, 0)];
  }

  // The copier goes on with the second slot and publishes.
  lemma EndCopy(s: State, v1: Val, w: Val, op: Op) returns (s': State)
    requires |s.tables| == 2 && |s.tables[0]| == 2 && s.tables[0][1] == Slot(InUse(1), w) && s.tab == 0
             && s.resizing == 1
    requires s.tables[1] == [Slot(InUse(0), v1), Slot(Free, 0), Slot(Free, 0), Slot(Free, 0)]
    requires PcOf(s, 3) == CopyLoad(op, 1, 1)
    ensures Reaches(s, s') && s'.tab == 1 && s'.writes == s.writes
    ensures |s'.tables| == 2 && |s'.tables[1]| == 4 && s'.tables[1][0] == Slot(InUse(0), v1)
    ensures PcOf(s', 4) == PcOf(s, 4)
  {
    CopyReads(s, 3, op, 1, 1, 1);
    var s1 := Goto(SetSlot(s, 1, 1, Slot(Free, w)), 3, CopyStore(op, 1, 1, 1, 1, 0));
    CopyEnds(s1, 3, op, 1, 1, 1, 1, 0);
    var s2 := Goto(SetSlot(SetSlot(s1, 1, 1, Slot(InUse(1), w)), 0, 1, Slot(Moved(Some(1)), w)), 3, CopyLoad(op, 1, 2));
    Join(s, s1, s2);
    PublishRuns(s2, 3, op, 1);
    s' := Goto(s2.(tab := 1), 3, Start(op));
    Join(s, s2, s');
  }

  // The copier publishes the old value of key 0 after the overwrite returned.
  lemma Overtaken(v1: Val, v2: Val) returns (s: State)
    ensures Reaches(Init(2), s) && s.tab == 1 && |s.tables| == 2 && |s.tables[1]| == 4 && PcOf(s, 4).Idle?
    ensures s.tables[1][0] == Slot(InUse(0), v1) && WritesOf(s, 0) == [Write(v1, 0), Write(v2, 1)]
  {
    var s0, op := Init(2), Put(2, 0, 0, 3);
    var s1 := Prepare(v1, v2, 0);
    var s2 := StartCopy(s1, v1, v2, 0, op);
    Join(s0, s1, s2);
    var s3 := Overwritten(s2, v1, v2, op);
    Join(s0, s2, s3);
    s := EndCopy(s3, v1, 0, op);
    Join(s0, s3, s);
  }

  lemma Overwritten(s: State, v1: Val, v2: Val, op: Op) returns (s': State)
    requires s.tables == [[Slot(InUse(0), v1), Slot(InUse(1), 0)],
                          [Slot(Free, v1), Slot(Free, 0), Slot(Free, 0), Slot(Free, 0)]]
    requires PcOf(s, 1) == Seize(Put(0, v2, 1, 1), 0, 0) && PcOf(s, 3) == CopyStore(op, 1, 0, 0, 0, 0)
    requires PcOf(s, 4).Idle? && s.tab == 0 && s.resizing == 1 && WritesOf(s, 0) == [Write(v1, 0)]
    ensures Reaches(s, s') && s'.tab == 0 && s'.resizing == 1 && WritesOf(s', 0) == [Write(v1, 0), Write(v2, 1)]
    ensures |s'.tables| == 2 && |s'.tables[0]| == 2 && s'.tables[0][1] == Slot(InUse(1), 0)
    ensures s'.tables[1] == [Slot(InUse(0), v1), Slot(Free, 0), Slot(Free, 0), Slot(Free, 0)]
    ensures PcOf(s', 3) == CopyLoad(op, 1, 1) && PcOf(s', 4).Idle?
  {
    s' := OverwriteInWindowIsLost(s, 1, Put(0, v2, 1, 1), 3, op, 1, 0, 0, 0);
    assert s'.tables[1] == [Slot(InUse(0), v1), Slot(Free, 0), Slot(Free, 0), Slot(Free, 0)];
  }

  // For any two values: a put of v2 to a key holding v1 returns, and a get that
  // starts afterwards, overlapping no put of the key, still returns v1.
  lemma LostUpdate(v1: Val, v2: Val) returns (run: seq<Action>)
    ensures var s := From(H, Init(2), run);
            && s.log != [] && s.log[|s.log| - 1] == Return(Get(0, 2), v1, 2)
            && WritesOf(s, 0) == [Write(v1, 0), Write(v2, 1)]
  {
    var s := Overtaken(v1, v2);
    GetRuns(s, 4, 0);
    var s' := Finish(s, 4, Get(0, 2), v1);
    Join(Init(2), s, s');
    run :| From(H, Init(2), run) == s';
  }
}
