// What each put contributes to the history of its key, over all runs: one write,
// made between its call and its return.
module ConcurrentHashWrites {
  import opened ConcurrentHash

  // A put that has not written yet, and one that has.
  predicate Pending(pc: Pc) { Active(pc) && pc.op.Put? && !pc.Count? && !pc.Release? }

  predicate Written(pc: Pc) { (pc.Count? || pc.Release?) && pc.op.Put? }

  predicate Putting(pc: Pc) { Active(pc) && pc.op.Put? }

  ghost predicate Uses(ws: map<Key, seq<Write>>, id: nat) {
    exists key: Key, j: nat :: j < |Log(ws, key)| && Log(ws, key)[j].id == id
  }

  // No put writes twice.
  ghost predicate Distinct(ws: map<Key, seq<Write>>) {
    forall key: Key, j: nat, other: Key, n: nat ::
      j < |Log(ws, key)| && n < |Log(ws, other)| && Log(ws, key)[j].id == Log(ws, other)[n].id ==>
          key == other && j == n
  }

  // The put wrote after its call and among the first `hi` writes.
  ghost predicate WroteBy(log: seq<Write>, op: Op, hi: nat)
    requires op.Put?
  {
    hi <= |log| && exists j: nat :: op.since <= j < hi && log[j] == Write(op.value, op.id)
  }

  ghost predicate PutOk(s: State, pc: Pc)
    requires Putting(pc)
  {
    && pc.op.id < s.calls && pc.op.since <= |WritesOf(s, pc.op.key)|
    && (Pending(pc) ==> !Uses(s.writes, pc.op.id))
    && (Written(pc) ==> WroteBy(WritesOf(s, pc.op.key), pc.op, |WritesOf(s, pc.op.key)|))
  }

  ghost predicate Returned(ws: map<Key, seq<Write>>, log: seq<Return>) {
    forall n :: 0 <= n < |log| && log[n].op.Put? ==> WroteBy(Log(ws, log[n].op.key), log[n].op, log[n].seen)
  }

  ghost predicate Once(s: State) {
    && Distinct(s.writes) && (forall id: nat :: Uses(s.writes, id) ==> id < s.calls)
    && (forall t :: t in s.threads && Putting(s.threads[t]) ==> PutOk(s, s.threads[t]))
    && (forall t, u :: t in s.threads && u in s.threads && t != u && Putting(s.threads[t]) && Putting(s.threads[u]) ==>
          s.threads[t].op.id != s.threads[u].op.id)
    && (forall t :: t in s.threads && s.threads[t].Fetch? ==> s.threads[t].op.Get?)
    && Returned(s.writes, s.log)
  }

  // ---------------------------------------------------------------- the four kinds of step

  // The thread goes on with its operation, unless an assertion fails.
  ghost predicate Goes(s: State, s': State, t: nat) {
    && s'.writes == s.writes && s'.log == s.log && s'.calls == s.calls && s'.threads == s.threads[t := PcOf(s', t)]
    && Active(PcOf(s, t))
    && (|| PcOf(s', t).Fault?
        || (&& Active(PcOf(s', t)) && PcOf(s', t).op == PcOf(s, t).op
            && (Pending(PcOf(s', t)) <==> Pending(PcOf(s, t))) && (PcOf(s', t).Fetch? ==> PcOf(s', t).op.Get?)))
  }

  ghost predicate Puts(s: State, s': State, t: nat) {
    && Pending(PcOf(s, t)) && Written(PcOf(s', t)) && PcOf(s', t).op == PcOf(s, t).op
    && s'.writes == Recorded(s.writes, PcOf(s, t).op) && s'.log == s.log && s'.calls == s.calls
    && s'.threads == s.threads[t := PcOf(s', t)]
  }

  ghost predicate Returns(s: State, s': State, t: nat) {
    && Active(PcOf(s, t)) && s'.threads == s.threads[t := Idle] && s'.writes == s.writes && s'.calls == s.calls
    && |s'.log| == |s.log| + 1 && s'.log[..|s.log|] == s.log
    && s'.log[|s.log|] == Return(PcOf(s, t).op, s'.log[|s.log|].result, |WritesOf(s, PcOf(s, t).op.key)|)
    && (PcOf(s, t).op.Put? ==> Written(PcOf(s, t)))
  }

  ghost predicate Kind(s: State, s': State, t: nat) { s' == s || Goes(s, s', t) || Puts(s, s', t) || Returns(s, s', t) }

  lemma SlotKind(s: State, t: nat)
    requires var pc := PcOf(s, t);
             pc.Claim? || pc.Fill? || pc.Reveal? || pc.Seize? || pc.Refill? || pc.Release? || (pc.Fetch? && pc.op.Get?)
    ensures Kind(s, StepSlot(s, t, PcOf(s, t)), t)
  {
  }

  lemma CopyKind(h: HashFn, s: State, t: nat)
    requires var pc := PcOf(s, t); pc.CopyLoad? || pc.CopyProbe? || pc.CopyValue? || pc.CopyStore? || pc.CopyMark?
    ensures Kind(s, StepCopy(h, s, t, PcOf(s, t)), t)
  {
  }

  lemma ProbeKind(s: State, t: nat)
    requires PcOf(s, t).Probe?
    ensures Kind(s, StepProbe(s, t, PcOf(s, t)), t)
  {
  }

  lemma StepKind(h: HashFn, s: State, t: nat)
    requires PcOf(s, t).Fetch? ==> PcOf(s, t).op.Get?
    ensures Kind(s, Step(h, s, t), t)
  {
    var pc := PcOf(s, t);
    if pc.Probe? {
      ProbeKind(s, t);
    } else if pc.CopyLoad? || pc.CopyProbe? || pc.CopyValue? || pc.CopyStore? || pc.CopyMark? {
      CopyKind(h, s, t);
    } else if pc.Claim? || pc.Fill? || pc.Reveal? || pc.Seize? || pc.Refill? || pc.Release? || pc.Fetch? {
      SlotKind(s, t);
    } else {
      OtherKind(h, s, t);
    }
  }

  lemma OtherKind(h: HashFn, s: State, t: nat)
    requires var pc := PcOf(s, t);
             || pc.Idle? || pc.Fault? || pc.Start? || pc.Check? || pc.Count? || pc.WaitTab? || pc.WaitResizing?
             || pc.Grow? || pc.Publish?
    ensures Kind(s, Step(h, s, t), t)
  {
  }

  // ---------------------------------------------------------------- each keeps the history in order

  lemma LaterWroteBy(a: seq<Write>, b: seq<Write>, op: Op, hi: nat)
    requires op.Put? && a <= b && WroteBy(a, op, hi)
    ensures WroteBy(b, op, hi) && WroteBy(b, op, |b|)
  {
    var j: nat :| op.since <= j < hi && a[j] == Write(op.value, op.id);
    assert b[j] == Write(op.value, op.id);
  }

  lemma GoesKeeps(s: State, s': State, t: nat)
    requires Once(s) && Goes(s, s', t)
    ensures Once(s')
  {
    forall u | u in s'.threads && Putting(s'.threads[u]) ensures PutOk(s', s'.threads[u]) {
      assert PutOk(s, s.threads[u]);
    }
  }

  lemma ReturnsKeeps(s: State, s': State, t: nat)
    requires Once(s) && Returns(s, s', t)
    ensures Once(s')
  {
    forall u | u in s'.threads && Putting(s'.threads[u]) ensures PutOk(s', s'.threads[u]) {
      assert PutOk(s, s.threads[u]);
    }
    assert PcOf(s, t).op.Put? ==> PutOk(s, s.threads[t]);
    forall n | 0 <= n < |s'.log| && s'.log[n].op.Put?
      ensures WroteBy(Log(s.writes, s'.log[n].op.key), s'.log[n].op, s'.log[n].seen)
    {
      assert n < |s.log| ==> s'.log[n] == s.log[n];
    }
  }

  lemma RecordedUses(ws: map<Key, seq<Write>>, op: Op, id: nat)
    requires op.Put? && Uses(Recorded(ws, op), id)
    ensures id == op.id || Uses(ws, id)
  {
    var ws' := Recorded(ws, op);
    var key: Key, j: nat :| j < |Log(ws', key)| && Log(ws', key)[j].id == id;
    assert j < |Log(ws, key)| ==> Log(ws, key)[j] == Log(ws', key)[j];
  }

  lemma RecordedDistinct(ws: map<Key, seq<Write>>, op: Op)
    requires op.Put? && Distinct(ws) && !Uses(ws, op.id)
    ensures Distinct(Recorded(ws, op))
  {
    var ws' := Recorded(ws, op);
    forall key: Key, j: nat, other: Key, n: nat |
      j < |Log(ws', key)| && n < |Log(ws', other)| && Log(ws', key)[j].id == Log(ws', other)[n].id
      ensures key == other && j == n
    {
      assert j < |Log(ws, key)| ==> Log(ws, key)[j] == Log(ws', key)[j];
      assert n < |Log(ws, other)| ==> Log(ws, other)[n] == Log(ws', other)[n];
    }
  }

  lemma RecordedGrows(ws: map<Key, seq<Write>>, op: Op, key: Key)
    requires op.Put?
    ensures Log(ws, key) <= Log(Recorded(ws, op), key)
    ensures Log(Recorded(ws, op), op.key) == Log(ws, op.key) + [Write(op.value, op.id)]
  {
  }

  lemma PutsPuts(s: State, s': State, t: nat)
    requires Once(s) && Puts(s, s', t)
    ensures forall u :: u in s'.threads && Putting(s'.threads[u]) ==> PutOk(s', s'.threads[u])
  {
    var op := PcOf(s, t).op;
    forall u | u in s'.threads && Putting(s'.threads[u]) ensures PutOk(s', s'.threads[u]) {
      var pc := s'.threads[u];
      assert PutOk(s, s.threads[u]);
      RecordedGrows(s.writes, op, pc.op.key);
      if u == t {
        assert WritesOf(s', op.key)[|WritesOf(s, op.key)|] == Write(op.value, op.id);
      } else if Written(pc) {
        LaterWroteBy(WritesOf(s, pc.op.key), WritesOf(s', pc.op.key), pc.op, |WritesOf(s, pc.op.key)|);
      } else if Uses(s'.writes, pc.op.id) {
        RecordedUses(s.writes, op, pc.op.id);
      }
    }
  }

  lemma PutsKeeps(s: State, s': State, t: nat)
    requires Once(s) && Puts(s, s', t)
    ensures Once(s')
  {
    var op := PcOf(s, t).op;
    assert PutOk(s, s.threads[t]);
    RecordedDistinct(s.writes, op);
    forall id: nat | Uses(s'.writes, id) ensures id < s'.calls {
      RecordedUses(s.writes, op, id);
    }
    PutsPuts(s, s', t);
    forall n | 0 <= n < |s.log| && s.log[n].op.Put?
      ensures WroteBy(Log(s'.writes, s.log[n].op.key), s.log[n].op, s.log[n].seen)
    {
      RecordedGrows(s.writes, op, s.log[n].op.key);
      LaterWroteBy(Log(s.writes, s.log[n].op.key), Log(s'.writes, s.log[n].op.key), s.log[n].op, s.log[n].seen);
    }
  }

  lemma CallKeeps(s: State, s': State, t: nat, op: Op)
    requires Once(s) && PcOf(s, t).Idle? && op.since == |WritesOf(s, op.key)|
    requires s' == Goto(s, t, Start(op))
             || (op.Put? && s' == Goto(s.(calls := s.calls + 1), t, Start(op)) && op.id == s.calls)
    requires op.Put? ==> s'.calls == s.calls + 1
    ensures Once(s')
  {
    forall u | u in s'.threads && Putting(s'.threads[u]) ensures PutOk(s', s'.threads[u]) {
      assert u != t ==> PutOk(s, s.threads[u]);
      assert u == t ==> !Uses(s.writes, op.id);
    }
    forall u | u in s.threads && Putting(s.threads[u]) ensures s.threads[u].op.id < s.calls {
      assert PutOk(s, s.threads[u]);
    }
  }

  lemma ApplyKeeps(h: HashFn, s: State, a: Action)
    requires Once(s)
    ensures Once(Apply(h, s, a))
  {
    var s' := Apply(h, s, a);
    match a
    case CallPut(t, key, value) =>
      if PcOf(s, t).Idle? { CallKeeps(s, s', t, Put(key, value, |WritesOf(s, key)|, s.calls)); }
    case CallGet(t, key) =>
      if PcOf(s, t).Idle? { CallKeeps(s, s', t, Get(key, |WritesOf(s, key)|)); }
    case Run(t) =>
      StepKind(h, s, t);
      if Goes(s, s', t) {
        GoesKeeps(s, s', t);
      } else if Puts(s, s', t) {
        PutsKeeps(s, s', t);
      } else if Returns(s, s', t) {
        ReturnsKeeps(s, s', t);
      }
  }

  // In any run, whatever the schedule: the writes to all keys are by different
  // puts, and a put that returned wrote its value between its call and its return.
  lemma {:induction false} EachPutWritesOnce(h: HashFn, s: State, run: seq<Action>)
    requires Once(s)
    ensures Once(From(h, s, run))
    decreases |run|
  {
    if run != [] {
      ApplyKeeps(h, s, run[0]);
      EachPutWritesOnce(h, Apply(h, s, run[0]), run[1..]);
    }
  }
}
