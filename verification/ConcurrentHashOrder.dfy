// Two conditions on what callers do that make a run clean: no put seizes a slot in
// the copier's window, and every key is put at most once.
module ConcurrentHashOrder {
  import opened ConcurrentHash
  import opened ConcurrentHashInvariant
  import opened ConcurrentHashWrites
  import opened ConcurrentHashTheorems

  // ---------------------------------------------------------------- seizing outside the window

  // Thread u is copying slot i of the published table.
  predicate Watched(s: State, u: nat, i: nat) { InWindow(PcOf(s, u), s.tab + 1, i) }

  // The slot being copied is in use.
  ghost predicate Undisturbed(s: State) {
    forall u: nat, i: nat :: Watched(s, u, i) ==> HasSlot(s, s.tab, i) && s.tables[s.tab][i].tag.InUse?
  }

  lemma UndisturbedIsClean(h: HashFn, s: State, a: Action)
    requires Inv(h, s) && Undisturbed(s)
    ensures Clean(s, a)
  {
    if a.Run? && PcOf(s, a.tid).Refill? {
      var pc := PcOf(s, a.tid);
      assert ThreadOk(h, s, pc);
      forall u | u in s.threads ensures !HasValue(s.threads[u], pc.cur + 1, pc.slot) {
        assert !Watched(s, u, pc.slot);
      }
    } else if a.Run? && PcOf(s, a.tid).CopyMark? {
      assert ResizerOk(h, s, PcOf(s, a.tid));
      assert PcOf(s, a.tid).found.Some? ==> Watched(s, a.tid, PcOf(s, a.tid).i);
    }
  }

  // Only a seizure makes a slot in use busy.
  ghost predicate KeepsInUse(s: State, s': State, n: nat, p: nat)
    requires HasSlot(s, n, p)
  {
    HasSlot(s', n, p) && (s.tables[n][p].tag.InUse? ==> !s'.tables[n][p].tag.Busy?)
  }

  lemma SlotBusy(s: State, t: nat, n: nat, p: nat)
    requires var pc := PcOf(s, t);
             pc.Claim? || pc.Fill? || pc.Reveal? || pc.Seize? || pc.Refill? || pc.Release? || pc.Fetch?
    requires HasSlot(s, n, p) && !(PcOf(s, t).Seize? && PcOf(s, t).cur == n && PcOf(s, t).slot == p)
    ensures KeepsInUse(s, StepSlot(s, t, PcOf(s, t)), n, p)
  {
  }

  lemma CopyBusy(h: HashFn, s: State, t: nat, n: nat, p: nat)
    requires var pc := PcOf(s, t); pc.CopyLoad? || pc.CopyProbe? || pc.CopyValue? || pc.CopyStore? || pc.CopyMark?
    requires HasSlot(s, n, p)
    ensures KeepsInUse(s, StepCopy(h, s, t, PcOf(s, t)), n, p)
  {
  }

  lemma ProbeBusy(s: State, t: nat, n: nat, p: nat)
    requires PcOf(s, t).Probe? && HasSlot(s, n, p)
    ensures KeepsInUse(s, StepProbe(s, t, PcOf(s, t)), n, p)
  {
  }

  lemma StepBusy(h: HashFn, s: State, t: nat, n: nat, p: nat)
    requires HasSlot(s, n, p) && !(PcOf(s, t).Seize? && PcOf(s, t).cur == n && PcOf(s, t).slot == p)
    ensures KeepsInUse(s, Step(h, s, t), n, p)
  {
    var pc := PcOf(s, t);
    if pc.Probe? {
      ProbeBusy(s, t, n, p);
    } else if pc.CopyLoad? || pc.CopyProbe? || pc.CopyValue? || pc.CopyStore? || pc.CopyMark? {
      CopyBusy(h, s, t, n, p);
    } else if pc.Claim? || pc.Fill? || pc.Reveal? || pc.Seize? || pc.Refill? || pc.Release? || pc.Fetch? {
      SlotBusy(s, t, n, p);
    }
  }

  // The copier enters its window at a slot in use.
  lemma EntersWindow(h: HashFn, s: State, t: nat, n: nat, i: nat)
    requires InWindow(PcOf(Step(h, s, t), t), n, i)
    ensures InWindow(PcOf(s, t), n, i) || (n > 0 && HasSlot(s, n - 1, i) && s.tables[n - 1][i].tag.InUse?)
    ensures Resizer(PcOf(s, t)) && PcOf(s, t).to == n
  {
    var pc := PcOf(s, t);
    if pc.CopyLoad? || pc.CopyProbe? || pc.CopyValue? || pc.CopyStore? || pc.CopyMark? {
      CopyEnters(h, s, t, n, i);
    } else if pc.Probe? {
      ProbeLeaves(s, t, n, i);
    } else if pc.Claim? || pc.Fill? || pc.Reveal? || pc.Seize? || pc.Refill? || pc.Release? || pc.Fetch? {
      SlotLeaves(s, t, n, i);
    }
  }

  lemma ProbeLeaves(s: State, t: nat, n: nat, i: nat)
    requires PcOf(s, t).Probe?
    ensures !InWindow(PcOf(StepProbe(s, t, PcOf(s, t)), t), n, i)
  {
  }

  lemma SlotLeaves(s: State, t: nat, n: nat, i: nat)
    requires var pc := PcOf(s, t);
             pc.Claim? || pc.Fill? || pc.Reveal? || pc.Seize? || pc.Refill? || pc.Release? || pc.Fetch?
    ensures !InWindow(PcOf(StepSlot(s, t, PcOf(s, t)), t), n, i)
  {
  }

  lemma CopyEnters(h: HashFn, s: State, t: nat, n: nat, i: nat)
    requires Resizer(PcOf(s, t)) && !PcOf(s, t).Publish? && InWindow(PcOf(StepCopy(h, s, t, PcOf(s, t)), t), n, i)
    ensures InWindow(PcOf(s, t), n, i) || (n > 0 && HasSlot(s, n - 1, i) && s.tables[n - 1][i].tag.InUse?)
    ensures PcOf(s, t).to == n
  {
  }

  lemma WindowFacts(h: HashFn, s: State, u: nat, n: nat, i: nat)
    requires Inv(h, s) && InWindow(PcOf(s, u), n, i)
    ensures n == s.tab + 1 && HasSlot(s, s.tab, i)
    ensures TagKey(s.tables[s.tab][i].tag).Some? && !s.tables[s.tab][i].tag.Moved?
  {
    assert ResizerOk(h, s, s.threads[u]);
  }

  // Before the step the slot was in use, and the step does not make it busy.
  lemma WasInUse(h: HashFn, s: State, t: nat, u: nat, n: nat, i: nat)
    requires Inv(h, s) && Undisturbed(s) && Orderly(s, Run(t)) && InWindow(PcOf(Step(h, s, t), u), n, i)
    requires u != t ==> PcOf(Step(h, s, t), u) == PcOf(s, u)
    ensures n == s.tab + 1 && HasSlot(s, s.tab, i) && s.tables[s.tab][i].tag.InUse?
    ensures KeepsInUse(s, Step(h, s, t), s.tab, i)
  {
    if u == t {
      EntersWindow(h, s, t, n, i);
      assert ResizerOk(h, s, s.threads[t]);
    }
    if InWindow(PcOf(s, u), n, i) {
      WindowFacts(h, s, u, n, i);
      assert Watched(s, u, i);
    }
    StepBusy(h, s, t, s.tab, i);
  }

  lemma OthersStay(h: HashFn, s: State, t: nat, u: nat)
    requires Inv(h, s) && u != t
    ensures PcOf(Step(h, s, t), u) == PcOf(s, u)
  {
    assert PcOf(s, t).Idle? || ThreadOk(h, s, s.threads[t]);
    StepKind(h, s, t);
  }

  lemma StillInUse(h: HashFn, s: State, s': State, u: nat, i: nat)
    requires Inv(h, s') && Watched(s', u, i) && s.tab == s'.tab
    requires HasSlot(s, s.tab, i) && s.tables[s.tab][i].tag.InUse? && KeepsInUse(s, s', s.tab, i)
    ensures HasSlot(s', s'.tab, i) && s'.tables[s'.tab][i].tag.InUse?
  {
    WindowFacts(h, s', u, s'.tab + 1, i);
  }

  lemma StepUndisturbed(h: HashFn, s: State, t: nat)
    requires Inv(h, s) && Undisturbed(s) && Orderly(s, Run(t)) && Inv(h, Step(h, s, t))
    ensures Undisturbed(Step(h, s, t))
  {
    var s' := Step(h, s, t);
    forall u: nat, i: nat | Watched(s', u, i) ensures HasSlot(s', s'.tab, i) && s'.tables[s'.tab][i].tag.InUse? {
      if u != t { OthersStay(h, s, t, u); }
      WasInUse(h, s, t, u, s'.tab + 1, i);
      StillInUse(h, s, s', u, i);
    }
  }

  lemma CallUndisturbed(h: HashFn, s: State, a: Action)
    requires Undisturbed(s) && !a.Run?
    ensures Undisturbed(Apply(h, s, a))
  {
    var s' := Apply(h, s, a);
    forall u: nat, i: nat | Watched(s', u, i) ensures HasSlot(s', s'.tab, i) && s'.tables[s'.tab][i].tag.InUse? {
      assert Watched(s, u, i);
    }
  }

  lemma ApplyUndisturbed(h: HashFn, s: State, a: Action)
    requires Inv(h, s) && Undisturbed(s) && Orderly(s, a)
    ensures Clean(s, a) && Inv(h, Apply(h, s, a)) && Undisturbed(Apply(h, s, a))
  {
    UndisturbedIsClean(h, s, a);
    ApplyKeepsInv(h, s, a);
    if a.Run? { StepUndisturbed(h, s, a.tid); } else { CallUndisturbed(h, s, a); }
  }

  // Runs in which nobody seizes a slot in the window are clean.
  lemma {:induction false} OrderlyRunsAreClean(h: HashFn, s: State, run: seq<Action>)
    requires Inv(h, s) && Undisturbed(s) && OrderlyRun(h, s, run)
    ensures CleanRun(h, s, run)
    decreases |run|
  {
    if run != [] {
      ApplyUndisturbed(h, s, run[0]);
      OrderlyRunsAreClean(h, Apply(h, s, run[0]), run[1..]);
    }
  }

  // ---------------------------------------------------------------- and the condition is exact

  // Within n steps of its own the copier u fails an assertion.
  ghost predicate Doomed(h: HashFn, s: State, u: nat, n: nat)
    decreases n
  {
    PcOf(s, u).Fault? || (n > 0 && Resizer(PcOf(s, u)) && Doomed(h, Step(h, s, u), u, n - 1))
  }

  ghost predicate CopyDoomed(h: HashFn, s: State) { exists u: nat, n: nat :: Doomed(h, s, u, n) }

  ghost predicate NeverDoomed(h: HashFn, s: State, run: seq<Action>)
    decreases |run|
  {
    !CopyDoomed(h, s) && (run != [] ==> NeverDoomed(h, Apply(h, s, run[0]), run[1..]))
  }

  lemma {:induction false} InvNotDoomed(h: HashFn, s: State, u: nat, n: nat)
    requires Inv(h, s) && Undisturbed(s)
    ensures !Doomed(h, s, u, n)
    decreases n
  {
    assert PcOf(s, u).Idle? || ThreadOk(h, s, s.threads[u]);
    if n > 0 && Resizer(PcOf(s, u)) {
      ApplyUndisturbed(h, s, Run(u));
      InvNotDoomed(h, Step(h, s, u), u, n - 1);
    }
  }

  // The slot being copied has been made busy.
  ghost predicate Disturbed(s: State, pc: Pc) {
    && Resizer(pc) && !pc.Publish? && InWindow(pc, pc.to, pc.i) && 0 < pc.to < |s.tables|
    && pc.i < |s.tables[pc.to - 1]| && s.tables[pc.to - 1][pc.i].tag.Busy?
    && (!pc.CopyMark? ==> pc.slot < |s.tables[pc.to]|)
  }

  lemma MarkDoomed(h: HashFn, s: State, u: nat)
    requires PcOf(s, u).CopyMark? && Disturbed(s, PcOf(s, u))
    ensures PcOf(Step(h, s, u), u).Fault? && Doomed(h, s, u, 1)
  {
    assert Doomed(h, Step(h, s, u), u, 0);
  }

  lemma StoreDoomed(h: HashFn, s: State, u: nat)
    requires PcOf(s, u).CopyStore? && Disturbed(s, PcOf(s, u))
    ensures Doomed(h, s, u, 2)
  {
    MarkDoomed(h, Step(h, s, u), u);
  }

  lemma ValueDoomed(h: HashFn, s: State, u: nat)
    requires PcOf(s, u).CopyValue? && Disturbed(s, PcOf(s, u))
    ensures Doomed(h, s, u, 3)
  {
    StoreDoomed(h, Step(h, s, u), u);
  }

  // The copier's probe goes on to a free slot, or fails on the way.
  lemma {:induction false} ProbeDoomed(h: HashFn, s: State, u: nat, q: nat) returns (n: nat)
    requires PcOf(s, u).CopyProbe? && Disturbed(s, PcOf(s, u))
    requires var pc := PcOf(s, u);
             var dest := s.tables[pc.to];
             && ReachAt(dest, h(pc.key), pc.slot, pc.k) && pc.k < |dest| && q < |dest| && dest[q].tag.Free?
             && forall p :: 0 <= p < |dest| ==> dest[p].tag.Free? || dest[p].tag.InUse?
    ensures Doomed(h, s, u, n)
    decreases |s.tables[PcOf(s, u).to]| - PcOf(s, u).k
  {
    var CopyProbe(op, to, i, key, slot, k) := PcOf(s, u);
    var dest, s' := s.tables[to], Step(h, s, u);
    if dest[slot].tag.Free? {
      n := 4;
      assert s' == Goto(s, u, CopyValue(op, to, i, key, slot, k));
      ValueDoomed(h, s', u);
    } else if dest[slot].tag == InUse(key) {
      n := 1;
      assert Doomed(h, s', u, 0);
    } else {
      SeekOn(dest, h(key), slot, k, q);
      assert s' == Goto(s, u, CopyProbe(op, to, i, key, (slot + 1) % |dest|, k + 1));
      n := ProbeDoomed(h, s', u, q);
      n := n + 1;
    }
  }

  // A put that seizes the slot under a copier, and what the copier then relies on.
  lemma Seizes(h: HashFn, s: State, t: nat, u: nat)
    requires Inv(h, s) && Undisturbed(s) && PcOf(s, t).Seize?
    requires InWindow(PcOf(s, u), PcOf(s, t).cur + 1, PcOf(s, t).slot)
    ensures CopierView(h, s, u) && HasSlot(s, s.tab, PcOf(s, t).slot) && PcOf(s, u).to == s.tab + 1
    ensures Step(h, s, t) == Seized(s, t, PcOf(s, t).op, s.tab, PcOf(s, t).slot)
  {
    WindowFacts(h, s, u, PcOf(s, t).cur + 1, PcOf(s, t).slot);
    assert ThreadOk(h, s, s.threads[t]) && Watched(s, u, PcOf(s, t).slot);
    Viewed(h, s, u);
    SeizeGoes(h, s, t);
  }

  lemma InTheWay(h: HashFn, s: State, s': State, u: nat, slot: nat)
    requires CopierView(h, s, u) && InWindow(PcOf(s, u), s.tab + 1, slot) && PcOf(s', u) == PcOf(s, u)
    requires |s'.tables| == |s.tables| && s'.tables[s.tab + 1] == s.tables[s.tab + 1]
    requires |s'.tables[s.tab]| == |s.tables[s.tab]| && slot < |s.tables[s.tab]| && s'.tables[s.tab][slot].tag.Busy?
    ensures Disturbed(s', PcOf(s', u))
  {
  }

  lemma SeizeDooms(h: HashFn, s: State, t: nat)
    requires Inv(h, s) && Undisturbed(s) && !Orderly(s, Run(t))
    ensures CopyDoomed(h, Step(h, s, t))
  {
    var u :| u in s.threads && InWindow(s.threads[u], PcOf(s, t).cur + 1, PcOf(s, t).slot);
    Seizes(h, s, t, u);
    Dooms(h, s, Step(h, s, t), u, PcOf(s, t).slot);
  }

  // A copier that finds its slot busy fails.
  lemma Dooms(h: HashFn, s: State, s': State, u: nat, slot: nat)
    requires CopierView(h, s, u) && InWindow(PcOf(s, u), s.tab + 1, slot) && PcOf(s', u) == PcOf(s, u)
    requires |s'.tables| == |s.tables| && s'.tables[s.tab + 1] == s.tables[s.tab + 1]
    requires |s'.tables[s.tab]| == |s.tables[s.tab]| && slot < |s.tables[s.tab]| && s'.tables[s.tab][slot].tag.Busy?
    ensures CopyDoomed(h, s')
  {
    var n := 0;
    InTheWay(h, s, s', u, slot);
    if PcOf(s, u).CopyProbe? {
      var q := EmptySlot(h, s.tables[s.tab], s.tables[s.tab + 1], PcOf(s, u).i);
      n := ProbeDoomed(h, s', u, q);
    } else if PcOf(s, u).CopyValue? {
      ValueDoomed(h, s', u);
      n := 3;
    } else if PcOf(s, u).CopyStore? {
      StoreDoomed(h, s', u);
      n := 2;
    } else {
      MarkDoomed(h, s', u);
      n := 1;
    }
    assert Doomed(h, s', u, n);
  }

  // A run is orderly if and only if at no point along it the copier, going on
  // alone, would fail an assertion.
  lemma {:induction false} OrderlyIff(h: HashFn, s: State, run: seq<Action>)
    requires Inv(h, s) && Undisturbed(s)
    ensures OrderlyRun(h, s, run) <==> NeverDoomed(h, s, run)
    decreases |run|
  {
    if CopyDoomed(h, s) {
      var u: nat, n: nat :| Doomed(h, s, u, n);
      InvNotDoomed(h, s, u, n);
    }
    if run != [] {
      if Orderly(s, run[0]) {
        ApplyUndisturbed(h, s, run[0]);
        OrderlyIff(h, Apply(h, s, run[0]), run[1..]);
      } else {
        SeizeDooms(h, s, run[0].tid);
      }
    }
  }

  lemma OrderlyRunIff(h: HashFn, size: nat, run: seq<Action>)
    requires size > 0
    ensures OrderlyRun(h, Init(size), run) <==> NeverDoomed(h, Init(size), run)
  {
    InitInv(h, size);
    OrderlyIff(h, Init(size), run);
  }

  // ---------------------------------------------------------------- every key put once

  ghost predicate PutsOnce(run: seq<Action>) {
    forall i, j :: 0 <= i < j < |run| && run[i].CallPut? && run[j].CallPut? ==> run[i].key != run[j].key
  }

  // Nobody has put the key.
  ghost predicate Unused(s: State, key: Key) {
    WritesOf(s, key) == [] && forall t :: t in s.threads && Putting(s.threads[t]) ==> s.threads[t].op.key != key
  }

  // Each key is written or being put by one put at most.
  ghost predicate Single(s: State) {
    && (forall t :: t in s.threads && Pending(s.threads[t]) ==> WritesOf(s, s.threads[t].op.key) == [])
    && (forall t, u :: t in s.threads && u in s.threads && t != u && Putting(s.threads[t]) && Putting(s.threads[u]) ==>
          s.threads[t].op.key != s.threads[u].op.key)
  }

  lemma SingleKind(s: State, s': State, t: nat)
    requires Single(s) && Kind(s, s', t)
    ensures Single(s') && forall key: Key :: Unused(s, key) ==> Unused(s', key)
  {
    if Puts(s, s', t) {
      forall key: Key | key != PcOf(s, t).op.key ensures WritesOf(s', key) == WritesOf(s, key) {
      }
    }
  }

  lemma SingleApply(h: HashFn, s: State, a: Action)
    requires Single(s) && Once(s) && (a.CallPut? ==> Unused(s, a.key))
    ensures Single(Apply(h, s, a))
    ensures forall key: Key :: Unused(s, key) && !(a.CallPut? && a.key == key) ==> Unused(Apply(h, s, a), key)
  {
    if a.Run? {
      StepKind(h, s, a.tid);
      SingleKind(s, Step(h, s, a.tid), a.tid);
    }
  }

  // Nobody finds its key in the table.
  lemma NobodySeizes(h: HashFn, s: State, t: nat)
    requires Inv(h, s) && Single(s)
    ensures !PcOf(s, t).Seize?
  {
    assert PcOf(s, t).Idle? || ThreadOk(h, s, s.threads[t]);
  }

  lemma {:induction false} OncePerKey(h: HashFn, s: State, run: seq<Action>)
    requires Inv(h, s) && Undisturbed(s) && Once(s) && Single(s) && PutsOnce(run)
    requires forall n :: 0 <= n < |run| && run[n].CallPut? ==> Unused(s, run[n].key)
    ensures OrderlyRun(h, s, run)
    decreases |run|
  {
    if run != [] {
      var s', rest := Apply(h, s, run[0]), run[1..];
      NobodySeizes(h, s, run[0].tid);
      ApplyUndisturbed(h, s, run[0]);
      ApplyKeeps(h, s, run[0]);
      SingleApply(h, s, run[0]);
      forall n | 0 <= n < |rest| && rest[n].CallPut? ensures Unused(s', rest[n].key) {
        assert rest[n] == run[n + 1];
      }
      OncePerKey(h, s', rest);
    }
  }

  // A run that puts every key at most once has no seizure, so it is linearizable and
  // no assertion fails, whatever the schedule.
  lemma PutsOnceAreLinearizable(h: HashFn, size: nat, run: seq<Action>)
    requires size > 0 && PutsOnce(run)
    ensures OrderlyRun(h, Init(size), run) && Linear(From(h, Init(size), run))
    ensures forall t: nat :: !PcOf(From(h, Init(size), run), t).Fault?
  {
    InitInv(h, size);
    OncePerKey(h, Init(size), run);
    OrderlyRunsAreClean(h, Init(size), run);
    Linearizable(h, size, run);
    forall t: nat ensures !PcOf(From(h, Init(size), run), t).Fault? {
      NoFault(h, size, run, t);
    }
  }
}
