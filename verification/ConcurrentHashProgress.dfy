// A thread on its own gets on: its get or put returns, and its resize ends.
module ConcurrentHashProgress {
  import opened Probing
  import opened ConcurrentHash
  import opened ConcurrentHashInvariant

  function Alone(h: HashFn, s: State, t: nat, n: nat): State
    decreases n
  {
    if n == 0 then s else Alone(h, Step(h, s, t), t, n - 1)
  }

  lemma OneStep(h: HashFn, s: State, t: nat)
    ensures Alone(h, s, t, 1) == Step(h, s, t)
  {
    assert Alone(h, Step(h, s, t), t, 0) == Step(h, s, t);
  }

  // No slot is held by a put.
  ghost predicate Calm(tab: Table) { forall p :: 0 <= p < |tab| ==> !tab[p].tag.Busy? }

  // ---------------------------------------------------------------- the steps after the probe

  predicate Returned(h: HashFn, s: State, t: nat, n: nat) { PcOf(Alone(h, s, t, n), t).Idle? }

  lemma CountReturns(h: HashFn, s: State, t: nat)
    requires PcOf(s, t).Count?
    ensures Returned(h, s, t, 1)
  {
    OneStep(h, s, t);
  }

  lemma RevealReturns(h: HashFn, s: State, t: nat)
    requires PcOf(s, t).Reveal? && HasSlot(s, PcOf(s, t).cur, PcOf(s, t).slot)
    ensures Returned(h, s, t, 2)
  {
    CountReturns(h, Step(h, s, t), t);
  }

  lemma FillReturns(h: HashFn, s: State, t: nat)
    requires PcOf(s, t).Fill? && HasSlot(s, PcOf(s, t).cur, PcOf(s, t).slot)
    ensures Returned(h, s, t, 3)
  {
    RevealReturns(h, Step(h, s, t), t);
  }

  lemma ClaimReturns(h: HashFn, s: State, t: nat)
    requires PcOf(s, t).Claim? && HasSlot(s, PcOf(s, t).cur, PcOf(s, t).slot)
    requires s.tables[PcOf(s, t).cur][PcOf(s, t).slot].tag.Free?
    ensures Returned(h, s, t, 4)
  {
    FillReturns(h, Step(h, s, t), t);
  }

  lemma ReleaseReturns(h: HashFn, s: State, t: nat)
    requires PcOf(s, t).Release? && HasSlot(s, PcOf(s, t).cur, PcOf(s, t).slot)
    ensures Returned(h, s, t, 1)
  {
    OneStep(h, s, t);
  }

  lemma RefillReturns(h: HashFn, s: State, t: nat)
    requires PcOf(s, t).Refill? && HasSlot(s, PcOf(s, t).cur, PcOf(s, t).slot)
    ensures Returned(h, s, t, 2)
  {
    ReleaseReturns(h, Step(h, s, t), t);
  }

  lemma SeizeReturns(h: HashFn, s: State, t: nat)
    requires PcOf(s, t).Seize? && HasSlot(s, PcOf(s, t).cur, PcOf(s, t).slot)
    requires s.tables[PcOf(s, t).cur][PcOf(s, t).slot].tag == InUse(PcOf(s, t).op.key)
    ensures Returned(h, s, t, 3)
  {
    RefillReturns(h, Step(h, s, t), t);
  }

  lemma FetchReturns(h: HashFn, s: State, t: nat)
    requires PcOf(s, t).Fetch? && HasSlot(s, PcOf(s, t).cur, PcOf(s, t).slot)
    ensures Returned(h, s, t, 1)
  {
    OneStep(h, s, t);
  }

  // ---------------------------------------------------------------- the probe

  // While a slot is free, fewer slots than there are have been passed.
  lemma PassedFew(h: HashFn, tab: Table, key: Key, k: nat, q: nat)
    requires q < |tab| && tab[q].tag.Free? && Passed(h, tab, key, k)
    ensures k < |tab|
  {
    var m := LinearVisitsAll(h(key), |tab|, q);
    assert LinearSlot(h(key), m, |tab|) == q;
  }

  lemma FoundReturns(h: HashFn, s: State, t: nat)
    requires PcOf(s, t).Probe? && HasSlot(s, PcOf(s, t).cur, PcOf(s, t).slot)
    requires var tag := s.tables[PcOf(s, t).cur][PcOf(s, t).slot].tag; tag.Free? || tag == InUse(PcOf(s, t).op.key)
    ensures Returned(h, s, t, 1) || Returned(h, s, t, 2) || Returned(h, s, t, 4) || Returned(h, s, t, 5)
  {
    var s', next := Step(h, s, t), ProbeTo(s, PcOf(s, t));
    ProbeGoes(h, s, t);
    OneStep(h, s, t);
    if next.Claim? {
      ClaimReturns(h, s', t);
      assert Alone(h, s, t, 5) == Alone(h, s', t, 4);
    } else if next.Seize? {
      SeizeReturns(h, s', t);
      assert Alone(h, s, t, 4) == Alone(h, s', t, 3);
    } else if next.Fetch? {
      FetchReturns(h, s', t);
      assert Alone(h, s, t, 2) == Alone(h, s', t, 1);
    }
  }

  lemma {:induction false} ProbeReturns(h: HashFn, s: State, t: nat, q: nat) returns (n: nat)
    requires Shape(s) && PcOf(s, t).Probe? && PlaceOk(h, s, PcOf(s, t)) && PcOf(s, t).cur == s.tab
    requires NoneMoved(s.tables[s.tab]) && Calm(s.tables[s.tab]) && q < |s.tables[s.tab]|
             && s.tables[s.tab][q].tag.Free?
    ensures Returned(h, s, t, n) && n + PcOf(s, t).k <= |s.tables[s.tab]| + 4
    decreases |s.tables[s.tab]| - PcOf(s, t).k
  {
    var Probe(op, cur, slot, k) := PcOf(s, t);
    var tab := s.tables[cur];
    PassedFew(h, tab, op.key, k, q);
    if tab[slot].tag.Free? || tab[slot].tag == InUse(op.key) {
      FoundReturns(h, s, t);
      n := if Returned(h, s, t, 1) then 1 else if Returned(h, s, t, 2) then 2 else if Returned(h, s, t, 4) then 4
          else 5;
    } else {
      PassNext(h, tab, op.key, slot, k);
      ProbeGoes(h, s, t);
      var s' := Goto(s, t, Probe(op, cur, (slot + 1) % |tab|, k + 1));
      PassedFew(h, tab, op.key, k + 1, q);
      var m := ProbeReturns(h, s', t, q);
      n := m + 1;
    }
  }

  // While no resize is under way, no slot is held and one is free, a get returns within
  // as many steps as there are slots and six, and so does a put on a table that need not grow.
  lemma CallReturns(h: HashFn, s: State, t: nat, q: nat) returns (n: nat)
    requires Shape(s) && Tables(h, s) && PcOf(s, t).Start? && s.resizing == s.tab
    requires Calm(s.tables[s.tab]) && q < |s.tables[s.tab]| && s.tables[s.tab][q].tag.Free?
    requires PcOf(s, t).op.Put? ==> s.members <= |s.tables[s.tab]| / 2
    ensures Returned(h, s, t, n) && n <= |s.tables[s.tab]| + 6
  {
    var op, tab := PcOf(s, t).op, s.tables[s.tab];
    var s' := Goto(s, t, Probe(op, s.tab, h(op.key) % |tab|, 0));
    assert PlaceOk(h, s', PcOf(s', t));
    var m := ProbeReturns(h, s', t, q);
    if op.Put? {
      var s1 := Goto(s, t, Check(op, s.tab));
      assert Step(h, s, t) == s1 && Step(h, s1, t) == s';
      assert Alone(h, s1, t, m + 1) == Alone(h, s', t, m);
      n := m + 2;
    } else {
      assert Step(h, s, t) == s';
      n := m + 1;
    }
  }

  // ---------------------------------------------------------------- the resize

  // No slot of the published table is held by a put.
  ghost predicate Resting(s: State) { s.tab < |s.tables| && Calm(s.tables[s.tab]) }

  function Stage(s: State, pc: Pc): nat {
    match pc
    case CopyLoad(_, _, _) => 5
    case CopyProbe(_, _, _, _, _, _) => 4
    case CopyValue(_, _, _, _, _, _) => 3
    case CopyStore(_, _, _, _, _, _) => 2
    case CopyMark(_, to, i, found) =>
      if 0 < to <= |s.tables| && i < |s.tables[to - 1]| && !s.tables[to - 1][i].tag.Free? && found.None? then 6 else 1
    case _ => 0
  }

  function Left(s: State, pc: Pc): nat {
    if Resizer(pc) && !pc.Publish? && 0 < pc.to <= |s.tables| && pc.i <= |s.tables[pc.to - 1]|
    then |s.tables[pc.to - 1]| - pc.i + 1 else 0
  }

  function Tries(s: State, pc: Pc): nat {
    if pc.CopyProbe? && pc.to < |s.tables| && pc.k <= |s.tables[pc.to]| then |s.tables[pc.to]| - pc.k else 0
  }

  // One step of the copier makes headway.
  ghost predicate Nearer(s: State, s': State, t: nat) {
    && Resizer(PcOf(s, t)) && Resizer(PcOf(s', t)) && PcOf(s', t).to == PcOf(s, t).to && PcOf(s', t).op == PcOf(s, t).op
    && (|| Left(s', PcOf(s', t)) < Left(s, PcOf(s, t))
        || (Left(s', PcOf(s', t)) == Left(s, PcOf(s, t))
            && (|| Stage(s', PcOf(s', t)) < Stage(s, PcOf(s, t))
                || (Stage(s', PcOf(s', t)) == Stage(s, PcOf(s, t)) && Tries(s', PcOf(s', t)) < Tries(s, PcOf(s, t))))))
  }

  lemma CopyNearer(h: HashFn, s: State, t: nat)
    requires Shape(s) && Resizer(PcOf(s, t)) && !PcOf(s, t).Publish? && ResizerOk(h, s, PcOf(s, t))
    requires Resting(s) && !PcOf(StepCopy(h, s, t, PcOf(s, t)), t).Fault?
    ensures Nearer(s, StepCopy(h, s, t, PcOf(s, t)), t)
    ensures var s' := StepCopy(h, s, t, PcOf(s, t)); Resting(s')
  {
  }

  ghost predicate Back(s: State, t: nat, pc: Pc)
    requires Resizer(pc)
  {
    s.tab == pc.to == s.resizing && PcOf(s, t) == Start(pc.op)
  }

  lemma PublishGoes(h: HashFn, s: State, t: nat)
    requires CopierView(h, s, t) && PcOf(s, t).Publish?
    ensures Back(Step(h, s, t), t, PcOf(s, t))
  {
  }

  lemma RestingIsClean(h: HashFn, s: State, t: nat)
    requires Resting(s) && Shape(s) && Resizer(PcOf(s, t)) && ResizerOk(h, s, PcOf(s, t))
    ensures Clean(s, Run(t))
  {
  }

  lemma CopySteps(h: HashFn, s: State, t: nat)
    requires Resizer(PcOf(s, t)) && !PcOf(s, t).Publish?
    ensures Step(h, s, t) == StepCopy(h, s, t, PcOf(s, t))
  {
  }

  lemma NotFaulty(h: HashFn, s: State, t: nat)
    requires Inv(h, s)
    ensures !PcOf(s, t).Fault?
  {
    assert t in s.threads ==> ThreadOk(h, s, s.threads[t]);
  }

  lemma CopyGoes(h: HashFn, s: State, t: nat)
    requires Inv(h, s) && CopierView(h, s, t) && !PcOf(s, t).Publish? && Resting(s)
    ensures var s' := Step(h, s, t); Inv(h, s') && Nearer(s, s', t) && Resting(s')
  {
    RestingIsClean(h, s, t);
    StepKeepsInv(h, s, t);
    NotFaulty(h, Step(h, s, t), t);
    CopySteps(h, s, t);
    CopyNearer(h, s, t);
  }

  // A step that comes nearer on every state but the last reaches it.
  ghost predicate Descends(step: State -> State, good: State -> bool, rank: State -> Rank, x: State) {
    good(x) && !rank(x).Zero? ==> good(step(x)) && Less(rank(step(x)), rank(x))
  }

  datatype Rank = Zero | Rank(left: nat, stage: nat, tries: nat)

  predicate Less(a: Rank, b: Rank) {
    || (a.Zero? && b.Rank?)
    || (a.Rank? && b.Rank?
        && (a.left < b.left || (a.left == b.left && (a.stage < b.stage || (a.stage == b.stage && a.tries < b.tries)))))
  }

  function Iterate(step: State -> State, s: State, n: nat): State
    decreases n
  {
    if n == 0 then s else Iterate(step, step(s), n - 1)
  }

  lemma {:induction false} Descend(step: State -> State, good: State -> bool, rank: State -> Rank, s: State, r: Rank)
    returns (n: nat)
    requires (forall x :: Descends(step, good, rank, x)) && good(s) && r == rank(s)
    ensures good(Iterate(step, s, n)) && rank(Iterate(step, s, n)).Zero?
    decreases if r.Rank? then 1 else 0, if r.Rank? then r.left else 0,
              if r.Rank? then r.stage else 0, if r.Rank? then r.tries else 0
  {
    n := 0;
    if r.Rank? {
      assert Descends(step, good, rank, s);
      var m := Descend(step, good, rank, step(s), rank(step(s)));
      n := m + 1;
    }
  }

  lemma {:induction false} SameIteration(h: HashFn, s: State, t: nat, n: nat)
    ensures Iterate((x: State) => Step(h, x, t), s, n) == Alone(h, s, t, n)
    decreases n
  {
    if n > 0 { SameIteration(h, Step(h, s, t), t, n - 1); }
  }

  function RankOf(s: State, t: nat): Rank {
    var pc := PcOf(s, t);
    if Resizer(pc) && !pc.Publish? then Rank(Left(s, pc), Stage(s, pc), Tries(s, pc)) else Zero
  }

  ghost predicate Copying(h: HashFn, s: State, t: nat, to: nat, op: Op) {
    Inv(h, s) && Resting(s) && Resizer(PcOf(s, t)) && PcOf(s, t).to == to && PcOf(s, t).op == op
  }

  lemma CopyingDescends(h: HashFn, s: State, t: nat, to: nat, op: Op)
    requires Copying(h, s, t, to, op) && RankOf(s, t).Rank?
    ensures Copying(h, Step(h, s, t), t, to, op) && Less(RankOf(Step(h, s, t), t), RankOf(s, t))
  {
    Viewed(h, s, t);
    CopyGoes(h, s, t);
  }

  lemma Published(h: HashFn, s: State, t: nat, to: nat, op: Op)
    requires Copying(h, s, t, to, op) && RankOf(s, t).Zero?
    ensures var s' := Step(h, s, t); s'.tab == to == s'.resizing && PcOf(s', t) == Start(op)
  {
    Viewed(h, s, t);
    PublishGoes(h, s, t);
  }

  lemma {:induction false} OneMore(h: HashFn, s: State, t: nat, n: nat)
    ensures Alone(h, s, t, n + 1) == Step(h, Alone(h, s, t, n), t)
    decreases n
  {
    if n == 0 { OneStep(h, s, t); } else { OneMore(h, Step(h, s, t), t, n - 1); }
  }

  // Running alone while no put holds a slot, the copier publishes the new table and goes
  // back to its put.
  lemma ResizeEnds(h: HashFn, s: State, t: nat) returns (n: nat)
    requires Inv(h, s) && Resizer(PcOf(s, t)) && Resting(s)
    ensures var s' := Alone(h, s, t, n); s'.tab == PcOf(s, t).to == s'.resizing && PcOf(s', t) == Start(PcOf(s, t).op)
  {
    var to, op := PcOf(s, t).to, PcOf(s, t).op;
    var step := (x: State) => Step(h, x, t);
    ghost var good := (x: State) => Copying(h, x, t, to, op);
    var rank := (x: State) => RankOf(x, t);
    forall x ensures Descends(step, good, rank, x) {
      if good(x) && !rank(x).Zero? { CopyingDescends(h, x, t, to, op); }
    }
    n := Descend(step, good, rank, s, rank(s));
    SameIteration(h, s, t, n);
    Published(h, Alone(h, s, t, n), t, to, op);
    OneMore(h, s, t, n);
    n := n + 1;
  }
}
