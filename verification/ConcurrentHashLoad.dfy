// Bookkeeping of the concurrent hash table: no call is lost, the member count is
// that of the keys, and the table is at most half full but for the threads at work.
module ConcurrentHashLoad {
  import opened Options
  import opened ConcurrentHash
  import opened ConcurrentHashInvariant
  import opened ConcurrentHashWrites
  import opened ConcurrentHashTheorems

  // ---------------------------------------------------------------- no call is lost

  predicate Accepts(s: State, a: Action) { !a.Run? && PcOf(s, a.tid).Idle? }

  // The calls that find their thread idle.
  function Calls(h: HashFn, s: State, run: seq<Action>): nat
    decreases |run|
  {
    if run == [] then 0 else (if Accepts(s, run[0]) then 1 else 0) + Calls(h, Apply(h, s, run[0]), run[1..])
  }

  function Busy(s: State): set<nat> { set t | t in s.threads && !s.threads[t].Idle? }

  lemma BusyGoes(s: State, s': State, t: nat)
    requires s'.threads == s.threads[t := PcOf(s', t)]
    ensures Busy(s') == if PcOf(s', t).Idle? then Busy(s) - {t} else Busy(s) + {t}
  {
  }

  lemma KindCounts(s: State, s': State, t: nat)
    requires Kind(s, s', t)
    ensures |s'.log| + |Busy(s')| == |s.log| + |Busy(s)|
  {
    if s' != s {
      assert PcOf(s', t) == s'.threads[t] && t in Busy(s);
      BusyGoes(s, s', t);
      assert Busy(s) + {t} == Busy(s) && |Busy(s) - {t}| == |Busy(s)| - 1;
    }
  }

  lemma CallCounts(h: HashFn, s: State, a: Action)
    requires !a.Run?
    ensures var s' := Apply(h, s, a); s'.log == s.log && |Busy(s')| == |Busy(s)| + if Accepts(s, a) then 1 else 0
  {
    if Accepts(s, a) {
      BusyGoes(s, Apply(h, s, a), a.tid);
      assert a.tid !in Busy(s);
    }
  }

  // In any run, whatever the schedule: every call is answered once, or its thread is
  // still at it.
  lemma {:induction false} EveryCallAnswered(h: HashFn, s: State, run: seq<Action>)
    requires Once(s)
    ensures var s' := From(h, s, run); |s'.log| + |Busy(s')| == |s.log| + |Busy(s)| + Calls(h, s, run)
    decreases |run|
  {
    if run != [] {
      var next := Apply(h, s, run[0]);
      if run[0].Run? {
        StepKind(h, s, run[0].tid);
        KindCounts(s, next, run[0].tid);
      } else {
        CallCounts(h, s, run[0]);
      }
      ApplyKeeps(h, s, run[0]);
      EveryCallAnswered(h, next, run[1..]);
    }
  }

  // ---------------------------------------------------------------- members and load

  // A put that has let the load pass and may still take a slot.
  predicate Entering(pc: Pc) { (pc.Probe? || pc.Claim? || pc.Fill? || pc.Reveal?) && pc.op.Put? }

  function Counting(s: State): set<nat> { set t | t in s.threads && s.threads[t].Count? }

  function Entrants(s: State): set<nat> { set t | t in s.threads && Entering(s.threads[t]) }

  // A key is counted, or its put is about to count it; and the table is half full at
  // most, but for one key for each thread.
  ghost predicate LoadOk(s: State) {
    && s.tab < |s.tables|
    && s.members + |Counting(s)| == |s.writes|
    && |s.writes| + |Entrants(s)| <= |s.tables[s.tab]| / 2 + |s.threads|
  }

  // A set from which t leaves, or to which it comes.
  lemma Updated(a: set<nat>, b: set<nat>, t: nat, stays: bool)
    requires b == if stays then a + {t} else a - {t}
    ensures |b| == |a| - (if t in a then 1 else 0) + (if stays then 1 else 0)
  {
    assert t in a ==> a + {t} == a && |a - {t}| == |a| - 1;
    assert t !in a ==> a - {t} == a;
  }

  lemma CountingGoes(s: State, s': State, t: nat)
    requires s'.threads == s.threads[t := PcOf(s', t)]
    ensures Counting(s') == if PcOf(s', t).Count? then Counting(s) + {t} else Counting(s) - {t}
    ensures t in Counting(s) <==> PcOf(s, t).Count?
  {
  }

  lemma EntrantsGo(s: State, s': State, t: nat)
    requires s'.threads == s.threads[t := PcOf(s', t)]
    ensures Entrants(s') == if Entering(PcOf(s', t)) then Entrants(s) + {t} else Entrants(s) - {t}
    ensures t in Entrants(s) <==> Entering(PcOf(s, t))
  {
  }

  function One(b: bool): nat { if b then 1 else 0 }

  // One thread moves: what that does to the numbers.
  lemma Numbers(s: State, s': State, t: nat)
    requires s'.threads == s.threads[t := PcOf(s', t)]
    ensures |Counting(s')| == |Counting(s)| - One(PcOf(s, t).Count?) + One(PcOf(s', t).Count?)
    ensures |Entrants(s')| == |Entrants(s)| - One(Entering(PcOf(s, t))) + One(Entering(PcOf(s', t)))
    ensures |s'.threads| >= |s.threads|
  {
    CountingGoes(s, s', t);
    Updated(Counting(s), Counting(s'), t, PcOf(s', t).Count?);
    EntrantsGo(s, s', t);
    Updated(Entrants(s), Entrants(s'), t, Entering(PcOf(s', t)));
    MoreThreads(s.threads, t, PcOf(s', t));
  }

  lemma MoreThreads(threads: map<nat, Pc>, t: nat, pc: Pc)
    ensures |threads| <= |threads[t := pc]|
  {
    var more := threads[t := pc];
    assert |threads| == |threads.Keys| && |more| == |more.Keys|;
    Smaller(threads.Keys, more.Keys);
  }

  // The step changes neither keys nor count, and lets nobody in.
  ghost predicate Idles(s: State, s': State, t: nat) {
    && s'.members == s.members && s'.writes.Keys == s.writes.Keys && s'.threads == s.threads[t := PcOf(s', t)]
    && t in s.threads && !PcOf(s, t).Count? && !PcOf(s', t).Count? && (Entering(PcOf(s', t)) ==> Entering(PcOf(s, t)))
  }

  lemma {:induction false} Bigger(s: State, m: nat, n: nat)
    requires Shape(s) && m <= n < |s.tables|
    ensures |s.tables[m]| <= |s.tables[n]|
  {
    if m < n { Bigger(s, m, n - 1); }
  }

  lemma PublishedGrows(s: State, s': State)
    requires Shape(s) && Shape(s') && Evolves(s, s')
    ensures |s.tables[s.tab]| <= |s'.tables[s'.tab]|
  {
    assert TableLe(s.tables[s.tab], s'.tables[s.tab]);
    Bigger(s', s.tab, s'.tab);
  }

  lemma KeyCount(ws: map<Key, seq<Write>>)
    ensures |ws| == |ws.Keys|
  {
  }

  lemma IdlesKeeps(s: State, s': State, t: nat)
    requires LoadOk(s) && Idles(s, s', t) && s'.tab < |s'.tables| && |s.tables[s.tab]| <= |s'.tables[s'.tab]|
    ensures LoadOk(s')
  {
    Numbers(s, s', t);
    KeyCount(s.writes);
    KeyCount(s'.writes);
  }

  lemma {:induction false} Smaller(a: set<nat>, b: set<nat>)
    requires a <= b
    ensures |a| <= |b|
    decreases a
  {
    if a != {} {
      var x :| x in a;
      Smaller(a - {x}, b - {x});
    }
  }

  lemma Disjoint(s: State, t: nat)
    requires t in s.threads && !PcOf(s, t).Count? && !Entering(PcOf(s, t))
    ensures |Counting(s)| + |Entrants(s)| + 1 <= |s.threads|
  {
    var all := Counting(s) + Entrants(s) + {t};
    assert Counting(s) !! Entrants(s) && t !in Counting(s) && t !in Entrants(s);
    assert |all| == |Counting(s)| + |Entrants(s)| + 1;
    assert all <= s.threads.Keys;
    Smaller(all, s.threads.Keys);
    assert |s.threads| == |s.threads.Keys|;
  }

  // The check lets a put in only while the table is at most half full.
  lemma CheckLoad(h: HashFn, s: State, t: nat)
    requires Shape(s) && LoadOk(s) && t in s.threads && PcOf(s, t).Check? && PlaceOk(h, s, PcOf(s, t))
    ensures LoadOk(Step(h, s, t))
  {
    Bigger(s, PcOf(s, t).cur, s.tab);
    Disjoint(s, t);
    Numbers(s, Step(h, s, t), t);
  }

  lemma CountLoad(h: HashFn, s: State, t: nat)
    requires LoadOk(s) && t in s.threads && PcOf(s, t).Count?
    ensures LoadOk(Step(h, s, t))
  {
    Numbers(s, Step(h, s, t), t);
  }

  lemma RevealLoad(s: State, s': State, t: nat, op: Op)
    requires LoadOk(s) && t in s.threads && PcOf(s, t).Reveal? && PcOf(s, t).op == op && op.Put? && op.key !in s.writes
    requires s'.threads == s.threads[t := Count(op)] && s'.writes == Recorded(s.writes, op) && s'.members == s.members
    requires s'.tab == s.tab < |s'.tables| && |s'.tables[s'.tab]| == |s.tables[s.tab]|
    ensures LoadOk(s')
  {
    Numbers(s, s', t);
    KeyCount(s.writes);
    KeyCount(s'.writes);
    assert s'.writes.Keys == s.writes.Keys + {op.key};
  }

  // ---------------------------------------------------------------- every step

  lemma ProbeIdles(s: State, t: nat)
    requires PcOf(s, t).Probe?
    ensures Idles(s, StepProbe(s, t, PcOf(s, t)), t)
  {
  }

  lemma SlotIdles(s: State, t: nat)
    requires var pc := PcOf(s, t); pc.Claim? || pc.Fill? || pc.Seize? || pc.Refill? || pc.Release? || pc.Fetch?
    requires PcOf(s, t).Refill? ==> PcOf(s, t).op.key in s.writes
    ensures Idles(s, StepSlot(s, t, PcOf(s, t)), t)
  {
  }

  lemma CopyIdles(h: HashFn, s: State, t: nat)
    requires var pc := PcOf(s, t); pc.CopyLoad? || pc.CopyProbe? || pc.CopyValue? || pc.CopyStore? || pc.CopyMark?
    ensures Idles(s, StepCopy(h, s, t, PcOf(s, t)), t) || StepCopy(h, s, t, PcOf(s, t)) == s
  {
  }

  lemma OtherIdles(h: HashFn, s: State, t: nat)
    requires var pc := PcOf(s, t);
             pc.Idle? || pc.Fault? || pc.Start? || pc.WaitTab? || pc.WaitResizing? || pc.Grow? || pc.Publish?
    requires PcOf(s, t).Start? ==> s.tab < |s.tables|
    ensures Step(h, s, t) == s || Idles(s, Step(h, s, t), t)
  {
  }

  lemma RevealStepLoad(h: HashFn, s: State, t: nat)
    requires Inv(h, s) && LoadOk(s) && PcOf(s, t).Reveal?
    ensures LoadOk(Step(h, s, t))
  {
    var Reveal(op, cur, slot, k) := PcOf(s, t);
    assert ThreadOk(h, s, s.threads[t]);
    KeylessMeansAbsent(h, s.tables[s.tab], op.key, slot, k);
    RevealLoad(s, Step(h, s, t), t, op);
  }

  lemma StepLoad(h: HashFn, s: State, t: nat)
    requires Inv(h, s) && LoadOk(s) && Clean(s, Run(t))
    ensures LoadOk(Step(h, s, t))
  {
    var pc, s' := PcOf(s, t), Step(h, s, t);
    assert t in s.threads ==> ThreadOk(h, s, s.threads[t]);
    if pc.Check? {
      CheckLoad(h, s, t);
    } else if pc.Count? {
      CountLoad(h, s, t);
    } else if pc.Reveal? {
      RevealStepLoad(h, s, t);
    } else {
      StepIdles(h, s, t);
      if s' != s {
        StepKeepsInv(h, s, t);
        PublishedGrows(s, s');
        IdlesKeeps(s, s', t);
      }
    }
  }

  lemma StepIdles(h: HashFn, s: State, t: nat)
    requires Inv(h, s) && !PcOf(s, t).Check? && !PcOf(s, t).Count? && !PcOf(s, t).Reveal?
    ensures Step(h, s, t) == s || Idles(s, Step(h, s, t), t)
  {
    var pc := PcOf(s, t);
    assert t in s.threads ==> ThreadOk(h, s, s.threads[t]);
    if pc.Probe? {
      ProbeIdles(s, t);
    } else if pc.CopyLoad? || pc.CopyProbe? || pc.CopyValue? || pc.CopyStore? || pc.CopyMark? {
      CopyIdles(h, s, t);
    } else if pc.Claim? || pc.Fill? || pc.Seize? || pc.Refill? || pc.Release? || pc.Fetch? {
      assert pc.Refill? ==> TagKey(s.tables[s.tab][pc.slot].tag) == Some(pc.op.key);
      SlotIdles(s, t);
    } else {
      OtherIdles(h, s, t);
    }
  }

  lemma CallLoad(h: HashFn, s: State, a: Action)
    requires LoadOk(s) && !a.Run?
    ensures LoadOk(Apply(h, s, a))
  {
    if Accepts(s, a) {
      StartLoad(s, Apply(h, s, a), a.tid);
    }
  }

  lemma StartLoad(s: State, s': State, t: nat)
    requires LoadOk(s) && PcOf(s, t).Idle? && PcOf(s', t).Start? && s'.threads == s.threads[t := PcOf(s', t)]
    requires s'.tables == s.tables && s'.tab == s.tab && s'.members == s.members && s'.writes == s.writes
    ensures LoadOk(s')
  {
    Numbers(s, s', t);
  }

  lemma {:induction false} LoadKept(h: HashFn, s: State, run: seq<Action>)
    requires Inv(h, s) && LoadOk(s) && CleanRun(h, s, run)
    ensures LoadOk(From(h, s, run))
    decreases |run|
  {
    if run != [] {
      ApplyKeepsInv(h, s, run[0]);
      if run[0].Run? { StepLoad(h, s, run[0].tid); } else { CallLoad(h, s, run[0]); }
      LoadKept(h, Apply(h, s, run[0]), run[1..]);
    }
  }

  // The count is the number of keys less those whose put is about to count them, and
  // the keys are at most half the slots of the published table and one for each thread.
  lemma LoadBounded(h: HashFn, size: nat, run: seq<Action>)
    requires size > 0 && CleanRun(h, Init(size), run)
    ensures var s := From(h, Init(size), run);
            && s.tab < |s.tables|
            && s.members + |Counting(s)| == |s.writes| <= |s.tables[s.tab]| / 2 + |s.threads|
  {
    InitInv(h, size);
    assert Counting(Init(size)) == {} && Entrants(Init(size)) == {};
    LoadKept(h, Init(size), run);
  }
}
