// What holds over whole runs of the identifier table, for any number of
// threads, any interleaving and any number of resizes.
module InternTheorems {
  import opened Options
  import opened InternTable
  import opened InternInvariant

  lemma InitInv(h: HashFn)
    ensures Inv(h, INIT)
  {
  }

  lemma {:induction false} ReachableInv(h: HashFn, run: seq<Action>)
    requires ProperRun(h, run)
    ensures Inv(h, After(run))
  {
    if run == [] {
      InitInv(h);
    } else {
      ReachableInv(h, run[..|run| - 1]);
      ApplyKeepsInv(h, After(run[..|run| - 1]), run[|run| - 1]);
    }
  }

  lemma ApplyKeepsInv(h: HashFn, s: State, a: Action)
    requires Inv(h, s) && (a.Call? ==> Proper(h, a.req))
    ensures Inv(h, Apply(s, a)) && Evolves(s, Apply(s, a))
  {
    match a
    case Call(t, req) => LocalStep(h, s, t, if PcOf(s, t).Idle? then GetTable(req) else Idle);
    case Run(t) => StepKeepsInv(h, s, t);
  }

  lemma EvolvesTransitive(a: State, b: State, c: State)
    requires Evolves(a, b) && Evolves(b, c)
    ensures Evolves(a, c)
  {
    forall n | 0 <= n < |a.tables| ensures TableLe(a.tables[n], c.tables[n]) {
      assert TableLe(a.tables[n], b.tables[n]) && TableLe(b.tables[n], c.tables[n]);
    }
  }

  lemma OneMoreAction(h: HashFn, run: seq<Action>, a: Action)
    requires ProperRun(h, run) && (a.Call? ==> Proper(h, a.req))
    ensures Evolves(After(run), After(run + [a]))
  {
    ReachableInv(h, run);
    assert (run + [a])[..|run|] == run;
    ApplyKeepsInv(h, After(run), a);
  }

  // Over any continuation of a run slots only go NULL -> identifier -> MOVED,
  // and no table, identifier or returned result is ever taken back.
  lemma {:induction false} RunsOnlyAdvance(h: HashFn, run: seq<Action>, more: seq<Action>)
    requires ProperRun(h, run) && ProperRun(h, more)
    ensures Evolves(After(run), After(run + more))
    decreases |more|
  {
    if more == [] {
      assert run + more == run;
    } else {
      var shorter, last := more[..|more| - 1], more[|more| - 1];
      RunsOnlyAdvance(h, run, shorter);
      OneMoreAction(h, run + shorter, last);
      assert run + shorter + [last] == run + more;
      EvolvesTransitive(After(run), After(run + shorter), After(run + more));
    }
  }

  // Canonical interning: two results are the same identifier exactly when the
  // requested strings are equal, whenever and by whichever threads they were obtained.
  lemma CanonicalInterning(h: HashFn, run: seq<Action>, m: nat, n: nat)
    requires ProperRun(h, run)
    requires var log := After(run).log; m < |log| && n < |log| && log[m].result.Some? && log[n].result.Some?
    ensures var log := After(run).log;
            log[m].result == log[n].result <==> Joined(log[m].request.parts) == Joined(log[n].request.parts)
  {
    ReachableInv(h, run);
    CanonicalLog(h, After(run), m, n);
  }

  lemma CanonicalLog(h: HashFn, s: State, m: nat, n: nat)
    requires Canonical(h, s) && LogOk(s)
    requires m < |s.log| && n < |s.log| && s.log[m].result.Some? && s.log[n].result.Some?
    ensures s.log[m].result == s.log[n].result <==> Joined(s.log[m].request.parts) == Joined(s.log[n].request.parts)
  {
    assert ReturnOk(s, s.log[m]) && ReturnOk(s, s.log[n]);
  }

  // No assertion of the resize protocol ever fails and no NULL table is used.
  lemma NoFault(h: HashFn, run: seq<Action>, t: nat)
    requires ProperRun(h, run)
    ensures !PcOf(After(run), t).Fault?
  {
    ReachableInv(h, run);
  }

  // At most one thread copies at a time, and its probe ends inside the table.
  lemma CopierProbeEnds(h: HashFn, run: seq<Action>, t: nat, u: nat)
    requires ProperRun(h, run) && Resizer(PcOf(After(run), t)) && Resizer(PcOf(After(run), u))
    ensures t == u
    ensures var s := After(run);
            PcOf(s, t).CopyProbe? ==> PcOf(s, t).to < |s.tables| && PcOf(s, t).k < |s.tables[PcOf(s, t).to]|
  {
    ReachableInv(h, run);
    var s := After(run);
    assert ResizerOk(s, PcOf(s, t));
  }

  // Every identifier ever installed sits in exactly one slot of the published
  // table, with no NULL slot before it on its probe path.
  lemma InternedStaysReachable(h: HashFn, run: seq<Action>, id: nat) returns (p: nat)
    requires ProperRun(h, run) && id < |After(run).idents|
    ensures var s := After(run);
            && s.table.Some? && s.table.value < |s.tables|
            && var tab := s.tables[s.table.value];
               && p < |tab| && SlotId(tab[p]) == Some(id)
               && Reachable(tab, h(s.idents[id].bytes), p)
               && forall q :: 0 <= q < |tab| && q != p ==> SlotId(tab[q]) != Some(id)
  {
    ReachableInv(h, run);
    var s := After(run);
    var tab := s.tables[s.table.value];
    assert Contains(tab, id);
    p :| 0 <= p < |tab| && SlotId(tab[p]) == Some(id);
  }

  // ------------------------------------------------------------ unique identifiers

  ghost predicate UniqueIsNew(s: State) {
    forall m, n :: 0 <= m < n < |s.log| && s.log[n].request.uniq && s.log[m].result.Some? ==>
        s.log[m].result != s.log[n].result
  }

  // What a step adds to the log: a unique request only gets a new identifier.
  lemma StepLog(h: HashFn, s: State, a: Action)
    requires Inv(h, s)
    ensures var s' := Apply(s, a);
            || s'.log == s.log
            || exists r :: s'.log == s.log + [r] && (r.request.uniq && r.result.Some? ==> r.result.value >= |s.idents|)
  {
    if a.Run? && PcOf(s, a.tid).Probe? {
      var next := ProbeNext(h, s, a.tid);
    }
  }

  // An identifier returned to a unique request was never returned before.
  lemma {:induction false} UniqueRequestsGetNewIdents(h: HashFn, run: seq<Action>)
    requires ProperRun(h, run)
    ensures UniqueIsNew(After(run))
  {
    if run != [] {
      var before, a := run[..|run| - 1], run[|run| - 1];
      UniqueRequestsGetNewIdents(h, before);
      ReachableInv(h, before);
      var s := After(before);
      StepLog(h, s, a);
      assert forall n :: 0 <= n < |s.log| ==> ReturnOk(s, s.log[n]);
    }
  }
}
