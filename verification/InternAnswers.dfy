// What callers of the identifier table get: every call is carried until it is
// answered once, and the answer is the identifier found or installed.
module InternAnswers {
  import opened Options
  import opened InternTable
  import opened InternInvariant
  import opened InternTheorems

  ghost predicate Interned(idents: seq<Ident>, bytes: Bytes) {
    exists id :: 0 <= id < |idents| && idents[id].bytes == bytes
  }

  // ---------------------------------------------------------------- one step

  // The thread goes on with its request.
  ghost predicate Carries(s: State, s': State, t: nat) {
    && s'.log == s.log && s'.idents == s.idents && s'.threads == s.threads[t := PcOf(s', t)]
    && Requesting(PcOf(s, t)) && Requesting(PcOf(s', t)) && PcOf(s', t).req == PcOf(s, t).req
  }

  // A string that is too long is refused.
  ghost predicate Refuses(s: State, s': State, t: nat) {
    && s'.log == s.log && s'.idents == s.idents && s'.threads == s.threads[t := TooLong]
    && Requesting(PcOf(s, t)) && |Joined(PcOf(s, t).req.parts)| >= MAX_LEN
  }

  // The string is there: its identifier is returned, nothing to a unique request.
  ghost predicate Finds(s: State, s': State, t: nat, id: nat) {
    && s'.idents == s.idents && s'.threads == s.threads[t := Idle] && Requesting(PcOf(s, t))
    && id < |s.idents| && s.idents[id].bytes == Joined(PcOf(s, t).req.parts)
    && s'.log == s.log + [Return(PcOf(s, t).req, if PcOf(s, t).req.uniq then None else Some(id))]
  }

  // The string is not there: it becomes an identifier, and that is returned.
  ghost predicate Installs(s: State, s': State, t: nat) {
    && s'.threads == s.threads[t := Idle] && Requesting(PcOf(s, t))
    && !Interned(s.idents, Joined(PcOf(s, t).req.parts)) && |Joined(PcOf(s, t).req.parts)| < MAX_LEN
    && s'.idents == s.idents + [Ident(Joined(PcOf(s, t).req.parts), PcOf(s, t).req.hash)]
    && s'.log == s.log + [Return(PcOf(s, t).req, Some(|s.idents|))]
  }

  ghost predicate Outcome(s: State, s': State, t: nat) {
    || s' == s || Carries(s, s', t) || Refuses(s, s', t) || Installs(s, s', t)
    || exists id: nat :: Finds(s, s', t, id)
  }

  lemma ProbeOutcome(h: HashFn, s: State, t: nat)
    requires Inv(h, s) && PcOf(s, t).Probe?
    ensures Outcome(s, Step(s, t), t)
  {
    var Probe(req, cur, slot, k) := PcOf(s, t);
    assert ThreadOk(h, s, s.threads[t]);
    if s.tables[cur][slot].Held? {
      var id := s.tables[cur][slot].id;
      CurrentTable(s, cur, slot);
      assert SlotId(s.tables[cur][slot]) == Some(id);
      MatchesIff(h, s.idents[id], req);
      if Matches(s.idents[id], req) {
        assert Finds(s, Step(s, t), t, id);
      }
    }
  }

  lemma InstallOutcome(h: HashFn, s: State, t: nat)
    requires Inv(h, s) && PcOf(s, t).Install?
    ensures Outcome(s, Step(s, t), t)
  {
    var Install(req, cur, slot, k) := PcOf(s, t);
    assert ThreadOk(h, s, s.threads[t]);
    PiecesIff([], req.parts);
    if s.tables[cur][slot] == Empty {
      CurrentTable(s, cur, slot);
      forall id | 0 <= id < |s.idents| ensures s.idents[id].bytes != Joined(req.parts) {
        NotPresent(h, s, Joined(req.parts), slot, k, id);
      }
    }
  }

  lemma CopyOutcome(s: State, t: nat)
    requires PcOf(s, t).CopyLoad? || PcOf(s, t).CopyProbe? || PcOf(s, t).CopyStore? || PcOf(s, t).CopyMark?
    ensures Carries(s, StepCopy(s, t, PcOf(s, t)), t) || PcOf(StepCopy(s, t, PcOf(s, t)), t).Fault?
  {
  }

  lemma OtherOutcome(s: State, t: nat)
    requires var pc := PcOf(s, t);
             || pc.Idle? || pc.TooLong? || pc.GetTable? || pc.InitCas? || pc.WaitTable? || pc.WaitResizing?
                 || pc.Reload?
             || pc.Grow? || pc.InitPublish? || pc.Publish?
    ensures Step(s, t) == s || Carries(s, Step(s, t), t) || PcOf(Step(s, t), t).Fault?
  {
  }

  // Every step answers the request, refuses it, or carries it on.
  lemma StepOutcome(h: HashFn, s: State, t: nat)
    requires Inv(h, s)
    ensures Outcome(s, Step(s, t), t)
  {
    var pc := PcOf(s, t);
    StepKeepsInv(h, s, t);
    assert t in s.threads ==> ThreadOk(h, s, s.threads[t]);
    assert t in Step(s, t).threads ==> ThreadOk(h, Step(s, t), Step(s, t).threads[t]);
    if pc.Probe? {
      ProbeOutcome(h, s, t);
    } else if pc.Install? {
      InstallOutcome(h, s, t);
    } else if pc.CopyLoad? || pc.CopyProbe? || pc.CopyStore? || pc.CopyMark? {
      CopyOutcome(s, t);
    } else {
      OtherOutcome(s, t);
    }
  }

  // ---------------------------------------------------------------- whole runs

  // An answer of nothing is for a unique request whose string was there already.
  ghost predicate AnswerOk(idents: seq<Ident>, r: Return) {
    match r.result
    case None => r.request.uniq && Interned(idents, Joined(r.request.parts))
    case Some(id) => id < |idents| && idents[id].bytes == Joined(r.request.parts)
  }

  ghost predicate Answered(log: seq<Return>, id: nat) { exists n :: 0 <= n < |log| && log[n].result == Some(id) }

  ghost predicate AnswersOk(s: State) {
    && (forall n :: 0 <= n < |s.log| ==> AnswerOk(s.idents, s.log[n]))
    && (forall id :: 0 <= id < |s.idents| ==> Answered(s.log, id))
  }

  lemma OutcomeKeeps(s: State, s': State, t: nat)
    requires AnswersOk(s) && Outcome(s, s', t)
    ensures AnswersOk(s')
  {
    assert s.idents <= s'.idents && s.log <= s'.log;
    forall n | 0 <= n < |s.log| ensures AnswerOk(s'.idents, s'.log[n]) {
      assert AnswerOk(s.idents, s.log[n]);
      if s.log[n].result.None? {
        var id :| 0 <= id < |s.idents| && s.idents[id].bytes == Joined(s.log[n].request.parts);
        assert s'.idents[id].bytes == Joined(s.log[n].request.parts);
      }
    }
    forall id | 0 <= id < |s.idents| ensures Answered(s'.log, id) {
      assert Answered(s.log, id);
      var n :| 0 <= n < |s.log| && s.log[n].result == Some(id);
      assert s'.log[n].result == Some(id);
    }
    if Installs(s, s', t) {
      assert s'.log[|s.log|].result == Some(|s.idents|);
    }
  }

  // In any run: an answer is the identifier of the string, and there is none only for
  // a unique request whose string was interned before; and every identifier was
  // the answer to some call.
  lemma {:induction false} EveryAnswer(h: HashFn, run: seq<Action>)
    requires ProperRun(h, run)
    ensures AnswersOk(After(run))
  {
    if run != [] {
      var before, a := run[..|run| - 1], run[|run| - 1];
      EveryAnswer(h, before);
      if a.Run? {
        ReachableInv(h, before);
        StepOutcome(h, After(before), a.tid);
        OutcomeKeeps(After(before), After(run), a.tid);
      }
    }
  }

  // ---------------------------------------------------------------- no call is lost

  // The calls that found their thread idle.
  function Calls(run: seq<Action>): nat {
    if run == [] then 0 else
    var before, a := run[..|run| - 1], run[|run| - 1];
    Calls(before) + if a.Call? && PcOf(After(before), a.tid).Idle? then 1 else 0
  }

  function Busy(s: State): set<nat> { set t | t in s.threads && !s.threads[t].Idle? }

  lemma BusyGoes(s: State, s': State, t: nat)
    requires s'.threads == s.threads[t := PcOf(s', t)]
    ensures Busy(s') == if PcOf(s', t).Idle? then Busy(s) - {t} else Busy(s) + {t}
  {
  }

  lemma OutcomeCounts(s: State, s': State, t: nat)
    requires Outcome(s, s', t)
    ensures |s'.log| + |Busy(s')| == |s.log| + |Busy(s)|
  {
    if s' != s {
      assert PcOf(s', t) == s'.threads[t];
      BusyGoes(s, s', t);
      assert t in Busy(s);
      assert Busy(s) + {t} == Busy(s) && |Busy(s) - {t}| == |Busy(s)| - 1;
    }
  }

  lemma CallCounts(s: State, t: nat, req: Request)
    ensures var s' := Apply(s, Call(t, req));
            s'.log == s.log && |Busy(s')| == |Busy(s)| + if PcOf(s, t).Idle? then 1 else 0
  {
    if PcOf(s, t).Idle? {
      BusyGoes(s, Apply(s, Call(t, req)), t);
      assert t !in Busy(s);
    }
  }

  // Every call is answered once, or its thread is still at it.
  lemma {:induction false} EveryCallAnswered(h: HashFn, run: seq<Action>)
    requires ProperRun(h, run)
    ensures Calls(run) == |After(run).log| + |Busy(After(run))|
  {
    if run != [] {
      var before, a := run[..|run| - 1], run[|run| - 1];
      EveryCallAnswered(h, before);
      match a
      case Call(t, req) =>
        CallCounts(After(before), t, req);
      case Run(t) =>
        ReachableInv(h, before);
        StepOutcome(h, After(before), t);
        OutcomeCounts(After(before), After(run), t);
    }
  }

  // ---------------------------------------------------------------- a thread on its own

  function Alone(s: State, t: nat, n: nat): State
    decreases n
  {
    if n == 0 then s else Alone(Step(s, t), t, n - 1)
  }

  // The attempt is over: answered, refused, or the table must grow.
  predicate Over(pc: Pc) { pc.Idle? || pc.TooLong? || pc.Grow? }

  lemma OneStep(s: State, t: nat)
    ensures Alone(s, t, 1) == Step(s, t)
  {
    assert Alone(Step(s, t), t, 0) == Step(s, t);
  }

  lemma InstallEnds(s: State, t: nat)
    requires PcOf(s, t).Install? && PcOf(s, t).cur < |s.tables| && PcOf(s, t).slot < |s.tables[PcOf(s, t).cur]|
    requires s.tables[PcOf(s, t).cur][PcOf(s, t).slot] == Empty
    ensures Over(PcOf(Step(s, t), t))
  {
  }

  // A probe of a table without marks ends, or goes on by one.
  lemma ProbeGoes(h: HashFn, s: State, t: nat)
    requires Inv(h, s) && PcOf(s, t).Probe? && PcOf(s, t).cur < |s.tables| && NoneMoved(s.tables[PcOf(s, t).cur])
    ensures var pc, s' := PcOf(s, t), Step(s, t);
            || Over(PcOf(s', t))
            || (pc.k < REPROBE_LIMIT && s' == Goto(s, t, Probe(pc.req, pc.cur, PcOf(s', t).slot, pc.k + 1)))
            || (s' == Goto(s, t, Install(pc.req, pc.cur, pc.slot, pc.k)) && pc.slot < |s.tables[pc.cur]|
                && s.tables[pc.cur][pc.slot] == Empty && pc.k < REPROBE_LIMIT)
  {
    var pc := PcOf(s, t);
    assert ThreadOk(h, s, s.threads[t]);
    CurrentTable(s, pc.cur, pc.slot);
    assert s.tables[pc.cur][pc.slot].Held? ==> SlotId(s.tables[pc.cur][pc.slot]).Some?;
  }

  lemma {:induction false} ProbeEnds(h: HashFn, s: State, t: nat) returns (n: nat)
    requires Inv(h, s) && PcOf(s, t).Probe? && PcOf(s, t).cur < |s.tables| && NoneMoved(s.tables[PcOf(s, t).cur])
    ensures n + PcOf(s, t).k <= REPROBE_LIMIT + 1 && Over(PcOf(Alone(s, t, n), t))
    decreases REPROBE_LIMIT - PcOf(s, t).k
  {
    var s' := Step(s, t);
    assert ThreadOk(h, s, s.threads[t]);
    ProbeGoes(h, s, t);
    if Over(PcOf(s', t)) {
      n := 1;
      OneStep(s, t);
    } else if PcOf(s', t).Install? {
      n := 2;
      InstallEnds(s', t);
      OneStep(s', t);
    } else {
      StepKeepsInv(h, s, t);
      var m := ProbeEnds(h, s', t);
      n := m + 1;
    }
  }

  // Running alone while no resize is under way, a call is over within 22 steps.
  lemma CallEnds(h: HashFn, s: State, t: nat) returns (n: nat)
    requires Inv(h, s) && s.table.Some? && s.resizing == s.table && PcOf(s, t).GetTable?
    ensures n <= REPROBE_LIMIT + 2 && Over(PcOf(Alone(s, t, n), t))
  {
    var s' := Step(s, t);
    StepKeepsInv(h, s, t);
    assert s' == Goto(s, t, PcOf(s', t)) && PcOf(s', t).Probe?;
    var m := ProbeEnds(h, s', t);
    n := m + 1;
  }

  // ---------------------------------------------------------------- a resize on its own

  // How far the copier is with its slot.
  function Stage(s: State, pc: Pc): nat {
    match pc
    case CopyLoad(_, _, _) => 4
    case CopyProbe(_, _, _, _, _, _) => 3
    case CopyStore(_, _, _, _, _, _) => 2
    case CopyMark(_, to, i, found) =>
      if 0 < to <= |s.tables| && i < |s.tables[to - 1]| && s.tables[to - 1][i] != Empty && found.None? then 5 else 1
    case _ => 0
  }

  function Left(s: State, pc: Pc): nat {
    if (pc.CopyLoad? || pc.CopyProbe? || pc.CopyStore? || pc.CopyMark?) && 0 < pc.to <= |s.tables|
       && pc.i <= |s.tables[pc.to - 1]|
    then |s.tables[pc.to - 1]| - pc.i + 1 else 0
  }

  function Tries(s: State, pc: Pc): nat {
    if pc.CopyProbe? && pc.to < |s.tables| && pc.k <= |s.tables[pc.to]| then |s.tables[pc.to]| - pc.k else 0
  }

  // One step of the copier makes headway.
  ghost predicate Nearer(s: State, s': State, t: nat) {
    && Resizer(PcOf(s, t)) && Resizer(PcOf(s', t)) && PcOf(s', t).to == PcOf(s, t).to
        && PcOf(s', t).req == PcOf(s, t).req
    && (|| Left(s', PcOf(s', t)) < Left(s, PcOf(s, t))
        || (Left(s', PcOf(s', t)) == Left(s, PcOf(s, t))
            && (|| Stage(s', PcOf(s', t)) < Stage(s, PcOf(s, t))
                || (Stage(s', PcOf(s', t)) == Stage(s, PcOf(s, t)) && Tries(s', PcOf(s', t)) < Tries(s, PcOf(s, t))))))
  }

  lemma CopyNearer(s: State, t: nat)
    requires Shape(s) && Resizer(PcOf(s, t)) && !PcOf(s, t).InitPublish? && !PcOf(s, t).Publish?
    requires ResizerOk(s, PcOf(s, t)) && !PcOf(StepCopy(s, t, PcOf(s, t)), t).Fault?
    ensures Nearer(s, StepCopy(s, t, PcOf(s, t)), t)
  {
  }

  lemma {:induction false} Publishes(h: HashFn, s: State, t: nat, left: nat, stage: nat, tries: nat) returns (n: nat)
    requires Inv(h, s) && Resizer(PcOf(s, t)) && !PcOf(s, t).InitPublish?
    requires left == Left(s, PcOf(s, t)) && stage == Stage(s, PcOf(s, t)) && tries == Tries(s, PcOf(s, t))
    ensures Back(Alone(s, t, n), t, PcOf(s, t))
    decreases left, stage, tries
  {
    ResizeGoes(h, s, t);
    if PcOf(s, t).Publish? {
      n := 1;
      OneStep(s, t);
    } else {
      var s' := Step(s, t);
      var m := Publishes(h, s', t, Left(s', PcOf(s', t)), Stage(s', PcOf(s', t)), Tries(s', PcOf(s', t)));
      n := m + 1;
    }
  }

  ghost predicate Back(s: State, t: nat, pc: Pc)
    requires Resizer(pc)
  {
    s.table == Some(pc.to) == s.resizing && PcOf(s, t) == GetTable(pc.req)
  }

  // Running alone, the copier publishes the new table and goes back to its request.
  lemma ResizeEnds(h: HashFn, s: State, t: nat) returns (n: nat)
    requires Inv(h, s) && Resizer(PcOf(s, t)) && !PcOf(s, t).InitPublish?
    ensures var s' := Alone(s, t, n);
            s'.table == Some(PcOf(s, t).to) == s'.resizing && PcOf(s', t) == GetTable(PcOf(s, t).req)
  {
    n := Publishes(h, s, t, Left(s, PcOf(s, t)), Stage(s, PcOf(s, t)), Tries(s, PcOf(s, t)));
  }

  lemma PublishGoes(s: State, t: nat)
    requires Shape(s) && PcOf(s, t).Publish? && ResizerOk(s, PcOf(s, t))
    ensures var s' := Step(s, t);
            s'.table == Some(PcOf(s, t).to) == s'.resizing && PcOf(s', t) == GetTable(PcOf(s, t).req)
  {
  }

  lemma ResizeGoes(h: HashFn, s: State, t: nat)
    requires Inv(h, s) && Resizer(PcOf(s, t)) && !PcOf(s, t).InitPublish?
    ensures var s' := Step(s, t);
            if PcOf(s, t).Publish? then Back(s', t, PcOf(s, t))
            else Inv(h, s') && Nearer(s, s', t) && !PcOf(s', t).InitPublish?
  {
    var s' := Step(s, t);
    assert ResizerOk(s, s.threads[t]);
    if PcOf(s, t).Publish? {
      PublishGoes(s, t);
    } else {
      StepKeepsInv(h, s, t);
      assert t in s'.threads ==> ThreadOk(h, s', s'.threads[t]);
      CopyNearer(s, t);
    }
  }
}
