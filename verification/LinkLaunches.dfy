/**
  The launch left behind: `stop` does not wait for the launch, and once every repair goroutine has
  returned nobody takes its report.  In a stopped link an unfinished launch can still finish exactly
  as long as some repair goroutine has not returned.
 */
module LinkLaunches {
  import opened Base
  import opened LinkProtocol
  import opened LinkSafety
  import opened LinkTheorems

  // ---------------------------------------------------------------- the launch left behind

  /** Every repair goroutine has returned, and `stopCh` is nil. */
  ghost predicate Abandoned(s: Link) {
    && s.sh.stopCh.None?
    && forall i :: 0 <= i < |s.threads| && s.threads[i].Repairer? ==> s.threads[i].rpc.RDone?
  }

  lemma AbandonedStep(s: Link, a: Action, i: nat)
    requires Inv(s) && Abandoned(s) && Enabled(s, a) && Step(s, a).sh.starts == s.sh.starts
    requires i < |s.threads| && Unfinished(s.threads[i])
    ensures Abandoned(Step(s, a)) && i < |Step(s, a).threads| && Unfinished(Step(s, a).threads[i])
  {
    StoppedStep(s, a);
  }

  /**
    `stop` does not wait for the launch: a launch still unfinished when the repairers have returned
    blocks on its send for ever, unless the link is started again.
   */
  lemma {:induction false} AbandonedLaunchNeverFinishes(s: Link, acts: seq<Action>, s': Link, i: nat)
    requires Inv(s) && Abandoned(s) && Runs(s, acts, s') && s'.sh.starts == s.sh.starts
    requires i < |s.threads| && Unfinished(s.threads[i])
    ensures i < |s'.threads| && Unfinished(s'.threads[i])
    decreases |acts|
  {
    if acts != [] {
      var m := Step(s, acts[0]);
      StartsGrow(m, acts[1..], s');
      StartsGrow(s, [acts[0]], m);
      InvKept(s, acts[0]);
      AbandonedStep(s, acts[0], i);
      AbandonedLaunchNeverFinishes(m, acts[1..], s', i);
    }
  }

  // ---------------------------------------------------------------- whole runs

  lemma {:induction false} RunsThen(s: Link, acts: seq<Action>, m: Link, more: seq<Action>, s': Link)
    requires Runs(s, acts, m) && Runs(m, more, s')
    ensures Runs(s, acts + more, s')
    decreases |acts|
  {
    if acts == [] {
      assert acts + more == more;
    } else {
      RunsThen(Step(s, acts[0]), acts[1..], m, more, s');
      assert (acts + more)[1..] == acts[1..] + more;
    }
  }

  /** Some run without an effective start leads from s to s'. */
  ghost predicate Leads(s: Link, s': Link) {
    s'.sh.starts == s.sh.starts && exists acts :: Runs(s, acts, s')
  }

  lemma LeadsNowhere(s: Link)
    ensures Leads(s, s)
  {
    assert Runs(s, [], s);
  }

  lemma LeadsStep(s: Link, m: Link, a: Action)
    requires Leads(s, m) && Enabled(m, a) && Step(m, a).sh.starts == s.sh.starts
    ensures Leads(s, Step(m, a))
  {
    var acts :| Runs(s, acts, m);
    assert Runs(Step(m, a), [a][1..], Step(m, a));
    RunsThen(s, acts, m, [a], Step(m, a));
  }

  lemma LeadsInv(s: Link, s': Link)
    requires Inv(s) && Leads(s, s')
    ensures Inv(s')
  {
    var acts :| Runs(s, acts, s');
    InvRuns(s, acts, s');
  }

  lemma ReachableLeads(s: Link, s': Link)
    requires Reachable(s) && Leads(s, s')
    ensures Reachable(s')
  {
    var acts :| Runs(INIT, acts, s);
    var more :| Runs(s, more, s');
    RunsThen(INIT, acts, s, more, s');
  }

  // ---------------------------------------------------------------- the repairers return

  /** The link is stopped and its mutex free. */
  ghost predicate Calm(s: Link) {
    Inv(s) && s.sh.stopCh.None? && s.sh.holder.None?
  }

  /** Every quit channel that a repairer has captured is closed, and no repairer is in its section. */
  lemma CalmRepairer(s: Link, t: nat)
    requires Calm(s) && t < |s.threads| && s.threads[t].Repairer?
    ensures s.threads[t].quit.Some? && s.threads[t].quit.value in s.sh.closed
    ensures s.threads[t].rpc.RSelect? || s.threads[t].rpc.RDelay? || s.threads[t].rpc.RLock? || s.threads[t].rpc.RDone?
  {
    assert CaptureOk(s.threads[t], s.sh.next);
    assert !InCritical(s.threads[t]);
  }

  function At(s: Link, t: nat, pc: RepairPc): Link
    requires t < |s.threads| && s.threads[t].Repairer?
  {
    s.(threads := s.threads[t := Repairer(s.threads[t].quit, pc)])
  }

  /** A repairer that has not returned can go back to its select, on its own and leaving no trace. */
  lemma BackToSelect(s: Link, t: nat)
    requires Calm(s) && t < |s.threads| && s.threads[t].Repairer? && !s.threads[t].rpc.RDone?
    ensures Leads(s, At(s, t, RSelect)) && Calm(At(s, t, RSelect))
  {
    CalmRepairer(s, t);
    LeadsNowhere(s);
    var s' := At(s, t, RSelect);
    if s.threads[t].rpc.RDelay? {
      LeadsStep(s, s, SeeQuit(t));
    } else if s.threads[t].rpc.RLock? {
      ThroughTheLock(s, t);
    } else {
      assert s' == s;
    }
    LeadsInv(s, s');
  }

  lemma ThroughTheLock(s: Link, t: nat)
    requires Calm(s) && t < |s.threads| && s.threads[t].Repairer? && s.threads[t].rpc.RLock?
    ensures Leads(s, At(s, t, RSelect))
  {
    LeadsNowhere(s);
    var locked := s.sh.(holder := Some(t));
    var s1 := At(s, t, RRecheck).(sh := locked);
    assert Step(s, Run(t)) == s1;
    LeadsStep(s, s, Run(t));
    var s2 := At(s, t, RUnlock).(sh := locked);
    assert Step(s1, Run(t)) == s2;
    LeadsStep(s, s1, Run(t));
    assert Step(s2, Run(t)) == At(s, t, RSelect);
    LeadsStep(s, s2, Run(t));
  }

  lemma ReturnOne(s: Link, t: nat)
    requires Calm(s) && t < |s.threads| && s.threads[t].Repairer?
    ensures Leads(s, At(s, t, RDone)) && Calm(At(s, t, RDone))
  {
    if s.threads[t].rpc.RDone? {
      assert At(s, t, RDone) == s;
      LeadsNowhere(s);
    } else {
      BackToSelect(s, t);
      var m := At(s, t, RSelect);
      CalmRepairer(m, t);
      assert Step(m, SeeQuit(t)) == At(s, t, RDone);
      LeadsStep(s, m, SeeQuit(t));
      LeadsInv(s, At(s, t, RDone));
    }
  }

  /** The first k threads, as far as they are repairers, have returned. */
  predicate Returned(s: Link, k: nat) {
    k <= |s.threads| && forall t :: 0 <= t < k && s.threads[t].Repairer? ==> s.threads[t].rpc.RDone?
  }

  lemma {:induction false} ReturnAll(s: Link, k: nat) returns (s': Link)
    requires Calm(s) && k <= |s.threads|
    ensures Leads(s, s') && Calm(s') && Returned(s', k) && |s'.threads| == |s.threads|
    ensures forall t :: 0 <= t < |s.threads| && !s.threads[t].Repairer? ==> s'.threads[t] == s.threads[t]
  {
    LeadsNowhere(s);
    s' := s;
    if k > 0 {
      s' := ReturnAll(s, k - 1);
      if s'.threads[k - 1].Repairer? {
        var m := s';
        ReturnOne(m, k - 1);
        s' := At(m, k - 1, RDone);
        LeadsTwice(s, m, s');
      }
    }
  }

  lemma LeadsTwice(s: Link, m: Link, s': Link)
    requires Leads(s, m) && Leads(m, s')
    ensures Leads(s, s')
  {
    var acts :| Runs(s, acts, m);
    var more :| Runs(m, more, s');
    RunsThen(s, acts, m, more, s');
  }

  // ---------------------------------------------------------------- stopping a link

  /** A running link with its mutex free can be stopped by one call that nothing interrupts. */
  lemma StopIt(s: Link) returns (s': Link)
    requires Inv(s) && s.sh.stopCh.Some? && s.sh.holder.None?
    ensures Leads(s, s') && Calm(s') && s'.threads == s.threads + [Stopper(TDone)]
  {
    var t := |s.threads|;
    var m := EnterStop(s);
    var stop, quit := s.sh.stopCh.value, s.sh.quitCh.value;
    LeadsInv(s, m);
    var sh1 := m.sh.(closed := m.sh.closed + {quit}, stops := m.sh.stops + 1);
    var m1 := Link(sh1, s.threads + [Stopper(TCloseStop)]);
    assert m.threads[t := Stopper(TCloseStop)] + [] == m1.threads;
    LeadsStep(s, m, Run(t));
    var sh2 := sh1.(closed := sh1.closed + {stop});
    var m2 := Link(sh2, s.threads + [Stopper(TNilQuit)]);
    assert m1.threads[t := Stopper(TNilQuit)] + [] == m2.threads;
    LeadsInv(s, m1);
    LeadsStep(s, m1, Run(t));
    s' := LeaveStop(s, m2);
    LeadsInv(s, s');
  }

  lemma EnterStop(s: Link) returns (m: Link)
    requires Inv(s) && s.sh.stopCh.Some? && s.sh.holder.None?
    ensures m == Link(s.sh.(holder := Some(|s.threads|)), s.threads + [Stopper(TCloseQuit)]) && Leads(s, m)
    ensures s.sh.quitCh.Some?
  {
    var t, held := |s.threads|, s.sh.(holder := Some(|s.threads|));
    LeadsNowhere(s);
    LeadsStep(s, s, CallStop);
    var m0 := Link(s.sh, s.threads + [Stopper(TCheck)]);
    var m1 := Link(s.sh, s.threads + [Stopper(TLock)]);
    assert m0.threads[t := Stopper(TLock)] + [] == m1.threads;
    LeadsStep(s, m0, Run(t));
    var m2 := Link(held, s.threads + [Stopper(TRecheck)]);
    assert m1.threads[t := Stopper(TRecheck)] + [] == m2.threads;
    LeadsStep(s, m1, Run(t));
    m := Link(held, s.threads + [Stopper(TCloseQuit)]);
    assert m2.threads[t := Stopper(TCloseQuit)] + [] == m.threads;
    LeadsStep(s, m2, Run(t));
  }

  lemma LeaveStop(s: Link, m: Link) returns (s': Link)
    requires Leads(s, m) && !m.sh.crashed && m.threads == s.threads + [Stopper(TNilQuit)]
    ensures Leads(s, s')
    ensures s' == Link(m.sh.(quitCh := None, stopCh := None, holder := None), s.threads + [Stopper(TDone)])
  {
    var t := |s.threads|;
    var m1 := Link(m.sh.(quitCh := None), s.threads + [Stopper(TNilStop)]);
    assert m.threads[t := Stopper(TNilStop)] + [] == m1.threads;
    LeadsStep(s, m, Run(t));
    var m2 := Link(m1.sh.(stopCh := None), s.threads + [Stopper(TUnlock)]);
    assert m1.threads[t := Stopper(TUnlock)] + [] == m2.threads;
    LeadsStep(s, m1, Run(t));
    s' := Link(m2.sh.(holder := None), s.threads + [Stopper(TDone)]);
    assert m2.threads[t := Stopper(TDone)] + [] == s'.threads;
    LeadsStep(s, m2, Run(t));
  }

  // ---------------------------------------------------------------- any launch can be left behind

  /**
    Every launch that is unfinished when the mutex is free, in a running or a stopped link, can be
    left behind: some run stops the link and lets all repairers return before the daemon ends.
   */
  lemma AnyLaunchCanBeAbandoned(s: Link, i: nat) returns (s': Link)
    requires Reachable(s) && s.sh.holder.None? && i < |s.threads| && Unfinished(s.threads[i])
    ensures Leads(s, s') && Abandoned(s') && i < |s'.threads| && s'.threads[i] == s.threads[i]
  {
    ReachableInv(s);
    LeadsNowhere(s);
    var m := s;
    if s.sh.stopCh.Some? {
      m := StopIt(s);
    }
    s' := ReturnAll(m, |m.threads|);
    LeadsTwice(s, m, s');
  }

  /** Some run without an effective start ends with the report of launch i taken. */
  ghost predicate CanFinish(s: Link, i: nat) {
    exists s' :: Leads(s, s') && i < |s'.threads| && !Unfinished(s'.threads[i])
  }

  /** The launch reaches its send, whatever the daemon does. */
  lemma ReachesSend(s: Link, i: nat) returns (s': Link)
    requires Inv(s) && i < |s.threads| && Unfinished(s.threads[i])
    ensures Leads(s, s') && s'.sh == s.sh && |s'.threads| == |s.threads| && s'.threads == s.threads[i := s'.threads[i]]
    ensures s'.threads[i].Launcher? && s'.threads[i].lpc.LSend?
  {
    LeadsNowhere(s);
    if s.threads[i].lpc.LSend? {
      s' := s;
    } else {
      var a := if s.threads[i].lpc.LDaemon? then DaemonReturns(i, Nil) else Run(i);
      s' := Step(s, a);
      LeadsStep(s, s, a);
    }
  }

  lemma RepairerReceives(s: Link, i: nat, t: nat)
    requires Calm(s) && i < |s.threads| && Unfinished(s.threads[i])
    requires t < |s.threads| && s.threads[t].Repairer? && !s.threads[t].rpc.RDone?
    ensures CanFinish(s, i)
  {
    BackToSelect(s, t);
    var m := At(s, t, RSelect);
    var m' := ReachesSend(m, i);
    LeadsTwice(s, m, m');
    LeadsInv(s, m');
    LeadsStep(s, m', Receive(i, t));
    assert !Unfinished(Step(m', Receive(i, t)).threads[i]);
  }

  /**
    Exactly when an unfinished launch of a stopped link can still finish without a new start: while
    some repair goroutine has not returned.
   */
  lemma CanFinishIff(s: Link, i: nat)
    requires Reachable(s) && s.sh.stopCh.None? && s.sh.holder.None? && i < |s.threads| && Unfinished(s.threads[i])
    ensures CanFinish(s, i) <==> exists t :: 0 <= t < |s.threads| && s.threads[t].Repairer? && !s.threads[t].rpc.RDone?
  {
    ReachableInv(s);
    if t :| 0 <= t < |s.threads| && s.threads[t].Repairer? && !s.threads[t].rpc.RDone? {
      RepairerReceives(s, i, t);
    } else if CanFinish(s, i) {
      var s' :| Leads(s, s') && i < |s'.threads| && !Unfinished(s'.threads[i]);
      var acts :| Runs(s, acts, s');
      AbandonedLaunchNeverFinishes(s, acts, s', i);
    }
  }

  // ---------------------------------------------------------------- one start is enough

  lemma Then(s: Link, a: Action, s': Link)
    requires Reachable(s) && Enabled(s, a) && s' == Step(s, a)
    ensures Reachable(s')
  {
    var acts :| Runs(INIT, acts, s);
    assert Runs(s', [a][1..], s');
    RunsThen(INIT, acts, s, [a], s');
  }

  const STARTING := Shared(Some(0), Some(1), 2, {}, Some(0), 0, 1, 0, 0, 0, false)

  function Started(th: Thread): seq<Thread> {
    [th, Repairer(Some(1), RSelect), Launcher(Some(0), LDaemon, 0)]
  }

  lemma StartTakesTheLock()
    ensures Reachable(Link(INIT.sh.(holder := Some(0)), [Starter(SMakeStop)]))
  {
    var sh := INIT.sh;
    assert Runs(INIT, [], INIT);
    Then(INIT, CallStart, Link(sh, [Starter(SCheck)]));
    Then(Link(sh, [Starter(SCheck)]), Run(0), Link(sh, [Starter(SLock)]));
    Then(Link(sh, [Starter(SLock)]), Run(0), Link(sh.(holder := Some(0)), [Starter(SRecheck)]));
    Then(Link(sh.(holder := Some(0)), [Starter(SRecheck)]), Run(0), Link(sh.(holder := Some(0)), [Starter(SMakeStop)]));
  }

  lemma StartMakesChannels()
    ensures Reachable(Link(STARTING, [Starter(SGoRepair)]))
  {
    StartTakesTheLock();
    var half := STARTING.(quitCh := None, next := 1);
    Then(Link(INIT.sh.(holder := Some(0)), [Starter(SMakeStop)]), Run(0), Link(half, [Starter(SMakeQuit)]));
    Then(Link(half, [Starter(SMakeQuit)]), Run(0), Link(STARTING, [Starter(SGoRepair)]));
  }

  lemma StartSpawns()
    ensures Reachable(Link(STARTING.(holder := None), Started(Starter(SDone))))
  {
    StartMakesChannels();
    var two := [Starter(SGoLaunch), Repairer(Some(1), RSelect)];
    Then(Link(STARTING, [Starter(SGoRepair)]), Run(0), Link(STARTING, two));
    Then(Link(STARTING, two), Run(0), Link(STARTING, Started(Starter(SUnlock))));
    Then(Link(STARTING, Started(Starter(SUnlock))), Run(0), Link(STARTING.(holder := None), Started(Starter(SDone))));
  }

  /** One start and one stop suffice to leave a launch behind. */
  lemma OneStopCanAbandonALaunch() returns (s: Link)
    ensures Reachable(s) && Abandoned(s) && s.sh.starts == 1 && 2 < |s.threads| && Unfinished(s.threads[2])
  {
    StartSpawns();
    var m := Link(STARTING.(holder := None), Started(Starter(SDone)));
    s := AnyLaunchCanBeAbandoned(m, 2);
    ReachableLeads(m, s);
  }
}
