/**
  Every error is repaired: in a link that has not been stopped each error report received is answered
  by one repair, and a daemon that fails or panics is followed by a new launch on a new stop channel.
 */
module LinkRepairs {
  import opened Base
  import opened LinkProtocol
  import opened LinkSafety
  import opened LinkTheorems
  import opened LinkLaunches

  // ---------------------------------------------------------------- errors and repairs

  /** The thread has begun to close the channels of the link. */
  predicate Closing(th: Thread) {
    th.Stopper? && (th.tpc.TCloseStop? || th.tpc.TNilQuit? || th.tpc.TNilStop?)
  }

  /** Before the first stop every repairer listens to the current `quitCh`. */
  ghost predicate UnstoppedInv(s: Link) {
    s.sh.stops == 0 ==>
      && !Closing(Critical(s))
      && forall i :: 0 <= i < |s.threads| && s.threads[i].Repairer? ==>
           s.threads[i].quit == s.sh.quitCh && s.sh.quitCh.Some? && s.sh.stopCh.Some?
  }

  /** No repair without an error; and before the first stop no error without a repair. */
  predicate ErrorInv(sh: Shared, n: Tally) {
    && sh.repairs + n.repairing <= sh.errors <= sh.receives
    && (sh.stops == 0 ==> sh.repairs + n.repairing == sh.errors)
  }

  /** A link that is up has a repairer that listens to its `quitCh` and has not returned. */
  ghost predicate Watched(s: Link) {
    s.sh.quitCh.Some? && !Closing(Critical(s)) && Critical(s) != Starter(SGoRepair) ==>
      exists t :: 0 <= t < |s.threads| && Watches(s, t)
  }

  predicate Watches(s: Link, t: nat)
    requires t < |s.threads|
  {
    s.threads[t].Repairer? && s.threads[t].quit == s.sh.quitCh && !s.threads[t].rpc.RDone?
  }

  ghost predicate RepairInv(s: Link) {
    UnstoppedInv(s) && ErrorInv(s.sh, Total(s.threads)) && Watched(s)
  }

  /** The statements of a thread, as far as they matter to repairs. */
  lemma ExecuteRepairs(sh: Shared, t: nat, th: Thread)
    requires Ready(th) && (InCritical(th) ==> ChannelInv(sh, th))
    requires sh.stops == 0 ==> !Closing(th) && (th.Repairer? ==> sh.stopCh.Some?)
    ensures var e := Execute(sh, t, th);
            && e.sh.stops >= sh.stops && e.sh.errors == sh.errors && e.sh.receives == sh.receives
            && var d := Weight(e.th).repairing + SpawnedWeight(e.spawned).repairing - Weight(th).repairing;
            && e.sh.repairs + d <= sh.repairs
            && (e.sh.stops == 0 ==> e.sh.repairs + d == sh.repairs)
  {
  }

  lemma ErrorsRun(s: Link, t: nat)
    requires Inv(s) && RepairInv(s) && Enabled(s, Run(t))
    ensures ErrorInv(Step(s, Run(t)).sh, Total(Step(s, Run(t)).threads))
  {
    var ts, e := s.threads, Execute(s.sh, t, s.threads[t]);
    MutexRun(s, t);
    assert InCritical(ts[t]) ==> Critical(s) == ts[t];
    assert Closing(ts[t]) ==> InCritical(ts[t]);
    ExecuteRepairs(s.sh, t, ts[t]);
    TotalPut(ts, t, e.th);
    if e.spawned.Some? {
      TotalSpawn(ts[t := e.th], e.spawned.value);
    } else {
      assert ts[t := e.th] + [] == ts[t := e.th];
    }
  }

  /** Before the first stop no repairer sees its `quitCh` closed. */
  lemma QuitIsOpen(s: Link, t: nat)
    requires Inv(s) && UnstoppedInv(s) && s.sh.stops == 0
    requires t < |s.threads| && s.threads[t].Repairer?
    ensures s.threads[t].quit.Some? && s.threads[t].quit.value !in s.sh.closed
  {
  }

  lemma ErrorsKept(s: Link, a: Action)
    requires Inv(s) && RepairInv(s) && Enabled(s, a)
    ensures ErrorInv(Step(s, a).sh, Total(Step(s, a).threads))
  {
    match a
    case CallStart => ErrorsCall(s, Starter(SCheck));
    case CallStop => ErrorsCall(s, Stopper(TCheck));
    case Run(t) => ErrorsRun(s, t);
    case SeeQuit(t) =>
      if s.sh.stops == 0 {
        QuitIsOpen(s, t);
      } else {
        ErrorsReplace(s, t, Repairer(s.threads[t].quit, if s.threads[t].rpc.RSelect? then RDone else RSelect));
      }
    case DaemonReturns(t, report) => ErrorsReplace(s, t, BeginSend(s.threads[t], report));
    case DaemonPanics(t) => ErrorsReplace(s, t, s.threads[t].(lpc := LRecover));
    case Receive(u, t) => ErrorsReceive(s, u, t);
  }

  lemma ErrorsCall(s: Link, th: Thread)
    requires ErrorInv(s.sh, Total(s.threads)) && Weight(th).repairing == 0
    ensures ErrorInv(s.sh, Total(s.threads + [th]))
  {
    TotalSpawn(s.threads, th);
  }

  lemma ErrorsReplace(s: Link, t: nat, th: Thread)
    requires ErrorInv(s.sh, Total(s.threads)) && t < |s.threads|
    requires Weight(th).repairing <= Weight(s.threads[t]).repairing
    requires s.sh.stops == 0 ==> Weight(th).repairing == Weight(s.threads[t]).repairing
    ensures ErrorInv(s.sh, Total(s.threads[t := th]))
  {
    TotalPut(s.threads, t, th);
  }

  lemma ErrorsReceive(s: Link, u: nat, t: nat)
    requires ErrorInv(s.sh, Total(s.threads)) && Enabled(s, Receive(u, t))
    ensures ErrorInv(Step(s, Receive(u, t)).sh, Total(Step(s, Receive(u, t)).threads))
  {
    var ts, ts' := s.threads, Step(s, Receive(u, t)).threads;
    TotalPut(ts, u, ts'[u]);
    TotalPut(ts[u := ts'[u]], t, ts'[t]);
  }

  /** What a statement does to the current channels and to the repairers. */
  lemma ExecuteWatches(sh: Shared, t: nat, th: Thread)
    requires Ready(th)
    ensures var e := Execute(sh, t, th);
            && (th.Repairer? <==> e.th.Repairer?)
            && (th.Repairer? ==> e.th.quit == th.quit && !e.th.rpc.RDone?)
            && (e.spawned.Some? && e.spawned.value.Repairer? ==> e.spawned.value == Repairer(sh.quitCh, RSelect) && th == Starter(SGoRepair))
            && (th == Starter(SGoRepair) ==> e.spawned == Some(Repairer(sh.quitCh, RSelect)))
            && (e.sh.quitCh != sh.quitCh ==> th == Starter(SMakeQuit) || th == Stopper(TNilQuit))
            && (sh.stopCh.Some? && e.sh.stopCh.None? ==> th == Stopper(TNilStop))
            && (Closing(e.th) && !Closing(th) ==> e.sh.stops > 0)
            && e.sh.stops >= sh.stops
  {
  }

  lemma UnstoppedKept(s: Link, a: Action)
    requires Inv(s) && RepairInv(s) && Enabled(s, a)
    ensures UnstoppedInv(Step(s, a))
  {
    if a.Run? {
      MutexRun(s, a.t);
      ExecuteWatches(s.sh, a.t, s.threads[a.t]);
    } else {
      MutexKept(s, a);
    }
  }

  lemma WatchedRun(s: Link, t: nat)
    requires Inv(s) && RepairInv(s) && Enabled(s, Run(t))
    ensures Watched(Step(s, Run(t)))
  {
    var s', th, e := Step(s, Run(t)), s.threads[t], Execute(s.sh, t, s.threads[t]);
    MutexRun(s, t);
    ExecuteWatches(s.sh, t, th);
    if s'.sh.quitCh.Some? && !Closing(Critical(s')) && Critical(s') != Starter(SGoRepair) {
      if th == Starter(SGoRepair) {
        assert Watches(s', |s.threads|);
      } else if s'.sh.quitCh == s.sh.quitCh && !Closing(Critical(s)) && Critical(s) != Starter(SGoRepair) {
        var w :| 0 <= w < |s.threads| && Watches(s, w);
        assert Watches(s', w);
      }
    }
  }

  lemma WatchedKept(s: Link, a: Action)
    requires Inv(s) && RepairInv(s) && Enabled(s, a)
    ensures Watched(Step(s, a))
  {
    if a.Run? {
      WatchedRun(s, a.t);
    } else {
      var s' := Step(s, a);
      MutexKept(s, a);
      OthersCaptureNothing(s, a);
      if s'.sh.quitCh.Some? && !Closing(Critical(s')) && Critical(s') != Starter(SGoRepair) {
        var w :| 0 <= w < |s.threads| && Watches(s, w);
        assert Watches(s', w);
      }
    }
  }

  lemma {:induction false} RepairRuns(s: Link, acts: seq<Action>, s': Link)
    requires Inv(s) && RepairInv(s) && Runs(s, acts, s')
    ensures RepairInv(s')
    decreases |acts|
  {
    if acts != [] {
      InvKept(s, acts[0]);
      UnstoppedKept(s, acts[0]);
      ErrorsKept(s, acts[0]);
      WatchedKept(s, acts[0]);
      RepairRuns(Step(s, acts[0]), acts[1..], s');
    }
  }

  lemma ReachableRepairInv(s: Link)
    requires Reachable(s)
    ensures RepairInv(s)
  {
    var acts :| Runs(INIT, acts, s);
    var s0 := INIT;
    assert Runs(INIT, [], s0);
    ReachableInv(s0);
    NewLink(s0);
    RepairRuns(s0, acts, s);
  }

  lemma NewLink(s: Link)
    requires s == INIT
    ensures RepairInv(s)
  {
    SumOfNone(Weights(s.threads));
  }

  lemma SumOfNone(ws: seq<Tally>)
    requires |ws| == 0
    ensures var n := Sum(ws);
            n.launches == 0 && n.spawning == 0 && n.unfinished == 0 && n.owing == 0 && n.repairers == 0 && n.repairing == 0
  {
  }

  /**
    Over every run no more repairs are counted or in progress than errors were received; and without
    an effective stop exactly as many.  With the mutex free, unfinished launches, repairs in progress
    and launches whose daemon ended without an error then make up the effective starts.
   */
  lemma ErrorsAreRepaired(s: Link)
    requires Reachable(s)
    ensures s.sh.repairs + Total(s.threads).repairing <= s.sh.errors <= s.sh.receives
    ensures s.sh.stops == 0 ==> s.sh.repairs + Total(s.threads).repairing == s.sh.errors
    ensures s.sh.holder.None? ==> var n := Total(s.threads);
              && n.unfinished + n.repairing + (s.sh.receives - s.sh.errors) <= s.sh.starts
              && (s.sh.stops == 0 ==> n.unfinished + n.repairing + (s.sh.receives - s.sh.errors) == s.sh.starts)
  {
    ReachableRepairInv(s);
    LaunchesArePaidFor(s);
  }

  // ---------------------------------------------------------------- a repair happens

  /** The n-fold step of one thread. */
  function Steps(t: nat, n: nat): seq<Action> {
    if n == 0 then [] else [Run(t)] + Steps(t, n - 1)
  }

  /** What a repair makes of a link: the old stop channel closed, a launch on a new one. */
  function Repaired(s: Link, t: nat): Link
    requires t < |s.threads| && s.threads[t].Repairer? && s.sh.stopCh.Some?
  {
    Link(s.sh.(closed := s.sh.closed + {s.sh.stopCh.value}, stopCh := Some(s.sh.next), next := s.sh.next + 1, repairs := s.sh.repairs + 1),
         s.threads[t := Repairer(s.threads[t].quit, RSelect)] + [Launcher(Some(s.sh.next), LDaemon, 0)])
  }

  lemma StepsOn(s: Link, t: nat, n: nat, m: Link, s': Link)
    requires Enabled(s, Run(t)) && Step(s, Run(t)) == m && Runs(m, Steps(t, n), s')
    ensures Runs(s, Steps(t, n + 1), s')
  {
    assert Steps(t, n + 1)[0] == Run(t) && Steps(t, n + 1)[1..] == Steps(t, n);
  }

  /** From the lock on, with the link running. */
  lemma RepairInLock(s: Link, t: nat)
    requires !s.sh.crashed && s.sh.stopCh.Some? && s.sh.stopCh.value !in s.sh.closed && s.sh.holder == Some(t)
    requires t < |s.threads| && s.threads[t].Repairer? && s.threads[t].rpc.RRecheck?
    ensures Runs(s, Steps(t, 6), Repaired(s, t).(sh := Repaired(s, t).sh.(holder := None)))
  {
    var s1 := At(s, t, RCloseStop);
    var s2 := At(s, t, RMakeStop).(sh := s.sh.(closed := s.sh.closed + {s.sh.stopCh.value}));
    var s6 := Repaired(s, t).(sh := Repaired(s, t).sh.(holder := None));
    assert Step(s, Run(t)) == s1 && Step(s1, Run(t)) == s2;
    MakeAndLaunch(s2, t);
    assert s6.threads == At(s2, t, RSelect).threads + [Launcher(Some(s.sh.next), LDaemon, 0)];
    StepsOn(s1, t, 4, s2, s6);
    StepsOn(s, t, 5, s1, s6);
  }

  /** Once the old stop channel is closed. */
  lemma MakeAndLaunch(s: Link, t: nat)
    requires !s.sh.crashed && t < |s.threads| && s.threads[t].Repairer? && s.threads[t].rpc.RMakeStop?
    ensures Runs(s, Steps(t, 4), Link(s.sh.(stopCh := Some(s.sh.next), next := s.sh.next + 1, repairs := s.sh.repairs + 1, holder := None),
                                      At(s, t, RSelect).threads + [Launcher(Some(s.sh.next), LDaemon, 0)]))
  {
    var s1 := At(s, t, RCount).(sh := s.sh.(stopCh := Some(s.sh.next), next := s.sh.next + 1));
    assert Step(s, Run(t)) == s1;
    CountAndLaunch(s1, t);
    assert At(s1, t, RSelect).threads == At(s, t, RSelect).threads;
    StepsOn(s, t, 3, s1, Link(s1.sh.(repairs := s.sh.repairs + 1, holder := None),
                              At(s1, t, RSelect).threads + [Launcher(s1.sh.stopCh, LDaemon, 0)]));
  }

  /** Once the new one is made. */
  lemma CountAndLaunch(s: Link, t: nat)
    requires !s.sh.crashed && t < |s.threads| && s.threads[t].Repairer? && s.threads[t].rpc.RCount?
    ensures Runs(s, Steps(t, 3), Link(s.sh.(repairs := s.sh.repairs + 1, holder := None),
                                      At(s, t, RSelect).threads + [Launcher(s.sh.stopCh, LDaemon, 0)]))
  {
    var s1 := At(s, t, RGoLaunch).(sh := s.sh.(repairs := s.sh.repairs + 1));
    assert Step(s, Run(t)) == s1;
    LaunchAndUnlock(s1, t);
    assert At(s1, t, RSelect).threads == At(s, t, RSelect).threads;
    StepsOn(s, t, 2, s1, Link(s1.sh.(holder := None), At(s1, t, RSelect).threads + [Launcher(s.sh.stopCh, LDaemon, 0)]));
  }

  lemma LaunchAndUnlock(s: Link, t: nat)
    requires !s.sh.crashed && t < |s.threads| && s.threads[t].Repairer? && s.threads[t].rpc.RGoLaunch?
    ensures Runs(s, Steps(t, 2), Link(s.sh.(holder := None), At(s, t, RSelect).threads + [Launcher(s.sh.stopCh, LDaemon, 0)]))
  {
    var s1 := Link(s.sh, At(s, t, RUnlock).threads + [Launcher(s.sh.stopCh, LDaemon, 0)]);
    var s2 := Link(s.sh.(holder := None), At(s, t, RSelect).threads + [Launcher(s.sh.stopCh, LDaemon, 0)]);
    assert Step(s, Run(t)) == s1 && Step(s1, Run(t)) == s2;
    assert Runs(s2, Steps(t, 0), s2);
    StepsOn(s1, t, 0, s2, s2);
    StepsOn(s, t, 1, s1, s2);
  }

  /**
    Progress: from every reachable state in which the link runs and the mutex is free, a repairer that
    has taken an error, whether it still waits or wants the lock, comes by its own steps alone to
    close the stop channel, make a new one, count the repair and launch again.
   */
  lemma RepairHappens(s: Link, t: nat) returns (n: nat)
    requires Reachable(s) && s.sh.stopCh.Some? && s.sh.holder.None?
    requires t < |s.threads| && s.threads[t].Repairer? && (s.threads[t].rpc.RDelay? || s.threads[t].rpc.RLock?)
    ensures Runs(s, Steps(t, n), Repaired(s, t))
    ensures s.sh.stopCh.value in Repaired(s, t).sh.closed && s.sh.stopCh.value !in s.sh.closed
    ensures s.sh.next !in Repaired(s, t).sh.closed
    ensures Total(Repaired(s, t).threads).launches == Total(s.threads).launches + 1
  {
    StopIsOpen(s);
    n := RepairSteps(s, t);
    RepairLaunches(s, t);
  }

  lemma StopIsOpen(s: Link)
    requires Reachable(s) && s.sh.stopCh.Some? && s.sh.holder.None?
    ensures !s.sh.crashed && s.sh.stopCh.value !in s.sh.closed && s.sh.next !in s.sh.closed && s.sh.stopCh.value < s.sh.next
  {
    ReachableInv(s);
  }

  lemma RepairSteps(s: Link, t: nat) returns (n: nat)
    requires !s.sh.crashed && s.sh.stopCh.Some? && s.sh.stopCh.value !in s.sh.closed && s.sh.holder.None?
    requires t < |s.threads| && s.threads[t].Repairer? && (s.threads[t].rpc.RDelay? || s.threads[t].rpc.RLock?)
    ensures Runs(s, Steps(t, n), Repaired(s, t))
  {
    var waiting := At(s, t, RLock);
    var s1 := At(s, t, RRecheck).(sh := s.sh.(holder := Some(t)));
    assert Step(waiting, Run(t)) == s1;
    RepairInLock(s1, t);
    assert Repaired(s1, t).(sh := Repaired(s1, t).sh.(holder := None)) == Repaired(s, t);
    StepsOn(waiting, t, 6, s1, Repaired(s, t));
    if s.threads[t].rpc.RLock? {
      assert waiting == s;
      n := 7;
    } else {
      assert Step(s, Run(t)) == waiting;
      StepsOn(s, t, 7, waiting, Repaired(s, t));
      n := 8;
    }
  }

  lemma RepairLaunches(s: Link, t: nat)
    requires t < |s.threads| && s.threads[t].Repairer? && s.sh.stopCh.Some?
    ensures Total(Repaired(s, t).threads).launches == Total(s.threads).launches + 1
  {
    TotalPut(s.threads, t, Repairer(s.threads[t].quit, RSelect));
    TotalSpawn(s.threads[t := Repairer(s.threads[t].quit, RSelect)], Launcher(Some(s.sh.next), LDaemon, 0));
  }

  // ---------------------------------------------------------------- a failing daemon is replaced

  /** A daemon that returns an error or panics reports an error. */
  lemma FailureIsReported(s: Link, i: nat, panics: bool) returns (acts: seq<Action>)
    requires !s.sh.crashed && i < |s.threads| && s.threads[i].Launcher? && s.threads[i].lpc.LDaemon?
    ensures acts == if panics then [DaemonPanics(i), Run(i)] else [DaemonReturns(i, Error)]
    ensures Runs(s, acts, s.(threads := s.threads[i := Launcher(s.threads[i].stop, LSend(Error), s.threads[i].sends + 1)]))
  {
    var s' := s.(threads := s.threads[i := Launcher(s.threads[i].stop, LSend(Error), s.threads[i].sends + 1)]);
    if panics {
      acts := [DaemonPanics(i), Run(i)];
      var m := Step(s, DaemonPanics(i));
      assert Step(m, Run(i)) == s';
      assert acts[1..] == [Run(i)] && Runs(m, [Run(i)], s') by { assert Runs(s', [Run(i)][1..], s'); }
    } else {
      acts := [DaemonReturns(i, Error)];
      assert Runs(s', acts[1..], s');
    }
  }

  /** A running link, with its mutex free, has a repairer that has not returned. */
  lemma RunningIsWatched(s: Link) returns (t: nat)
    requires Reachable(s) && s.sh.stopCh.Some? && s.sh.holder.None?
    ensures t < |s.threads| && s.threads[t].Repairer? && !s.threads[t].rpc.RDone?
  {
    ReachableInv(s);
    ReachableRepairInv(s);
    t :| 0 <= t < |s.threads| && Watches(s, t);
  }

  /**
    In a running link started once, with its mutex free, a daemon that fails, by an error or a panic,
    is replaced: its report is received and a new launch follows on a new stop channel, without any
    further call of `start` or `stop`.
   */
  lemma FailureIsRepaired(s: Link, i: nat, panics: bool) returns (acts: seq<Action>, s': Link)
    requires Reachable(s) && s.sh.starts <= 1 && s.sh.stopCh.Some? && s.sh.holder.None?
    requires i < |s.threads| && s.threads[i].Launcher? && s.threads[i].lpc.LDaemon?
    ensures Runs(s, acts, s') && (forall a <- acts :: !a.CallStart? && !a.CallStop?)
    ensures (if panics then DaemonPanics(i) else DaemonReturns(i, Error)) in acts
    ensures s'.sh.repairs == s.sh.repairs + 1 && s'.sh.stopCh == Some(s.sh.next) && s.sh.stopCh.value in s'.sh.closed
    ensures |s'.threads| == |s.threads| + 1 && s'.threads[|s.threads|] == Launcher(Some(s.sh.next), LDaemon, 0)
    ensures s'.threads[i].Launcher? && s'.threads[i].lpc.LDone?
  {
    var t := RunningIsWatched(s);
    IdleWhileLaunched(s, i, t);
    StopIsOpen(s);
    var first, m := ErrorIsTaken(s, i, t, panics);
    var n := RepairSteps(m, t);
    s' := Repaired(m, t);
    acts := first + Steps(t, n);
    RunsThen(s, first, m, Steps(t, n), s');
    StepsAreRuns(t, n);
  }

  /** The repairer takes the error. */
  lemma ErrorIsTaken(s: Link, i: nat, t: nat, panics: bool) returns (acts: seq<Action>, m: Link)
    requires !s.sh.crashed && i < |s.threads| && s.threads[i].Launcher? && s.threads[i].lpc.LDaemon?
    requires t < |s.threads| && s.threads[t].Repairer? && s.threads[t].rpc.RSelect?
    ensures Runs(s, acts, m) && (forall a <- acts :: !a.CallStart? && !a.CallStop?)
    ensures (if panics then DaemonPanics(i) else DaemonReturns(i, Error)) in acts
    ensures m.sh == s.sh.(receives := s.sh.receives + 1, errors := s.sh.errors + 1) && |m.threads| == |s.threads|
    ensures m.threads[t].Repairer? && m.threads[t].rpc.RDelay? && m.threads[i].Launcher? && m.threads[i].lpc.LDone?
  {
    var first := FailureIsReported(s, i, panics);
    var sent := s.(threads := s.threads[i := Launcher(s.threads[i].stop, LSend(Error), s.threads[i].sends + 1)]);
    m := Step(sent, Receive(i, t));
    assert Runs(m, [Receive(i, t)][1..], m);
    RunsThen(s, first, sent, [Receive(i, t)], m);
    acts := first + [Receive(i, t)];
  }

  lemma {:induction false} StepsAreRuns(t: nat, n: nat)
    ensures forall a <- Steps(t, n) :: a == Run(t)
  {
    if n > 0 {
      StepsAreRuns(t, n - 1);
    }
  }

  /** While the one launch is unfinished the repairer of a link started once is at its select. */
  lemma IdleWhileLaunched(s: Link, i: nat, t: nat)
    requires Reachable(s) && s.sh.starts <= 1 && s.sh.holder.None?
    requires i < |s.threads| && Unfinished(s.threads[i])
    requires t < |s.threads| && s.threads[t].Repairer? && !s.threads[t].rpc.RDone?
    ensures s.threads[t].rpc.RSelect?
  {
    ReachableInv(s);
    assert !InCritical(s.threads[t]);
    if !s.threads[t].rpc.RSelect? {
      StartedOnce(s, i, t);
    }
  }
}
