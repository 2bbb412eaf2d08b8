/**
  What the link protocol guarantees over whole runs.
 */
module LinkTheorems {
  import opened Base
  import opened LinkProtocol
  import opened LinkSafety

  lemma {:induction false} InvRuns(s: Link, acts: seq<Action>, s': Link)
    requires Inv(s) && Runs(s, acts, s')
    ensures Inv(s')
    decreases |acts|
  {
    if acts != [] {
      InvKept(s, acts[0]);
      InvRuns(Step(s, acts[0]), acts[1..], s');
    }
  }

  lemma ReachableInv(s: Link)
    requires Reachable(s)
    ensures Inv(s)
  {
    var acts :| Runs(INIT, acts, s);
    InvRuns(INIT, acts, s);
  }

  /** The launch goroutine i has not been told to stop. */
  predicate Uncancelled(s: Link, i: nat) {
    i < |s.threads| && s.threads[i].Launcher? && s.threads[i].stop.Some? && s.threads[i].stop.value !in s.sh.closed
  }

  /**
    Under every interleaving of any number of start and stop calls, of repairers left over from
    earlier starts and of launches: no nil or closed channel is ever closed; whenever the mutex is
    free `stopCh` and `quitCh` are nil together and every other channel ever made is closed; at most
    one launch is uncancelled; and each launch begins at most one send, exactly one once its daemon
    has ended.
   */
  lemma EveryInterleavingIsSafe(s: Link)
    requires Reachable(s)
    ensures !s.sh.crashed
    ensures s.sh.holder.None? ==> (s.sh.stopCh.None? <==> s.sh.quitCh.None?)
    ensures s.sh.holder.None? ==>
              forall c: Chan :: c in s.sh.closed <==> c < s.sh.next && Some(c) != s.sh.stopCh && Some(c) != s.sh.quitCh
    ensures forall i: nat, j: nat | Uncancelled(s, i) && Uncancelled(s, j) :: i == j
    ensures forall i | 0 <= i < |s.threads| && s.threads[i].Launcher? ::
              s.threads[i].sends == if s.threads[i].lpc.LSend? || s.threads[i].lpc.LDone? then 1 else 0
  {
    ReachableInv(s);
    forall i: nat, j: nat | Uncancelled(s, i) && Uncancelled(s, j) ensures i == j {
      assert CaptureOk(s.threads[i], s.sh.next) && CaptureOk(s.threads[j], s.sh.next);
      assert s.threads[i].stop == s.sh.stopCh && s.threads[j].stop == s.sh.stopCh;
    }
    forall i | 0 <= i < |s.threads| && s.threads[i].Launcher?
      ensures s.threads[i].sends == if s.threads[i].lpc.LSend? || s.threads[i].lpc.LDone? then 1 else 0
    {
      assert CaptureOk(s.threads[i], s.sh.next);
    }
  }

  lemma {:induction false} NoneSpawning(ws: seq<Tally>)
    requires forall k :: 0 <= k < |ws| ==> ws[k].spawning == 0
    ensures Sum(ws).spawning == 0
  {
    if ws != [] {
      NoneSpawning(ws[..|ws| - 1]);
    }
  }

  /** A repair goroutine that has taken an error and not yet replaced the launch it came from. */
  predicate MidRepair(th: Thread) {
    th.Repairer? && Weight(th).owing == 1
  }

  predicate Unfinished(th: Thread) {
    th.Launcher? && !th.lpc.LDone?
  }

  predicate Active(th: Thread) {
    Unfinished(th) || MidRepair(th)
  }

  /**
    Conservation over every run: whenever the mutex is free the launches number one per effective
    start and one per repair; every launch is either unfinished or its one report has been received;
    and unfinished launches and repairs in progress together never outnumber the effective starts.
   */
  lemma LaunchesArePaidFor(s: Link)
    requires Reachable(s)
    ensures s.sh.holder.None? ==> Total(s.threads).launches == s.sh.repairs + s.sh.starts
    ensures s.sh.receives + Total(s.threads).unfinished == Total(s.threads).launches
    ensures Total(s.threads).owing <= s.sh.starts
  {
    ReachableInv(s);
    if s.sh.holder.None? {
      forall k | 0 <= k < |s.threads| ensures Weights(s.threads)[k].spawning == 0 {
        assert !InCritical(s.threads[k]);
      }
      NoneSpawning(Weights(s.threads));
    }
  }

  /**
    A link started at most once: at most one launch goroutine is unfinished at a time, no two
    repairs overlap, and while a repair is in progress, in particular when it closes `stopCh`, every
    launch has ended and been received.
   */
  lemma StartedOnce(s: Link, i: nat, j: nat)
    requires Reachable(s) && s.sh.starts <= 1
    requires i < |s.threads| && j < |s.threads|
    requires Active(s.threads[i]) && Active(s.threads[j])
    ensures i == j
  {
    ReachableInv(s);
    SumBounds(Weights(s.threads), i, j);
  }

  // ---------------------------------------------------------------- after the last stop

  lemma StartsGrow(s: Link, acts: seq<Action>, s': Link)
    requires Runs(s, acts, s')
    ensures s'.sh.starts >= s.sh.starts
    decreases |acts|
  {
    if acts != [] {
      StartsGrow(Step(s, acts[0]), acts[1..], s');
    }
  }

  /** With `stopCh` nil, a step that is not an effective start launches nothing and leaves it nil. */
  lemma StoppedStep(s: Link, a: Action)
    requires Inv(s) && Enabled(s, a) && s.sh.stopCh.None? && Step(s, a).sh.starts == s.sh.starts
    ensures Step(s, a).sh.stopCh.None?
    ensures Total(Step(s, a).threads).launches == Total(s.threads).launches
    ensures |Step(s, a).threads| >= |s.threads|
    ensures forall i :: |s.threads| <= i < |Step(s, a).threads| ==> Step(s, a).threads[i].Starter? || Step(s, a).threads[i].Stopper?
  {
    if a.Run? {
      StoppedRun(s, a.t);
    } else {
      NoLaunch(s, a);
    }
  }

  lemma StoppedRun(s: Link, t: nat)
    requires Inv(s) && Enabled(s, Run(t)) && s.sh.stopCh.None? && Step(s, Run(t)).sh.starts == s.sh.starts
    ensures var s' := Step(s, Run(t));
            s'.sh.stopCh.None? && Total(s'.threads).launches == Total(s.threads).launches && |s'.threads| == |s.threads|
  {
    var ts, e := s.threads, Execute(s.sh, t, s.threads[t]);
    MutexRun(s, t);
    StoppedStatement(s.sh, t, ts[t]);
    TotalPut(ts, t, e.th);
    assert ts[t := e.th] + [] == ts[t := e.th];
  }

  /** Only a statement of a thread launches. */
  lemma NoLaunch(s: Link, a: Action)
    requires Enabled(s, a) && !a.Run?
    ensures Total(Step(s, a).threads).launches == Total(s.threads).launches
  {
    var ts, ts' := s.threads, Step(s, a).threads;
    match a
    case CallStart => TotalSpawn(ts, Starter(SCheck));
    case CallStop => TotalSpawn(ts, Stopper(TCheck));
    case Receive(u, t) =>
      TotalPut(ts, u, ts'[u]);
      TotalPut(ts[u := ts'[u]], t, ts'[t]);
    case SeeQuit(t) => TotalPut(ts, t, ts'[t]);
    case DaemonReturns(t, _) => TotalPut(ts, t, ts'[t]);
    case DaemonPanics(t) => TotalPut(ts, t, ts'[t]);
    case Run(_) =>
  }

  lemma StoppedStatement(sh: Shared, t: nat, th: Thread)
    requires Ready(th) && sh.stopCh.None? && Execute(sh, t, th).sh.starts == sh.starts
    requires InCritical(th) ==> ChannelInv(sh, th)
    ensures var e := Execute(sh, t, th);
            e.sh.stopCh.None? && e.spawned.None? && Weight(e.th).launches == Weight(th).launches
  {
  }

  lemma {:induction false} StoppedRuns(s: Link, acts: seq<Action>, s': Link)
    requires Inv(s) && s.sh.stopCh.None? && Runs(s, acts, s') && s'.sh.starts == s.sh.starts
    ensures Inv(s') && s'.sh.stopCh.None?
    ensures Total(s'.threads).launches == Total(s.threads).launches
    decreases |acts|
  {
    if acts != [] {
      var m := Step(s, acts[0]);
      StartsGrow(m, acts[1..], s');
      StartsGrow(s, [acts[0]], m);
      InvKept(s, acts[0]);
      StoppedStep(s, acts[0]);
      StoppedRuns(m, acts[1..], s');
    }
  }

  /**
    After the last stop, in a state with `stopCh` nil and whatever the interleaving that follows, no
    launch ever happens again, and the repairers take at most as many further reports as there are
    unfinished launches: at most one for a link started once.
   */
  lemma AfterTheLastStop(s: Link, acts: seq<Action>, s': Link)
    requires Reachable(s) && s.sh.stopCh.None? && Runs(s, acts, s') && s'.sh.starts == s.sh.starts
    ensures s'.sh.stopCh.None?
    ensures Total(s'.threads).launches == Total(s.threads).launches
    ensures s'.sh.receives <= s.sh.receives + Total(s.threads).unfinished
    ensures Total(s.threads).unfinished <= s.sh.starts
  {
    ReachableInv(s);
    StoppedRuns(s, acts, s');
    TotalBoundsUnfinished(s.threads);
    TotalBoundsUnfinished(s'.threads);
  }

  lemma TotalBoundsUnfinished(ts: seq<Thread>)
    ensures 0 <= Total(ts).unfinished <= Total(ts).owing
  {
    SumBoundsUnfinished(Weights(ts));
  }

  lemma {:induction false} SumBoundsUnfinished(ws: seq<Tally>)
    requires forall k :: 0 <= k < |ws| ==> 0 <= ws[k].unfinished <= ws[k].owing
    ensures 0 <= Sum(ws).unfinished <= Sum(ws).owing
  {
    if ws != [] {
      SumBoundsUnfinished(ws[..|ws| - 1]);
    }
  }

  /** How far a repairer is from returning, given the reports that may still reach it. */
  function Rank(s: Link, t: nat): int
    requires t < |s.threads| && s.threads[t].Repairer?
  {
    8 * Total(s.threads).unfinished + PcRank(s.threads[t].rpc)
  }

  function PcRank(pc: RepairPc): nat {
    match pc
    case RDone => 0
    case RSelect => 1
    case RUnlock => 2
    case RRecheck => 3
    case RLock => 4
    case RDelay => 5
    case _ => 6
  }

  predicate Moves(a: Action, t: nat) {
    (a.Run? || a.SeeQuit? || a.Receive?) && a.t == t
  }

  lemma StoppedRepairer(s: Link, a: Action, t: nat)
    requires Inv(s) && Enabled(s, a) && s.sh.stopCh.None?
    requires t < |s.threads| && s.threads[t].Repairer?
    ensures t < |Step(s, a).threads| && Step(s, a).threads[t].Repairer?
    ensures Step(s, a).sh.receives == s.sh.receives + if a.Receive? then 1 else 0
    ensures !Moves(a, t) ==> Step(s, a).threads[t] == s.threads[t]
    ensures Moves(a, t) && !a.Receive? ==> PcRank(Step(s, a).threads[t].rpc) < PcRank(s.threads[t].rpc)
  {
    if Moves(a, t) && a.Run? {
      assert InCritical(s.threads[t]) ==> Critical(s) == s.threads[t];
    }
  }

  /**
    After the last stop every step of a repairer brings it closer to returning, and no step of
    another thread takes it further away.
   */
  lemma RepairerWindsDown(s: Link, a: Action, t: nat)
    requires Inv(s) && Enabled(s, a) && s.sh.stopCh.None? && Step(s, a).sh.starts == s.sh.starts
    requires t < |s.threads| && s.threads[t].Repairer?
    ensures t < |Step(s, a).threads| && Step(s, a).threads[t].Repairer?
    ensures Rank(Step(s, a), t) <= Rank(s, t) - if Moves(a, t) then 1 else 0
  {
    StoppedStep(s, a);
    StoppedRepairer(s, a, t);
    CountsKept(s, a);
  }

  /** How many of the actions are moves of the repairer t. */
  function MovesOf(acts: seq<Action>, t: nat): nat {
    if acts == [] then 0 else (if Moves(acts[0], t) then 1 else 0) + MovesOf(acts[1..], t)
  }

  lemma {:induction false} RankPaysForMoves(s: Link, acts: seq<Action>, s': Link, t: nat)
    requires Inv(s) && s.sh.stopCh.None? && Runs(s, acts, s') && s'.sh.starts == s.sh.starts
    requires t < |s.threads| && s.threads[t].Repairer?
    ensures t < |s'.threads| && s'.threads[t].Repairer?
    ensures MovesOf(acts, t) + Rank(s', t) <= Rank(s, t)
    decreases |acts|
  {
    if acts != [] {
      var m := Step(s, acts[0]);
      StartsGrow(m, acts[1..], s');
      StartsGrow(s, [acts[0]], m);
      InvKept(s, acts[0]);
      StoppedStep(s, acts[0]);
      RepairerWindsDown(s, acts[0], t);
      RankPaysForMoves(m, acts[1..], s', t);
    }
  }

  /**
    After the last stop a repairer takes a bounded number of steps, however long the run and whatever
    the other threads do: at most 14 for a link started once.
   */
  lemma RepairerStepsAreBounded(s: Link, acts: seq<Action>, s': Link, t: nat)
    requires Reachable(s) && s.sh.stopCh.None? && Runs(s, acts, s') && s'.sh.starts == s.sh.starts
    requires t < |s.threads| && s.threads[t].Repairer?
    ensures MovesOf(acts, t) <= 8 * s.sh.starts + 6
  {
    ReachableInv(s);
    RankPaysForMoves(s, acts, s', t);
    TotalBoundsUnfinished(s.threads);
    TotalBoundsUnfinished(s'.threads);
  }

  /** How many statements are left of a critical section. */
  function Remaining(th: Thread): nat {
    match th
    case Starter(pc) =>
      (match pc case SRecheck => 6 case SMakeStop => 5 case SMakeQuit => 4 case SGoRepair => 3 case SGoLaunch => 2 case SUnlock => 1 case _ => 0)
    case Stopper(pc) =>
      (match pc case TRecheck => 6 case TCloseQuit => 5 case TCloseStop => 4 case TNilQuit => 3 case TNilStop => 2 case TUnlock => 1 case _ => 0)
    case Repairer(_, pc) =>
      (match pc case RRecheck => 6 case RCloseStop => 5 case RMakeStop => 4 case RCount => 3 case RGoLaunch => 2 case RUnlock => 1 case _ => 0)
    case Launcher(_, _, _) => 0
  }

  /** The mutex is never held for ever: its holder can always move, and each move shortens its section. */
  lemma HolderCanMove(s: Link)
    requires Inv(s) && s.sh.holder.Some?
    ensures var t := s.sh.holder.value;
            && Enabled(s, Run(t))
            && Remaining(Step(s, Run(t)).threads[t]) < Remaining(s.threads[t])
  {
    assert InCritical(s.threads[s.sh.holder.value]);
  }

  /**
    After the last stop a repairer that has not returned can move, unless it waits for the mutex,
    whose holder can move: so it returns.
   */
  lemma RepairerCanMove(s: Link, t: nat) returns (a: Action)
    requires Inv(s) && s.sh.stopCh.None?
    requires t < |s.threads| && s.threads[t].Repairer? && !s.threads[t].rpc.RDone?
    ensures Enabled(s, a)
    ensures Moves(a, t) || (s.threads[t].rpc.RLock? && s.sh.holder.Some? && a == Run(s.sh.holder.value))
  {
    var pc := s.threads[t].rpc;
    assert CaptureOk(s.threads[t], s.sh.next);
    assert InCritical(s.threads[t]) <==> s.sh.holder == Some(t);
    if pc.RSelect? || pc.RDelay? {
      a := SeeQuit(t);
    } else if pc.RLock? && s.sh.holder.Some? {
      HolderCanMove(s);
      a := Run(s.sh.holder.value);
    } else {
      a := Run(t);
    }
  }
}
