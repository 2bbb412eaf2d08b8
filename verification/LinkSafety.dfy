/**
  Safety of the link protocol over every interleaving, and what a final `stop` guarantees.
 */
module LinkSafety {
  import opened Base
  import opened LinkProtocol

  // ---------------------------------------------------------------- counting threads

  /**
    How many threads are launches, launches still to be spawned for a counted start or repair,
    unfinished launches (their report has not been taken), holders of the right to report next,
    repair goroutines (or starts about to spawn one), start calls that may still take effect, and
    repairs that have taken an error and are not yet counted.
   */
  datatype Tally = Tally(launches: int, spawning: int, unfinished: int, owing: int, repairers: int, pending: int, repairing: int) {
    function Plus(o: Tally): Tally {
      Tally(launches + o.launches, spawning + o.spawning, unfinished + o.unfinished,
            owing + o.owing, repairers + o.repairers, pending + o.pending, repairing + o.repairing)
    }
  }

  const NOTHING := Tally(0, 0, 0, 0, 0, 0, 0)

  function Weight(th: Thread): Tally {
    match th
    case Starter(pc) =>
      if pc.SMakeQuit? || pc.SGoRepair? then Tally(0, 1, 0, 1, 1, 0, 0)
      else if pc.SGoLaunch? then Tally(0, 1, 0, 1, 0, 0, 0)
      else if pc.SUnlock? || pc.SDone? then NOTHING
      else Tally(0, 0, 0, 0, 0, 1, 0)
    case Stopper(_) => NOTHING
    case Repairer(_, pc) =>
      if pc.RGoLaunch? then Tally(0, 1, 0, 1, 1, 0, 0)
      else if pc.RSelect? || pc.RUnlock? || pc.RDone? then Tally(0, 0, 0, 0, 1, 0, 0)
      else Tally(0, 0, 0, 1, 1, 0, 1)
    case Launcher(_, pc, _) => if pc.LDone? then Tally(1, 0, 0, 0, 0, 0, 0) else Tally(1, 0, 1, 1, 0, 0, 0)
  }

  function Sum(ws: seq<Tally>): Tally {
    if ws == [] then NOTHING else Sum(ws[..|ws| - 1]).Plus(ws[|ws| - 1])
  }

  function Weights(ts: seq<Thread>): (ws: seq<Tally>)
    ensures |ws| == |ts| && forall i :: 0 <= i < |ts| ==> ws[i] == Weight(ts[i])
  {
    seq(|ts|, i requires 0 <= i < |ts| => Weight(ts[i]))
  }

  function Total(ts: seq<Thread>): Tally {
    Sum(Weights(ts))
  }

  lemma {:induction false} SumPut(ws: seq<Tally>, t: nat, w: Tally)
    requires t < |ws|
    ensures Sum(ws[t := w]).Plus(ws[t]) == Sum(ws).Plus(w)
  {
    var n := |ws| - 1;
    if t == n {
      assert ws[t := w][..n] == ws[..n];
    } else {
      SumPut(ws[..n], t, w);
      assert ws[t := w][..n] == ws[..n][t := w];
    }
  }

  lemma TotalSpawn(ts: seq<Thread>, th: Thread)
    ensures Total(ts + [th]) == Total(ts).Plus(Weight(th))
  {
    assert Weights(ts + [th])[..|ts|] == Weights(ts);
  }

  lemma TotalPut(ts: seq<Thread>, t: nat, th: Thread)
    requires t < |ts|
    ensures Total(ts[t := th]).Plus(Weight(ts[t])) == Total(ts).Plus(Weight(th))
  {
    var ws, w := Weights(ts), Weight(th);
    assert Weights(ts[t := th]) == ws[t := w];
    SumPut(ws, t, w);
  }

  /** Any two different threads weigh no more than all of them. */
  lemma {:induction false} SumBounds(ws: seq<Tally>, i: nat, j: nat)
    requires i < |ws| && j < |ws|
    requires forall k :: 0 <= k < |ws| ==> 0 <= ws[k].unfinished <= ws[k].owing
    ensures Sum(ws).unfinished >= ws[i].unfinished + if i == j then 0 else ws[j].unfinished
    ensures Sum(ws).owing >= ws[i].owing + if i == j then 0 else ws[j].owing
    ensures Sum(ws).owing >= Sum(ws).unfinished
  {
    var n := |ws| - 1;
    if n > 0 {
      SumBounds(ws[..n], if i < n then i else if j < n then j else 0, if j < n then j else if i < n then i else 0);
    }
  }

  // ---------------------------------------------------------------- invariants

  /** The thread is inside a critical section of the link's mutex. */
  predicate InCritical(th: Thread) {
    match th
    case Starter(pc) => !(pc.SCheck? || pc.SLock? || pc.SDone?)
    case Stopper(pc) => !(pc.TCheck? || pc.TLock? || pc.TDone?)
    case Repairer(_, pc) => !(pc.RSelect? || pc.RDelay? || pc.RLock? || pc.RDone?)
    case Launcher(_, _, _) => false
  }

  /** The mutex: its holder is the one thread inside a critical section. */
  ghost predicate MutexInv(s: Link) {
    && (s.sh.holder.Some? ==> s.sh.holder.value < |s.threads|)
    && forall i :: 0 <= i < |s.threads| ==> (InCritical(s.threads[i]) <==> s.sh.holder == Some(i))
  }

  const RESTING := Stopper(TDone)

  /** The thread in its critical section; a finished thread if there is none. */
  function Critical(s: Link): Thread {
    if s.sh.holder.Some? && s.sh.holder.value < |s.threads| then s.threads[s.sh.holder.value] else RESTING
  }

  function Opt(ch: Option<Chan>): set<Chan> {
    if ch.Some? then {ch.value} else {}
  }

  /** The channels that are allocated and still open, given the thread in its critical section. */
  function Live(sh: Shared, th: Thread): set<Chan> {
    if th == Stopper(TCloseStop) then Opt(sh.stopCh)
    else if th == Stopper(TNilQuit) || th == Stopper(TNilStop) then {}
    else if th.Repairer? && th.rpc.RMakeStop? then Opt(sh.quitCh)
    else Opt(sh.stopCh) + Opt(sh.quitCh)
  }

  /** Which of `stopCh` and `quitCh` are nil at each program point of a critical section. */
  predicate Shape(stop: bool, quit: bool, th: Thread) {
    match th
    case Starter(pc) =>
      if pc.SMakeStop? then !stop && !quit
      else if pc.SMakeQuit? then stop && !quit
      else if pc.SGoRepair? || pc.SGoLaunch? then stop && quit
      else stop == quit
    case Stopper(pc) =>
      if pc.TNilStop? then stop && !quit
      else if pc.TCloseQuit? || pc.TCloseStop? || pc.TNilQuit? then stop && quit
      else stop == quit
    case Repairer(_, pc) =>
      if pc.RCloseStop? || pc.RMakeStop? || pc.RCount? || pc.RGoLaunch? then stop && quit
      else stop == quit
    case Launcher(_, _, _) => stop == quit
  }

  /** Channels: every allocated channel is closed except the current ones. */
  ghost predicate ChannelInv(sh: Shared, th: Thread) {
    && !sh.crashed
    && Shape(sh.stopCh.Some?, sh.quitCh.Some?, th)
    && (sh.stopCh.Some? ==> sh.stopCh.value < sh.next)
    && (sh.quitCh.Some? ==> sh.quitCh.value < sh.next)
    && (sh.stopCh.Some? && sh.quitCh.Some? ==> sh.stopCh != sh.quitCh)
    && forall c: Chan :: c in sh.closed <==> c < sh.next && c !in Live(sh, th)
  }

  /** Conservation: every launch is paid for by one start or one repair, every report by one launch. */
  predicate CountInv(sh: Shared, n: Tally) {
    && n.launches + n.spawning == sh.repairs + sh.starts
    && n.owing <= sh.starts
    && n.repairers == sh.starts
    && sh.receives + n.unfinished == n.launches
  }

  /** Captured channels exist, and each launch begins exactly one send on `errCh`. */
  predicate CaptureOk(th: Thread, next: nat) {
    && (th.Repairer? ==> th.quit.Some? && th.quit.value < next)
    && (th.Launcher? ==> th.stop.Some? && th.stop.value < next)
    && (th.Launcher? ==> th.sends == if th.lpc.LSend? || th.lpc.LDone? then 1 else 0)
  }

  ghost predicate CaptureInv(s: Link) {
    forall i :: 0 <= i < |s.threads| ==> CaptureOk(s.threads[i], s.sh.next)
  }

  /** The current `stopCh` has been allocated but its launch has not been spawned yet. */
  predicate FreshStop(th: Thread) {
    || (th.Starter? && (th.spc.SMakeQuit? || th.spc.SGoRepair? || th.spc.SGoLaunch?))
    || (th.Repairer? && (th.rpc.RCount? || th.rpc.RGoLaunch?))
  }

  function StopOf(th: Thread): Option<Chan> {
    if th.Launcher? then th.stop else None
  }

  /** Generations: each launch has a stop channel of its own. */
  ghost predicate GenerationInv(s: Link) {
    && (FreshStop(Critical(s)) ==>
          forall i :: 0 <= i < |s.threads| && s.threads[i].Launcher? ==> StopOf(s.threads[i]) != s.sh.stopCh)
    && (forall i, j :: 0 <= i < j < |s.threads| && s.threads[i].Launcher? && s.threads[j].Launcher? ==>
          StopOf(s.threads[i]) != StopOf(s.threads[j]))
    && (s.sh.quitCh.Some? ==>
          forall i :: 0 <= i < |s.threads| && s.threads[i].Launcher? ==> StopOf(s.threads[i]) != s.sh.quitCh)
  }

  ghost predicate Inv(s: Link) {
    && MutexInv(s)
    && ChannelInv(s.sh, Critical(s))
    && CountInv(s.sh, Total(s.threads))
    && CaptureInv(s)
    && GenerationInv(s)
  }

  // ---------------------------------------------------------------- one statement

  /** What the statement of one thread does to the mutex. */
  lemma ExecuteMutex(sh: Shared, t: nat, th: Thread)
    requires Ready(th) && (WantsLock(th) ==> sh.holder.None?) && (InCritical(th) <==> sh.holder == Some(t))
    ensures var e := Execute(sh, t, th);
            && (InCritical(e.th) <==> e.sh.holder == Some(t))
            && (e.sh.holder == sh.holder || ((sh.holder.None? || sh.holder == Some(t)) && (e.sh.holder.None? || e.sh.holder == Some(t))))
            && (e.spawned.Some? ==> !InCritical(e.spawned.value))
  {
  }

  /** Inside its critical section a statement keeps the channel invariant from its own point of view. */
  lemma ExecuteChannels(sh: Shared, t: nat, th: Thread)
    requires InCritical(th) && ChannelInv(sh, th)
    ensures var e := Execute(sh, t, th); ChannelInv(e.sh, if InCritical(e.th) then e.th else RESTING)
  {
  }

  /** Outside of the critical sections a statement changes at most the mutex. */
  lemma ExecuteOutside(sh: Shared, t: nat, th: Thread)
    requires Ready(th) && !InCritical(th)
    ensures var e := Execute(sh, t, th);
            && e.sh == sh.(holder := if InCritical(e.th) then Some(t) else sh.holder)
            && (ChannelInv(sh, RESTING) && InCritical(e.th) ==> ChannelInv(e.sh, e.th))
            && e.spawned.None? && !FreshStop(e.th)
  {
  }

  function SpawnedWeight(o: Option<Thread>): Tally {
    if o.Some? then Weight(o.value) else NOTHING
  }

  /** A launch, a right to report or a repairer added by a statement is paid for by the counters. */
  predicate Paid(sh: Shared, th: Thread, e: Effect) {
    var w, v, u := Weight(th), Weight(e.th), SpawnedWeight(e.spawned);
    && v.launches + u.launches + v.spawning + u.spawning - w.launches - w.spawning
       == e.sh.repairs + e.sh.starts - sh.repairs - sh.starts
    && v.owing + u.owing - w.owing <= e.sh.starts - sh.starts
    && v.repairers + u.repairers - w.repairers == e.sh.starts - sh.starts
    && v.launches + u.launches - v.unfinished - u.unfinished == w.launches - w.unfinished
    && e.sh.receives == sh.receives
  }

  lemma StarterPaid(sh: Shared, t: nat, pc: StartPc)
    ensures Paid(sh, Starter(pc), StarterStep(sh, t, pc))
  {
  }

  lemma StopperPaid(sh: Shared, t: nat, pc: StopPc)
    ensures Paid(sh, Stopper(pc), StopperStep(sh, t, pc))
  {
  }

  lemma RepairerPaid(sh: Shared, t: nat, q: Option<Chan>, pc: RepairPc)
    ensures Paid(sh, Repairer(q, pc), RepairerStep(sh, t, q, pc))
  {
  }

  lemma ExecutePaid(sh: Shared, t: nat, th: Thread)
    requires Ready(th)
    ensures Paid(sh, th, Execute(sh, t, th))
  {
    match th
    case Starter(pc) => StarterPaid(sh, t, pc);
    case Stopper(pc) => StopperPaid(sh, t, pc);
    case Repairer(q, pc) => RepairerPaid(sh, t, q, pc);
    case Launcher(_, _, _) =>
  }

  lemma ExecuteCaptures(sh: Shared, t: nat, th: Thread)
    requires Ready(th) && CaptureOk(th, sh.next)
    requires InCritical(th) ==> ChannelInv(sh, th)
    ensures var e := Execute(sh, t, th);
            && e.sh.next >= sh.next
            && CaptureOk(e.th, e.sh.next)
            && (e.spawned.Some? ==> CaptureOk(e.spawned.value, e.sh.next))
  {
  }

  /** A launch is spawned only with a `stopCh` that no launch has captured. */
  lemma ExecuteGenerations(sh: Shared, t: nat, th: Thread)
    requires Ready(th)
    ensures var e := Execute(sh, t, th);
            && StopOf(e.th) == StopOf(th) && e.th.Launcher? == th.Launcher?
            && (e.spawned.Some? && e.spawned.value.Launcher? ==> FreshStop(th) && e.spawned.value.stop == sh.stopCh && !FreshStop(e.th))
            && (FreshStop(e.th) && !FreshStop(th) ==> e.sh.stopCh == Some(sh.next))
            && (FreshStop(e.th) && FreshStop(th) ==> e.sh.stopCh == sh.stopCh)
            && (e.sh.quitCh == sh.quitCh || e.sh.quitCh.None? || e.sh.quitCh == Some(sh.next))
  {
  }

  // ---------------------------------------------------------------- every step

  lemma MutexRun(s: Link, t: nat)
    requires MutexInv(s) && Enabled(s, Run(t))
    ensures var e, s' := Execute(s.sh, t, s.threads[t]), Step(s, Run(t));
            && MutexInv(s')
            && (InCritical(s.threads[t]) ==>
                  Critical(s) == s.threads[t] && Critical(s') == if InCritical(e.th) then e.th else RESTING)
            && (!InCritical(s.threads[t]) ==>
                  if InCritical(e.th) then Critical(s) == RESTING && Critical(s') == e.th
                  else Critical(s') == Critical(s))
  {
    ExecuteMutex(s.sh, t, s.threads[t]);
  }

  lemma MutexKept(s: Link, a: Action)
    requires MutexInv(s) && Enabled(s, a)
    ensures MutexInv(Step(s, a))
    ensures !a.Run? ==> Critical(Step(s, a)) == Critical(s)
  {
    if a.Run? {
      MutexRun(s, a.t);
    }
  }

  lemma ChannelsKept(s: Link, a: Action)
    requires Inv(s) && Enabled(s, a)
    ensures ChannelInv(Step(s, a).sh, Critical(Step(s, a)))
  {
    MutexKept(s, a);
    if a.Run? { MutexRun(s, a.t); }
    if a.Run? && InCritical(s.threads[a.t]) {
      ExecuteChannels(s.sh, a.t, s.threads[a.t]);
    } else if a.Run? {
      ExecuteOutside(s.sh, a.t, s.threads[a.t]);
    }
  }

  lemma CountsRun(s: Link, t: nat)
    requires CountInv(s.sh, Total(s.threads)) && Enabled(s, Run(t))
    ensures CountInv(Step(s, Run(t)).sh, Total(Step(s, Run(t)).threads))
  {
    var ts, e := s.threads, Execute(s.sh, t, s.threads[t]);
    ExecutePaid(s.sh, t, ts[t]);
    TotalPut(ts, t, e.th);
    if e.spawned.Some? {
      TotalSpawn(ts[t := e.th], e.spawned.value);
    } else {
      assert ts[t := e.th] + [] == ts[t := e.th];
    }
  }

  lemma CountsReceive(s: Link, u: nat, t: nat)
    requires CountInv(s.sh, Total(s.threads)) && Enabled(s, Receive(u, t))
    ensures CountInv(Step(s, Receive(u, t)).sh, Total(Step(s, Receive(u, t)).threads))
  {
    var ts, ts' := s.threads, Step(s, Receive(u, t)).threads;
    TotalPut(ts, u, ts'[u]);
    TotalPut(ts[u := ts'[u]], t, ts'[t]);
  }

  lemma CountsKept(s: Link, a: Action)
    requires CountInv(s.sh, Total(s.threads)) && Enabled(s, a)
    ensures CountInv(Step(s, a).sh, Total(Step(s, a).threads))
  {
    match a
    case CallStart => CountsCall(s, Starter(SCheck));
    case CallStop => CountsCall(s, Stopper(TCheck));
    case Run(t) => CountsRun(s, t);
    case Receive(u, t) => CountsReceive(s, u, t);
    case SeeQuit(t) =>
      CountsReplace(s, t, Repairer(s.threads[t].quit, if s.threads[t].rpc.RSelect? then RDone else RSelect));
    case DaemonReturns(t, report) => CountsReplace(s, t, BeginSend(s.threads[t], report));
    case DaemonPanics(t) => CountsReplace(s, t, s.threads[t].(lpc := LRecover));
  }

  lemma CountsCall(s: Link, th: Thread)
    requires CountInv(s.sh, Total(s.threads)) && (th == Starter(SCheck) || th == Stopper(TCheck))
    ensures CountInv(s.sh, Total(s.threads + [th]))
  {
    TotalSpawn(s.threads, th);
    CallWeight(th);
  }

  /** Calls that have not taken effect do not count. */
  lemma CallWeight(th: Thread)
    requires th == Starter(SCheck) || th == Stopper(TCheck)
    ensures var w := Weight(th); w.launches == w.spawning == w.unfinished == w.owing == w.repairers == 0
  {
  }

  /** A thread that goes on without launching or receiving. */
  lemma CountsReplace(s: Link, t: nat, th: Thread)
    requires CountInv(s.sh, Total(s.threads)) && t < |s.threads|
    requires var w, v := Weight(s.threads[t]), Weight(th);
             v == w.(owing := v.owing, pending := v.pending, repairing := v.repairing) && v.owing <= w.owing
    ensures CountInv(s.sh, Total(s.threads[t := th]))
  {
    TotalPut(s.threads, t, th);
  }

  lemma CapturesKept(s: Link, a: Action)
    requires MutexInv(s) && ChannelInv(s.sh, Critical(s)) && CaptureInv(s) && Enabled(s, a)
    ensures CaptureInv(Step(s, a))
  {
    if a.Run? {
      MutexRun(s, a.t);
      ExecuteCaptures(s.sh, a.t, s.threads[a.t]);
    }
  }

  lemma GenerationsRun(s: Link, t: nat)
    requires MutexInv(s) && ChannelInv(s.sh, Critical(s)) && CaptureInv(s) && GenerationInv(s) && Enabled(s, Run(t))
    ensures GenerationInv(Step(s, Run(t)))
  {
    MutexRun(s, t);
    ExecuteGenerations(s.sh, t, s.threads[t]);
    if !InCritical(s.threads[t]) {
      ExecuteOutside(s.sh, t, s.threads[t]);
    }
  }

  /** Any other action keeps which channel each launch captured. */
  lemma OthersCaptureNothing(s: Link, a: Action)
    requires Enabled(s, a) && !a.Run?
    ensures var s' := Step(s, a);
            && s'.sh == s.sh.(receives := s'.sh.receives, errors := s'.sh.errors)
            && |s'.threads| >= |s.threads|
            && (forall i :: 0 <= i < |s.threads| ==>
                  s'.threads[i].Launcher? == s.threads[i].Launcher? && StopOf(s'.threads[i]) == StopOf(s.threads[i]))
            && (forall i :: |s.threads| <= i < |s'.threads| ==> !s'.threads[i].Launcher?)
  {
  }

  lemma GenerationsKept(s: Link, a: Action)
    requires Inv(s) && Enabled(s, a)
    ensures GenerationInv(Step(s, a))
  {
    if a.Run? {
      GenerationsRun(s, a.t);
    } else {
      MutexKept(s, a);
      OthersCaptureNothing(s, a);
    }
  }

  /** Every step of every thread keeps every invariant. */
  lemma InvKept(s: Link, a: Action)
    requires Inv(s) && Enabled(s, a)
    ensures Inv(Step(s, a))
  {
    MutexKept(s, a);
    ChannelsKept(s, a);
    CountsKept(s, a);
    CapturesKept(s, a);
    GenerationsKept(s, a);
  }
}
