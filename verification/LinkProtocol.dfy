/**
  The life cycle of one tunnel link as a concurrent protocol: any number of `start` and `stop`
  calls, the repair goroutines and the launch goroutines, interleaved at every shared access.

  Each goroutine is a thread with a program counter.  The lock-free first checks of `start` and
  `stop`, every lock operation, every channel allocation, every `close` and every assignment to
  `stopCh` and `quitCh` is its own step.  `errCh` is unbuffered, so a send and its receive are one
  joint step.  Closing a nil or a closed channel crashes the program, and so it does here.
 */
module LinkProtocol {
  import opened Base

  type Chan = nat

  /** What a launch reports on `errCh`: nil, or an error (a recovered panic is an error). */
  datatype Report = Nil | Error

  datatype StartPc = SCheck | SLock | SRecheck | SMakeStop | SMakeQuit | SGoRepair | SGoLaunch | SUnlock | SDone
  datatype StopPc = TCheck | TLock | TRecheck | TCloseQuit | TCloseStop | TNilQuit | TNilStop | TUnlock | TDone
  datatype RepairPc =
    RSelect | RDelay | RLock | RRecheck | RCloseStop | RMakeStop | RCount | RGoLaunch | RUnlock | RDone
  datatype LaunchPc = LDaemon | LRecover | LSend(report: Report) | LDone

  /**
    A repairer captures `quitCh` and a launcher captures `stopCh` when the `go` statement runs.
    `sends` counts the sends on `errCh` that a launcher has begun.
   */
  datatype Thread =
    | Starter(spc: StartPc)
    | Stopper(tpc: StopPc)
    | Repairer(quit: Option<Chan>, rpc: RepairPc)
    | Launcher(stop: Option<Chan>, lpc: LaunchPc, sends: nat)

  /**
    The shared state of a link.  `next` is the number of channels allocated so far and `holder` the
    thread that holds the mutex.  `starts` and `stops` count the calls that took effect, `receives`
    the values taken from `errCh` and `errors` those among them that were not nil; they only record
    history.
   */
  datatype Shared = Shared(
    stopCh: Option<Chan>,
    quitCh: Option<Chan>,
    next: nat,
    closed: set<Chan>,
    holder: Option<nat>,
    repairs: nat,
    starts: nat,
    stops: nat,
    receives: nat,
    errors: nat,
    crashed: bool)

  datatype Link = Link(sh: Shared, threads: seq<Thread>)

  datatype Action =
    | CallStart
    | CallStop
    | Run(t: nat)                          // thread t executes its next statement
    | SeeQuit(t: nat)                      // a select of repairer t finds quitCh closed
    | DaemonReturns(t: nat, report: Report)
    | DaemonPanics(t: nat)
    | Receive(sender: nat, t: nat)         // launcher `sender` hands its report to repairer t

  const INIT := Link(Shared(None, None, 0, {}, None, 0, 0, 0, 0, 0, false), [])

  /** What one statement does: the new shared state, the thread's new state, the goroutine spawned. */
  datatype Effect = Effect(sh: Shared, th: Thread, spawned: Option<Thread>)

  function Close(sh: Shared, ch: Option<Chan>): Shared {
    if ch.None? || ch.value in sh.closed then sh.(crashed := true) else sh.(closed := sh.closed + {ch.value})
  }

  function StarterStep(sh: Shared, t: nat, pc: StartPc): Effect {
    match pc
    case SCheck => Effect(sh, Starter(if sh.stopCh.Some? then SDone else SLock), None)
    case SLock => Effect(sh.(holder := Some(t)), Starter(SRecheck), None)
    case SRecheck => Effect(sh, Starter(if sh.stopCh.Some? then SUnlock else SMakeStop), None)
    case SMakeStop =>
      Effect(sh.(stopCh := Some(sh.next), next := sh.next + 1, starts := sh.starts + 1), Starter(SMakeQuit), None)
    case SMakeQuit => Effect(sh.(quitCh := Some(sh.next), next := sh.next + 1), Starter(SGoRepair), None)
    case SGoRepair => Effect(sh, Starter(SGoLaunch), Some(Repairer(sh.quitCh, RSelect)))
    case SGoLaunch => Effect(sh, Starter(SUnlock), Some(Launcher(sh.stopCh, LDaemon, 0)))
    case SUnlock => Effect(sh.(holder := None), Starter(SDone), None)
    case SDone => Effect(sh, Starter(SDone), None)
  }

  function StopperStep(sh: Shared, t: nat, pc: StopPc): Effect {
    match pc
    case TCheck => Effect(sh, Stopper(if sh.stopCh.None? then TDone else TLock), None)
    case TLock => Effect(sh.(holder := Some(t)), Stopper(TRecheck), None)
    case TRecheck => Effect(sh, Stopper(if sh.stopCh.None? then TUnlock else TCloseQuit), None)
    case TCloseQuit => Effect(Close(sh, sh.quitCh).(stops := sh.stops + 1), Stopper(TCloseStop), None)
    case TCloseStop => Effect(Close(sh, sh.stopCh), Stopper(TNilQuit), None)
    case TNilQuit => Effect(sh.(quitCh := None), Stopper(TNilStop), None)
    case TNilStop => Effect(sh.(stopCh := None), Stopper(TUnlock), None)
    case TUnlock => Effect(sh.(holder := None), Stopper(TDone), None)
    case TDone => Effect(sh, Stopper(TDone), None)
  }

  /** From `RDelay` the timer fires; seeing `quitCh` closed is the action `SeeQuit`. */
  function RepairerStep(sh: Shared, t: nat, q: Option<Chan>, pc: RepairPc): Effect {
    match pc
    case RDelay => Effect(sh, Repairer(q, RLock), None)
    case RLock => Effect(sh.(holder := Some(t)), Repairer(q, RRecheck), None)
    case RRecheck => Effect(sh, Repairer(q, if sh.stopCh.None? then RUnlock else RCloseStop), None)
    case RCloseStop => Effect(Close(sh, sh.stopCh), Repairer(q, RMakeStop), None)
    case RMakeStop => Effect(sh.(stopCh := Some(sh.next), next := sh.next + 1), Repairer(q, RCount), None)
    case RCount => Effect(sh.(repairs := sh.repairs + 1), Repairer(q, RGoLaunch), None)
    case RGoLaunch => Effect(sh, Repairer(q, RUnlock), Some(Launcher(sh.stopCh, LDaemon, 0)))
    case RUnlock => Effect(sh.(holder := None), Repairer(q, RSelect), None)
    case _ => Effect(sh, Repairer(q, pc), None)
  }

  /** The next statement of a thread that is not waiting on a channel. */
  function Execute(sh: Shared, t: nat, th: Thread): Effect {
    match th
    case Starter(pc) => StarterStep(sh, t, pc)
    case Stopper(pc) => StopperStep(sh, t, pc)
    case Repairer(q, pc) => RepairerStep(sh, t, q, pc)
    case Launcher(_, _, _) => Effect(sh, BeginSend(th, Error), None)
  }

  /** The daemon has ended, or its panic has been recovered: the launcher blocks on `errCh`. */
  function BeginSend(th: Thread, report: Report): Thread
    requires th.Launcher?
  {
    Launcher(th.stop, LSend(report), th.sends + 1)
  }

  predicate WantsLock(th: Thread) {
    th == Starter(SLock) || th == Stopper(TLock) || (th.Repairer? && th.rpc.RLock?)
  }

  /** The thread can execute a statement of its own, given that it gets the lock if it wants it. */
  predicate Ready(th: Thread) {
    match th
    case Starter(pc) => !pc.SDone?
    case Stopper(pc) => !pc.TDone?
    case Repairer(_, pc) => !pc.RSelect? && !pc.RDone?
    case Launcher(_, pc, _) => pc.LRecover?
  }

  predicate Enabled(s: Link, a: Action) {
    && !s.sh.crashed
    && (match a
        case CallStart => true
        case CallStop => true
        case Run(t) =>
          t < |s.threads| && Ready(s.threads[t]) && (WantsLock(s.threads[t]) ==> s.sh.holder.None?)
        case SeeQuit(t) =>
          && t < |s.threads|
          && s.threads[t].Repairer?
          && (s.threads[t].rpc.RSelect? || s.threads[t].rpc.RDelay?)
          && s.threads[t].quit.Some?
          && s.threads[t].quit.value in s.sh.closed
        case DaemonReturns(t, _) => t < |s.threads| && s.threads[t].Launcher? && s.threads[t].lpc.LDaemon?
        case DaemonPanics(t) => t < |s.threads| && s.threads[t].Launcher? && s.threads[t].lpc.LDaemon?
        case Receive(u, t) =>
          && u < |s.threads| && s.threads[u].Launcher? && s.threads[u].lpc.LSend?
          && t < |s.threads| && s.threads[t].Repairer? && s.threads[t].rpc.RSelect?)
  }

  function Spawned(o: Option<Thread>): seq<Thread> {
    if o.Some? then [o.value] else []
  }

  function Step(s: Link, a: Action): Link
    requires Enabled(s, a)
  {
    match a
    case CallStart => s.(threads := s.threads + [Starter(SCheck)])
    case CallStop => s.(threads := s.threads + [Stopper(TCheck)])
    case Run(t) =>
      var e := Execute(s.sh, t, s.threads[t]);
      Link(e.sh, s.threads[t := e.th] + Spawned(e.spawned))
    case SeeQuit(t) =>
      s.(threads := s.threads[t := Repairer(s.threads[t].quit, if s.threads[t].rpc.RSelect? then RDone else RSelect)])
    case DaemonReturns(t, report) => s.(threads := s.threads[t := BeginSend(s.threads[t], report)])
    case DaemonPanics(t) => s.(threads := s.threads[t := s.threads[t].(lpc := LRecover)])
    case Receive(u, t) =>
      Link(s.sh.(receives := s.sh.receives + 1, errors := s.sh.errors + if s.threads[u].lpc.report.Error? then 1 else 0),
           s.threads[u := s.threads[u].(lpc := LDone)]
           [t := Repairer(s.threads[t].quit, if s.threads[u].lpc.report.Nil? then RSelect else RDelay)])
  }

  /** The actions lead from s to s', each enabled when taken. */
  ghost predicate Runs(s: Link, acts: seq<Action>, s': Link)
    decreases |acts|
  {
    if acts == [] then s' == s
    else Enabled(s, acts[0]) && Runs(Step(s, acts[0]), acts[1..], s')
  }

  /** Some run of the protocol from a new link leads to s. */
  ghost predicate Reachable(s: Link) {
    exists acts :: Runs(INIT, acts, s)
  }
}
