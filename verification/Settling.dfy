/**
  The loop settles: once the cluster stops changing, every step of the controller brings it closer
  to quiescence and it can always take one, so it reaches the translation of the caches.
 */
module Settling {
  import opened Base
  import opened Cluster
  import opened Translation
  import opened Indexes
  import opened Router
  import Ownership
  import opened Reconcile
  import opened Convergence

  /** The controller's own steps. */
  predicate Internal(a: Action) {
    a.Deliver? || a.Take? || a.Work? || a.StopRuns?
  }

  function Stage(ph: Phase): nat {
    match ph
    case Idle => 0
    case Waiting(_) => 1
    case Applying(_) => 2
    case Translating(_, _, _) => 3
    case Listing(_, _, _) => 4
    case Took(_) => 5
  }

  /** Jobs to translate, or stops to wait for. */
  function Ahead(s: System): nat {
    if s.worker.Translating? then |s.worker.todo| else |s.router.stopping|
  }

  function RulesAhead(ph: Phase): int {
    if ph.Translating? && ph.todo != [] then |ph.todo[0].ing.rules| - ph.at.i else 0
  }

  function PathsAhead(ph: Phase): int {
    if ph.Translating? && ph.todo != [] && ph.at.i < |ph.todo[0].ing.rules|
    then PathCount(ph.todo[0].ing, ph.at.i) - ph.at.j else 0
  }

  function ReadsAhead(ph: Phase): nat {
    if ph.Translating? then (if ph.at.cert.None? then 1 else 0) + (if ph.at.port.None? then 1 else 0) else 0
  }

  /** Within one ingress each step moves to the next rule, to the next path, or reads one object. */
  lemma CursorAdvances(cfg: Config, c: Caches, ns: string, ing: Ingress, at: Cursor)
    requires at.i < |ing.rules|
    ensures var at' := CursorStep(cfg, c, ns, ing, at);
            || at'.i == at.i + 1
            || (at'.i == at.i && at'.j == at.j + 1 && at.j < PathCount(ing, at.i))
            || (at'.i == at.i && at'.j == at.j && at.cert.None? && at'.cert.Some? && at'.port == at.port)
            || (at'.i == at.i && at'.j == at.j && at'.cert == at.cert && at.port.None? && at'.port.Some?)
  {
  }

  /** s' is closer to quiescence than s. */
  ghost predicate Closer(s: System, s': System) {
    (|s.notices|, |s.queue|, Stage(s.worker), Ahead(s), RulesAhead(s.worker), PathsAhead(s.worker), ReadsAhead(s.worker)
     decreases to
     |s'.notices|, |s'.queue|, Stage(s'.worker), Ahead(s'), RulesAhead(s'.worker), PathsAhead(s'.worker), ReadsAhead(s'.worker))
  }

  lemma TranslatingIsCloser(cfg: Config, s: System)
    requires InPlace(s) && s.worker.Translating?
    ensures Closer(s, s.(worker := TranslatingStep(cfg, s.caches, s.worker)))
  {
    var todo, at := s.worker.todo, s.worker.at;
    if todo != [] && at.i < |todo[0].ing.rules| {
      CursorAdvances(cfg, s.caches, todo[0].name.namespace, todo[0].ing, at);
    }
  }

  lemma WorkIsCloser(cfg: Config, s: System, listed: seq<Name>)
    requires InPlace(s) && Enabled(cfg, s, Work(listed))
    ensures Closer(s, WorkStep(cfg, s, listed))
  {
    if s.worker.Translating? {
      TranslatingIsCloser(cfg, s);
    } else {
      assert Stage(WorkStep(cfg, s, listed).worker) < Stage(s.worker);
    }
  }

  lemma DeliverIsCloser(cfg: Config, s: System, n: nat)
    requires n < |s.notices|
    ensures Closer(s, DeliverStep(cfg, s, n))
  {
    assert |DeliverStep(cfg, s, n).notices| < |s.notices|;
  }

  lemma TakeIsCloser(s: System, k: Key)
    requires k in s.queue
    ensures Closer(s, s.(queue := s.queue - {k}, worker := Took(k)))
  {
    assert |s.queue - {k}| < |s.queue|;
  }

  lemma StopIsCloser(s: System, t: Tunnel)
    requires t in s.router.stopping && s.worker.Waiting?
    ensures Closer(s, s.(router := FinishStop(s.router, t)))
  {
    assert |s.router.stopping - {t}| < |s.router.stopping|;
  }

  /** The controller's own steps leave the caches alone, and keep links waited for. */
  lemma InternalKeeps(cfg: Config, s: System, a: Action)
    requires Enabled(cfg, s, a) && Internal(a)
    ensures var s' := Step(cfg, s, a); s'.caches == s.caches && s'.ever == s.ever && s'.left == s.left
    ensures InPlace(s) ==> InPlace(Step(cfg, s, a))
  {
    if a.Work? && s.worker.Applying? && s.worker.order.Install? && InPlace(s) {
      InstallStopsNothing(s.router, Entries(s.worker.order.routes, s.nextId));
    }
  }

  lemma {:induction false} InstallStopsNothing(s: Router.State, es: seq<Entry>)
    ensures UpdateAll(s, es).stopping == s.stopping
  {
    if es != [] {
      InstallStopsNothing(s, es[..|es| - 1]);
    }
  }

  /** Every step of the controller takes it closer to quiescence. */
  lemma StepsTowardsQuiet(cfg: Config, s: System, a: Action)
    requires InPlace(s) && Enabled(cfg, s, a) && Internal(a)
    ensures Closer(s, Step(cfg, s, a))
  {
    match a
    case Deliver(n) => DeliverIsCloser(cfg, s, n);
    case Take(k) => TakeIsCloser(s, k);
    case Work(listed) => WorkIsCloser(cfg, s, listed);
    case StopRuns(t) => StopIsCloser(s, t);
  }

  lemma SetToSeq<T>(xs: set<T>) returns (q: seq<T>)
    ensures forall x :: x in q <==> x in xs
  {
    if xs == {} {
      q := [];
    } else {
      var x :| x in xs;
      q := SetToSeq(xs - {x});
      q := q + [x];
    }
  }

  /** The index has an answer for every object. */
  lemma IndexAnswers(cfg: Config, c: Caches, k: Key) returns (listed: seq<Name>)
    ensures IsListing(cfg, c, k, listed)
  {
    var names := set x | x in c && Managed(cfg, c, x.name) && Indexed(cfg, x.name.namespace, IngressAt(c, x.name).value, k) :: x.name;
    listed := SetToSeq(names);
    forall n ensures n in listed <==> Managed(cfg, c, n) && Indexed(cfg, n.namespace, IngressAt(c, n).value, k) {
      if Managed(cfg, c, n) && Indexed(cfg, n.namespace, IngressAt(c, n).value, k) {
        assert Key(IngressKind, n) in c && Key(IngressKind, n).name == n;
      }
    }
  }

  /** Short of quiescence the controller can always take a step. */
  lemma CanStep(cfg: Config, s: System) returns (a: Action)
    requires !Quiescent(s)
    ensures Internal(a) && Enabled(cfg, s, a)
  {
    if s.notices != [] {
      a := Deliver(0);
    } else if s.worker.Idle? {
      var k :| k in s.queue;
      a := Take(k);
    } else if s.worker.Listing? {
      var listed := IndexAnswers(cfg, s.caches, Key(s.worker.kind, s.worker.name));
      a := Work(listed);
    } else if s.worker.Waiting? && s.router.stopping != {} {
      var t :| t in s.router.stopping;
      a := StopRuns(t);
    } else {
      a := Work([]);
    }
  }

  lemma Settles(cfg: Config, s: System) returns (acts: seq<Action>, s': System)
    requires InPlace(s)
    ensures Runs(cfg, s, acts, s') && (forall a <- acts :: Internal(a))
    ensures Quiescent(s') && s'.caches == s.caches && s'.ever == s.ever && s'.left == s.left
    decreases |s.notices|, |s.queue|, Stage(s.worker), Ahead(s), RulesAhead(s.worker), PathsAhead(s.worker), ReadsAhead(s.worker)
  {
    if Quiescent(s) {
      acts, s' := [], s;
    } else {
      var a := CanStep(cfg, s);
      StepsTowardsQuiet(cfg, s, a);
      InternalKeeps(cfg, s, a);
      var rest;
      rest, s' := Settles(cfg, Step(cfg, s, a));
      acts := [a] + rest;
      assert acts[1..] == rest;
    }
  }

  /**
    From every state that a run can reach the controller, left alone, comes to a quiescent state in
    which the router holds the translation of the caches as they are now, but for names that an
    ingress left the class under.
   */
  lemma SettlesOnTheTranslation(cfg: Config, before: seq<Action>, s: System) returns (acts: seq<Action>, s': System)
    requires Runs(cfg, INIT, before, s)
    ensures Runs(cfg, s, acts, s') && (forall a <- acts :: Internal(a)) && Quiescent(s') && s'.caches == s.caches
    ensures Ownership.Specs(s'.router) - s.left == FromScratch(cfg, s.caches)
  {
    InitInv(cfg);
    InvAlways(cfg, INIT, before, s);
    acts, s' := Settles(cfg, s);
    InvAlways(cfg, s, acts, s');
    QuietIsTranslation(cfg, s');
  }
}
