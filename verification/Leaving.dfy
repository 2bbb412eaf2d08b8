/**
  What becomes of an ingress that leaves the controller's class.  The filter in front of the queue
  turns its update into a delete, but the worker finds it in the cache and translates it again, since
  handling does not look at the class.  So it keeps its tunnels, for good.  Whether that can happen is
  decided by the writes alone: it can exactly if an ingress of another class has been stored under the
  name since the last one of the controller's class.
 */
module Leaving {
  import opened Base
  import opened Cluster
  import opened Translation
  import opened Indexes
  import opened Router
  import Ownership
  import opened Reconcile
  import opened Convergence
  import opened Settling

  lemma {:induction false} RunsThen(cfg: Config, s: System, acts: seq<Action>, m: System, more: seq<Action>, s': System)
    requires Runs(cfg, s, acts, m) && Runs(cfg, m, more, s')
    ensures Runs(cfg, s, acts + more, s')
    decreases |acts|
  {
    if acts == [] {
      assert acts + more == more;
    } else {
      RunsThen(cfg, Step(cfg, s, acts[0]), acts[1..], m, more, s');
      assert (acts + more)[1..] == acts[1..] + more;
    }
  }

  lemma OneStep(cfg: Config, s: System, a: Action)
    requires Enabled(cfg, s, a)
    ensures Runs(cfg, s, [a], Step(cfg, s, a))
  {
    assert Runs(cfg, Step(cfg, s, a), [a][1..], Step(cfg, s, a));
  }

  // ---------------------------------------------------------------- a worker left alone

  /** The world in which no key is waiting. */
  ghost function Clean(cfg: Config, c: Caches): World {
    World(cfg, c, iset{}, {}, {})
  }

  /** A translation over caches that stay as they are ends with `Translate`. */
  lemma TranslateAlone(cfg: Config, s: System, n: Name, ing: Ingress, at: Cursor) returns (acts: seq<Action>, s': System)
    requires WellFormed(s.caches) && s.worker == Translating([Job(n, ing)], [], at)
    requires CursorOk(Clean(cfg, s.caches), n.namespace, ing, at)
    ensures Runs(cfg, s, acts, s') && (forall a <- acts :: a == Work([]))
    ensures s' == s.(worker := Applying(Install([Built(n, Translate(cfg, s.caches, n.namespace, ing))])))
    decreases RulesAhead(s.worker), PathsAhead(s.worker), ReadsAhead(s.worker)
  {
    var m := WorkStep(cfg, s, []);
    if at.i < |ing.rules| {
      StepKeepsCursor(Clean(cfg, s.caches), n.namespace, ing, at);
      CursorAdvances(cfg, s.caches, n.namespace, ing, at);
      var rest;
      rest, s' := TranslateAlone(cfg, m, n, ing, m.worker.at);
      acts := [Work([])] + rest;
      assert acts[1..] == rest;
    } else {
      FinishedLinks(cfg, s.caches, n.namespace, ing, at);
      s' := WorkStep(cfg, m, []);
      assert s.worker.todo[1..] == [] && [] + [Built(n, at.links)] == [Built(n, at.links)];
      OneStep(cfg, s, Work([]));
      OneStep(cfg, m, Work([]));
      RunsThen(cfg, s, [Work([])], m, [Work([])], s');
      acts := [Work([])] + [Work([])];
    }
  }

  lemma FinishedLinks(cfg: Config, c: Caches, ns: string, ing: Ingress, at: Cursor)
    requires CursorOk(Clean(cfg, c), ns, ing, at) && at.i == |ing.rules|
    ensures at.links == Translate(cfg, c, ns, ing)
  {
    forall r ensures Get(at.links, r) == Get(Translate(cfg, c, ns, ing), r) {
      assert AttachedOk(Clean(cfg, c), ns, ing, at, r);
    }
    SameMap(at.links, Translate(cfg, c, ns, ing));
  }

  /** The worker handles the key of a cached ingress, the only one there is: the class does not matter. */
  lemma HandleIngress(cfg: Config, s: System, n: Name, ing: Ingress) returns (acts: seq<Action>, s': System)
    requires WellFormed(s.caches) && s.notices == [] && s.queue == {Key(IngressKind, n)} && s.worker.Idle?
    requires IngressAt(s.caches, n) == Some(ing)
    ensures Runs(cfg, s, acts, s') && (forall a <- acts :: Internal(a))
    ensures s' == s.(queue := {}, router := Update(s.router, n, Ownership.Mint(Translate(cfg, s.caches, n.namespace, ing), s.nextId)),
                     nextId := s.nextId + 1)
  {
    var k := Key(IngressKind, n);
    var s1 := s.(queue := {}, worker := Took(k));
    var s2 := s1.(worker := Translating([Job(n, ing)], [], TOP));
    CursorStarts(Clean(cfg, s.caches), n.namespace, ing);
    var more, s3 := TranslateAlone(cfg, s2, n, ing, TOP);
    s' := WorkStep(cfg, s3, []);
    InstallOne(s.router, Built(n, Translate(cfg, s.caches, n.namespace, ing)), s.nextId);
    OneStep(cfg, s3, Work([]));
    RunsThen(cfg, s2, more, s3, [Work([])], s');
    OneStep(cfg, s1, Work([]));
    RunsThen(cfg, s1, [Work([])], s2, more + [Work([])], s');
    OneStep(cfg, s, Take(k));
    acts := [Take(k)] + ([Work([])] + (more + [Work([])]));
    RunsThen(cfg, s, [Take(k)], s1, [Work([])] + (more + [Work([])]), s');
  }

  lemma InstallOne(s: Router.State, b: Built, id: nat)
    ensures UpdateAll(s, Entries([b], id)) == Update(s, b.name, Ownership.Mint(b.links, id))
  {
    InstallLast(s, [b], id);
    assert Entries([b][..0], id) == [];
  }

  // ---------------------------------------------------------------- leaving keeps the tunnels

  predicate Foreign(cfg: Config, o: Object) {
    o.body.IngressBody? && !Matches(cfg, o.body.ingress)
  }

  /** Neither the class of an ingress nor its own cache entry decides about its translation. */
  lemma ClassDoesNotMatter(cfg: Config, c: Caches, n: Name, ing: Ingress, o: Object)
    requires WellFormed(c) && IngressAt(c, n) == Some(ing)
    requires o.body.IngressBody? && o.body.ingress == ing.(ingressClass := o.body.ingress.ingressClass)
    ensures Translate(cfg, c[Key(IngressKind, n) := o], n.namespace, o.body.ingress) == Translate(cfg, c, n.namespace, ing)
  {
    var c', ing' := c[Key(IngressKind, n) := o], o.body.ingress;
    assert SamePaths(ing, ing') by {
      PermutedPaths(ing, ing');
    }
    OrderDoesNotMatter(cfg, c', n.namespace, ing, ing');
    forall r ensures Get(Translate(cfg, c', n.namespace, ing), r) == Get(Translate(cfg, c, n.namespace, ing), r) {
      assert Agree(c, c', r);
      Locality(cfg, c, c', n.namespace, ing, |ing.rules|, 0, r);
    }
    SameMap(Translate(cfg, c', n.namespace, ing), Translate(cfg, c, n.namespace, ing));
  }

  /**
    In every quiescent state, changing nothing but the class of a managed ingress ends, when the
    controller has handled the change, with the same routes and the same tunnels running.
   */
  lemma LeavingTheClassKeepsTheTunnels(cfg: Config, before: seq<Action>, s: System, n: Name, o: Object)
    returns (acts: seq<Action>, s': System)
    requires Runs(cfg, INIT, before, s) && Quiescent(s) && Managed(cfg, s.caches, n) && Foreign(cfg, o)
    requires o.body.ingress == IngressAt(s.caches, n).value.(ingressClass := o.body.ingress.ingressClass)
    ensures Runs(cfg, s, [Change(Key(IngressKind, n), Some(o))] + acts, s') && (forall a <- acts :: Internal(a))
    ensures Quiescent(s') && !Managed(cfg, s'.caches, n)
    ensures s'.router.items == s.router.items && s'.router.running == s.router.running
  {
    var k, ing := Key(IngressKind, n), IngressAt(s.caches, n).value;
    InitInv(cfg);
    InvAlways(cfg, INIT, before, s);
    ManagedIsNotLeft(cfg, s, n);
    QuietIsRight(cfg, s, n);
    ClassDoesNotMatter(cfg, s.caches, n, ing, o);
    var s1 := ChangeStep(cfg, s, k, Some(o));
    assert k in s.caches && k.name.name != "";
    OneStep(cfg, s, Change(k, Some(o)));
    var s2 := DeliverStep(cfg, s1, 0);
    OneStep(cfg, s1, Deliver(0));
    assert s2 == s.(caches := s1.caches, queue := {k}, left := s1.left);
    var more;
    more, s' := HandleIngress(cfg, s2, n, o.body.ingress);
    acts := [Deliver(0)] + more;
    RunsThen(cfg, s1, [Deliver(0)], s2, more, s');
    RunsThen(cfg, s, [Change(k, Some(o))], s1, acts, s');
    KeepsItsTunnels(s.router, n, Translate(cfg, s.caches, n.namespace, ing), s.nextId);
  }

  lemma KeepsItsTunnels(s: Router.State, n: Name, links: Links, id: nat)
    requires Ownership.Owned(s) && (forall t <- s.seen :: t.id < id) && n in s.items && Ownership.SpecsOf(s.items[n]) == links
    ensures var s' := Update(s, n, Ownership.Mint(links, id)); s'.items == s.items && s'.running == s.running
  {
    MintIsNew(s, links, id);
    assert Ownership.SpecsOf(Ownership.Mint(links, id)) == links;
    Ownership.EqualRouteIsFree(s, n, Ownership.Mint(links, id));
  }

  // ---------------------------------------------------------------- the leak is permanent

  ghost predicate Builds(routes: seq<Built>, n: Name) {
    exists i :: 0 <= i < |routes| && routes[i].name == n
  }

  /** The worker is about to change the route of n. */
  ghost predicate Touches(ph: Phase, n: Name) {
    match ph
    case Translating(todo, done, _) => n in NamesOf(todo) || Builds(done, n)
    case Applying(Install(routes)) => Builds(routes, n)
    case Applying(Remove(m)) => m == n
    case Applying(Filter(_, _, keys)) => n in keys
    case _ => false
  }

  /** Nothing that is queued, undelivered or in process will ever change the route of n. */
  ghost predicate Frozen(cfg: Config, s: System, n: Name) {
    Key(IngressKind, n) !in Dirty(cfg, s) && !Managed(cfg, s.caches, n) && !Touches(s.worker, n)
  }

  /** The write stores an ingress of the controller's class under n. */
  predicate TakesBack(cfg: Config, a: Action, n: Name) {
    a.Change? && a.key == Key(IngressKind, n) && a.obj.Some? && a.obj.value.body.IngressBody? && Matches(cfg, a.obj.value.body.ingress)
  }

  /** Only a change makes a key dirty. */
  lemma DirtyShrinks(cfg: Config, s: System, a: Action)
    requires Enabled(cfg, s, a) && !a.Change?
    ensures Dirty(cfg, Step(cfg, s, a)) <= Dirty(cfg, s)
  {
    if a.Deliver? {
      DeliverBacklog(cfg, s, a.n);
    } else if a.Resync? {
      ResyncBacklog(cfg, s, a.key);
    } else {
      assert forall k :: k in Backlog(cfg, Step(cfg, s, a)) ==> k in Backlog(cfg, s);
    }
  }

  lemma {:induction false} UntouchedRoute(s: Router.State, es: seq<Entry>, n: Name)
    requires forall i :: 0 <= i < |es| ==> es[i].key != n
    ensures Get(UpdateAll(s, es).items, n) == Get(s.items, n)
  {
    if es != [] {
      UntouchedRoute(s, es[..|es| - 1], n);
    }
  }

  lemma FrozenChange(cfg: Config, s: System, k: Key, o: Option<Object>, n: Name)
    requires WellFormed(s.caches) && Enabled(cfg, s, Change(k, o)) && Frozen(cfg, s, n) && !TakesBack(cfg, Change(k, o), n)
    ensures Frozen(cfg, ChangeStep(cfg, s, k, o), n)
  {
    ChangesWorld(cfg, s, k, o);
    if k == Key(IngressKind, n) {
      assert !Enqueues(cfg, Get(s.caches, k), o);
    }
    ChangeIngress(cfg, s.caches, k, o, n);
  }

  lemma FrozenWork(cfg: Config, s: System, listed: seq<Name>, n: Name)
    requires Enabled(cfg, s, Work(listed)) && Frozen(cfg, s, n)
    ensures !Touches(WorkStep(cfg, s, listed).worker, n)
    ensures Get(WorkStep(cfg, s, listed).router.items, n) == Get(s.router.items, n)
  {
    if s.worker.Applying? && s.worker.order.Install? {
      UntouchedRoute(s.router, Entries(s.worker.order.routes, s.nextId), n);
    } else if s.worker.Translating? && s.worker.todo != [] {
      assert s.worker.todo[0].name in NamesOf(s.worker.todo);
      assert forall i :: 0 <= i < |s.worker.todo[1..]| ==> s.worker.todo[1..][i] == s.worker.todo[i + 1];
    }
  }

  lemma FrozenKept(cfg: Config, s: System, a: Action, n: Name)
    requires WellFormed(s.caches) && Enabled(cfg, s, a) && Frozen(cfg, s, n) && !TakesBack(cfg, a, n)
    ensures Frozen(cfg, Step(cfg, s, a), n) && Get(Step(cfg, s, a).router.items, n) == Get(s.router.items, n)
  {
    if a.Change? {
      FrozenChange(cfg, s, a.key, a.obj, n);
    } else {
      DirtyShrinks(cfg, s, a);
      if a.Work? {
        FrozenWork(cfg, s, a.listed, n);
      }
    }
  }

  lemma {:induction false} FrozenRuns(cfg: Config, s: System, acts: seq<Action>, s': System, n: Name)
    requires Inv(cfg, s) && Runs(cfg, s, acts, s') && Frozen(cfg, s, n) && forall a <- acts :: !TakesBack(cfg, a, n)
    ensures Frozen(cfg, s', n) && Get(s'.router.items, n) == Get(s.router.items, n)
    decreases |acts|
  {
    if acts != [] {
      StepKept(cfg, s, acts[0]);
      FrozenKept(cfg, s, acts[0], n);
      FrozenRuns(cfg, Step(cfg, s, acts[0]), acts[1..], s', n);
    }
  }

  lemma QuietIsFrozen(cfg: Config, s: System, n: Name)
    requires Quiescent(s) && !Managed(cfg, s.caches, n)
    ensures Frozen(cfg, s, n)
  {
    NothingIsDirty(cfg, s);
  }

  /**
    The leak is permanent: a route left behind in a quiescent state, and every tunnel of it, stays as
    it is in every later run, whatever is written or deleted, until an ingress of the controller's
    class is stored under its name again.
   */
  lemma TheLeakIsPermanent(cfg: Config, before: seq<Action>, s: System, acts: seq<Action>, s': System, n: Name)
    requires Runs(cfg, INIT, before, s) && Quiescent(s) && !Managed(cfg, s.caches, n) && n in s.router.items
    requires Runs(cfg, s, acts, s') && forall a <- acts :: !TakesBack(cfg, a, n)
    ensures n in s'.router.items && s'.router.items[n] == s.router.items[n]
    ensures s.router.items[n].Values <= s'.router.running
  {
    InitInv(cfg);
    InvAlways(cfg, INIT, before, s);
    InvAlways(cfg, s, acts, s');
    QuietIsFrozen(cfg, s, n);
    FrozenRuns(cfg, s, acts, s', n);
    forall r | r in s.router.items[n] ensures s.router.items[n][r] in s'.router.running {
      assert Ownership.HeldAt(s'.router, n, s'.router.items[n][r]);
      assert Ownership.Held(s'.router, s'.router.items[n][r]);
    }
  }

  // ---------------------------------------------------------------- exactly when a route can stay

  /** The writes and deletes of a run. */
  function ChangesOf(acts: seq<Action>): seq<Action> {
    if acts == [] then [] else (if acts[0].Change? then [acts[0]] else []) + ChangesOf(acts[1..])
  }

  lemma {:induction false} ChangesOfBoth(acts: seq<Action>, more: seq<Action>)
    ensures ChangesOf(acts + more) == ChangesOf(acts) + ChangesOf(more)
    decreases |acts|
  {
    if acts == [] {
      assert acts + more == more;
    } else {
      assert (acts + more)[1..] == acts[1..] + more;
      ChangesOfBoth(acts[1..], more);
    }
  }

  lemma {:induction false} OnlyChanges(acts: seq<Action>)
    ensures (forall a <- acts :: a.Change?) ==> ChangesOf(acts) == acts
    ensures (forall a <- acts :: Internal(a)) ==> ChangesOf(acts) == []
    decreases |acts|
  {
    if acts != [] {
      OnlyChanges(acts[1..]);
      assert acts[0] in acts && acts == [acts[0]] + acts[1..];
    }
  }

  predicate SameHistory(s: System, m: System) {
    s.caches == m.caches && s.ever == m.ever && s.left == m.left
  }

  /** The caches, and which names left the class, depend on the writes alone. */
  lemma {:induction false} HistoryIsOfChanges(cfg: Config, s: System, acts: seq<Action>, s': System, m: System, m': System)
    requires Runs(cfg, s, acts, s') && Runs(cfg, m, ChangesOf(acts), m') && SameHistory(s, m)
    ensures SameHistory(s', m')
    decreases |acts|
  {
    if acts != [] {
      var s1 := Step(cfg, s, acts[0]);
      if acts[0].Change? {
        assert ChangesOf(acts)[1..] == ChangesOf(acts[1..]);
        HistoryIsOfChanges(cfg, s1, acts[1..], s', Step(cfg, m, acts[0]), m');
      } else {
        assert ChangesOf(acts) == ChangesOf(acts[1..]);
        HistoryIsOfChanges(cfg, s1, acts[1..], s', m, m');
      }
    }
  }

  lemma {:induction false} RunsButLast(cfg: Config, s: System, acts: seq<Action>, s': System) returns (m: System)
    requires acts != [] && Runs(cfg, s, acts, s')
    ensures var n := |acts| - 1; Runs(cfg, s, acts[..n], m) && Enabled(cfg, m, acts[n]) && s' == Step(cfg, m, acts[n])
    decreases |acts|
  {
    var n := |acts| - 1;
    if n == 0 {
      m := s;
      assert acts[1..] == [];
    } else {
      m := RunsButLast(cfg, Step(cfg, s, acts[0]), acts[1..], s');
      assert acts[..n][1..] == acts[1..][..n - 1];
    }
  }

  /** The route of n is there, or will be when the worker is done with what it has. */
  ghost predicate Coming(cfg: Config, s: System, n: Name) {
    if Key(IngressKind, n) in Dirty(cfg, s) then IngressAt(s.caches, n).Some?
    else n in ViewOf(s) || n in Busy(s)
  }

  lemma ComingWork(cfg: Config, s: System, listed: seq<Name>, n: Name)
    requires RouterInv(s) && Enabled(cfg, s, Work(listed)) && Coming(cfg, s, n)
    ensures Coming(cfg, WorkStep(cfg, s, listed), n)
  {
    assert Backlog(cfg, WorkStep(cfg, s, listed)) == Backlog(cfg, s);
    match s.worker
    case Took(k) =>
      if k == Key(IngressKind, n) && IngressAt(s.caches, n).Some? {
        ComingTook(s, WorkStep(cfg, s, listed), n);
      }
    case Translating(_, _, _) =>
      if n in ViewOf(s) || n in Busy(s) {
        ComingTranslating(cfg, s, n);
      }
    case Applying(_) => ApplyView(s);
    case _ =>
  }

  lemma ComingTook(s: System, s': System, n: Name)
    requires IngressAt(s.caches, n).Some? && s'.worker == Translating([Job(n, IngressAt(s.caches, n).value)], [], TOP)
    ensures n in Busy(s')
  {
    assert s'.worker.todo[0].name in NamesOf(s'.worker.todo);
  }

  lemma ComingTranslating(cfg: Config, s: System, n: Name)
    requires s.worker.Translating? && (n in ViewOf(s) || n in Busy(s))
    ensures var s' := WorkStep(cfg, s, []); n in ViewOf(s') || n in Busy(s')
  {
    var todo, done, at := s.worker.todo, s.worker.done, s.worker.at;
    if todo != [] && at.i >= |todo[0].ing.rules| {
      InstallOneMore(Ownership.Specs(s.router), done, Built(todo[0].name, at.links));
      assert forall i :: 0 < i < |todo| ==> todo[1..][i - 1] == todo[i];
    }
  }

  lemma ComingKept(cfg: Config, s: System, a: Action, n: Name)
    requires RouterInv(s) && Enabled(cfg, s, a) && Internal(a) && Coming(cfg, s, n)
    ensures Coming(cfg, Step(cfg, s, a), n)
  {
    match a
    case Deliver(i) =>
      DeliverBacklog(cfg, s, i);
      assert Dirty(cfg, Step(cfg, s, a)) == Dirty(cfg, s);
    case Take(k) =>
      assert Dirty(cfg, Step(cfg, s, a)) == Dirty(cfg, s);
    case Work(listed) => ComingWork(cfg, s, listed, n);
    case StopRuns(t) =>
      assert Backlog(cfg, Step(cfg, s, a)) == Backlog(cfg, s);
      assert Dirty(cfg, Step(cfg, s, a)) == Dirty(cfg, s);
  }

  lemma {:induction false} ComingRuns(cfg: Config, s: System, acts: seq<Action>, s': System, n: Name)
    requires Inv(cfg, s) && Runs(cfg, s, acts, s') && (forall a <- acts :: Internal(a)) && Coming(cfg, s, n)
    ensures Coming(cfg, s', n)
    decreases |acts|
  {
    if acts != [] {
      StepKept(cfg, s, acts[0]);
      ComingKept(cfg, s, acts[0], n);
      ComingRuns(cfg, Step(cfg, s, acts[0]), acts[1..], s', n);
    }
  }

  /** As long as no notice is delivered, a name that an ingress of the class was stored under is pending. */
  lemma {:induction false} PendingSinceStored(cfg: Config, cs: seq<Action>, m: System, n: Name)
    requires Runs(cfg, INIT, cs, m) && (forall a <- cs :: a.Change?) && n in m.ever
    ensures Key(IngressKind, n) in Dirty(cfg, m)
    decreases |cs|
  {
    if cs != [] {
      var last := |cs| - 1;
      var before := RunsButLast(cfg, INIT, cs, m);
      ChangesWorld(cfg, before, cs[last].key, cs[last].obj);
      InitInv(cfg);
      InvAlways(cfg, INIT, cs[..last], before);
      if n in before.ever {
        PendingSinceStored(cfg, cs[..last], before, n);
      } else {
        assert HistoryOk(WorldOf(cfg, before), ViewOf(before), Busy(before), n);
      }
    }
  }

  /**
    If an ingress of another class was stored under n after the last one of the controller's class,
    the same writes can end with a route for n that no cached ingress of the class asks for: the
    notices are withheld until that ingress is in the cache.
   */
  lemma {:induction false} RouteCanStay(cfg: Config, cs: seq<Action>, m: System, n: Name) returns (acts: seq<Action>, s: System)
    requires Runs(cfg, INIT, cs, m) && (forall a <- cs :: a.Change?) && n in m.left
    ensures Runs(cfg, INIT, acts, s) && ChangesOf(acts) == cs && Quiescent(s) && n in s.router.items
    decreases |cs|
  {
    var last := |cs| - 1;
    var before := RunsButLast(cfg, INIT, cs, m);
    if n in before.left {
      var acts0, s0 := RouteCanStay(cfg, cs[..last], before, n);
      acts, s := OneMoreChange(cfg, acts0, s0, before, cs[last], n);
      assert cs == cs[..last] + [cs[last]];
    } else {
      JustLeft(cfg, before, cs[last], n);
      acts, s := WithholdNotices(cfg, cs, m, n);
    }
  }

  lemma JustLeft(cfg: Config, s: System, a: Action, n: Name)
    requires a.Change? && Enabled(cfg, s, a) && n !in s.left && n in Step(cfg, s, a).left
    ensures n in Step(cfg, s, a).ever && IngressAt(Step(cfg, s, a).caches, n).Some?
  {
  }

  lemma WithholdNotices(cfg: Config, cs: seq<Action>, m: System, n: Name) returns (acts: seq<Action>, s: System)
    requires Runs(cfg, INIT, cs, m) && (forall a <- cs :: a.Change?) && n in m.ever && IngressAt(m.caches, n).Some?
    ensures Runs(cfg, INIT, acts, s) && ChangesOf(acts) == cs && Quiescent(s) && n in s.router.items
  {
    InitInv(cfg);
    InvAlways(cfg, INIT, cs, m);
    PendingSinceStored(cfg, cs, m, n);
    var more;
    more, s := Settles(cfg, m);
    ComingRuns(cfg, m, more, s, n);
    NothingIsDirty(cfg, s);
    acts := cs + more;
    RunsThen(cfg, INIT, cs, m, more, s);
    ChangesOfBoth(cs, more);
    OnlyChanges(cs);
    OnlyChanges(more);
  }

  /** One more write that does not take n back leaves the route where it is. */
  lemma OneMoreChange(cfg: Config, acts0: seq<Action>, s0: System, m: System, a: Action, n: Name)
    returns (acts: seq<Action>, s: System)
    requires Runs(cfg, INIT, acts0, s0) && Runs(cfg, INIT, ChangesOf(acts0), m) && Quiescent(s0)
    requires a.Change? && Enabled(cfg, m, a) && n in m.left && n in Step(cfg, m, a).left && n in s0.router.items
    ensures Runs(cfg, INIT, acts, s) && ChangesOf(acts) == ChangesOf(acts0) + [a] && Quiescent(s) && n in s.router.items
  {
    HistoryIsOfChanges(cfg, INIT, acts0, s0, INIT, m);
    InitInv(cfg);
    InvAlways(cfg, INIT, acts0, s0);
    var more;
    more, s := SettleAfter(cfg, s0, a, n);
    acts := acts0 + ([a] + more);
    RunsThen(cfg, INIT, acts0, s0, [a] + more, s);
    ChangesOfBoth(acts0, [a] + more);
    OneChange(a, more);
  }

  lemma OneChange(a: Action, more: seq<Action>)
    requires a.Change? && forall b <- more :: Internal(b)
    ensures ChangesOf([a] + more) == [a]
  {
    ChangesOfBoth([a], more);
    OnlyChanges([a]);
    OnlyChanges(more);
  }

  lemma SettleAfter(cfg: Config, s0: System, a: Action, n: Name) returns (more: seq<Action>, s: System)
    requires Inv(cfg, s0) && Quiescent(s0) && a.Change? && Enabled(cfg, s0, a)
    requires n in s0.left && n in Step(cfg, s0, a).left && n in s0.router.items
    ensures Runs(cfg, s0, [a] + more, s) && (forall b <- more :: Internal(b)) && Quiescent(s) && n in s.router.items
  {
    ManagedIsNotLeft(cfg, s0, n);
    QuietIsFrozen(cfg, s0, n);
    var s1 := Step(cfg, s0, a);
    StepKept(cfg, s0, a);
    more, s := Settles(cfg, s1);
    OneStep(cfg, s0, a);
    RunsThen(cfg, s0, [a], s1, more, s);
    FrozenRuns(cfg, s0, [a] + more, s, n);
  }

  /**
    Exactly when a route can stay behind: for every sequence of writes, with no ingress of the class
    under n in the end, some order of handling them ends quiescent with a route for n if and only if
    an ingress of another class has been stored under n since the last one of the class.
   */
  lemma RouteCanStayIff(cfg: Config, cs: seq<Action>, m: System, n: Name)
    requires Runs(cfg, INIT, cs, m) && (forall a <- cs :: a.Change?) && !Managed(cfg, m.caches, n)
    ensures n in m.left <==>
            exists acts, s :: Runs(cfg, INIT, acts, s) && ChangesOf(acts) == cs && Quiescent(s) && n in s.router.items
  {
    if n in m.left {
      var acts, s := RouteCanStay(cfg, cs, m, n);
    }
    forall acts, s | Runs(cfg, INIT, acts, s) && ChangesOf(acts) == cs && Quiescent(s) && n in s.router.items
      ensures n in m.left
    {
      HistoryIsOfChanges(cfg, INIT, acts, s, INIT, m);
      ConvergesFor(cfg, acts, s, n);
    }
  }

  // ---------------------------------------------------------------- an ingress that is served

  /** An ingress with one path, its secret and its service. */
  function Serving(ingressClass: Option<string>, host: string, options: TunnelOptions): Ingress {
    Ingress(ingressClass, [Tls([host], "secret")], [HostRule(host, Some([Path("/", "service", PortNumber(80))]))], options)
  }

  const PORTS := [ServicePort("http", 80, TCP)]

  /** All that the ingress needs, and the ingress. */
  function ServedCaches(n: Name, ing: Ingress, cert: Bytes): Caches {
    var service := Name(n.namespace, "service");
    map[Key(SecretKind, Name(n.namespace, "secret")) := Object(0, SecretBody(map[CERT_PEM := cert])),
        Key(EndpointKind, service) := Object(0, EndpointsBody([Subset(["10.0.0.1"])])),
        Key(ServiceKind, service) := Object(0, ServiceBody(PORTS)),
        Key(IngressKind, n) := Object(0, IngressBody(ing))]
  }

  lemma Store4(cfg: Config, n: Name, ing: Ingress, cert: Bytes) returns (acts: seq<Action>, s: System)
    requires n.name != "" && Matches(cfg, ing)
    ensures Runs(cfg, INIT, acts, s) && s.caches == ServedCaches(n, ing, cert) && s.left == {}
  {
    var secret, service := Name(n.namespace, "secret"), Name(n.namespace, "service");
    var a := [Change(Key(SecretKind, secret), Some(Object(0, SecretBody(map[CERT_PEM := cert])))),
              Change(Key(EndpointKind, service), Some(Object(0, EndpointsBody([Subset(["10.0.0.1"])])))),
              Change(Key(ServiceKind, service), Some(Object(0, ServiceBody(PORTS)))),
              Change(Key(IngressKind, n), Some(Object(0, IngressBody(ing))))];
    var s1 := Step(cfg, INIT, a[0]);
    var s2 := Step(cfg, s1, a[1]);
    var s3 := Step(cfg, s2, a[2]);
    s := Step(cfg, s3, a[3]);
    OneStep(cfg, INIT, a[0]);
    OneStep(cfg, s1, a[1]);
    OneStep(cfg, s2, a[2]);
    OneStep(cfg, s3, a[3]);
    RunsThen(cfg, INIT, [a[0]], s1, [a[1]], s2);
    RunsThen(cfg, INIT, [a[0]] + [a[1]], s2, [a[2]], s3);
    RunsThen(cfg, INIT, [a[0]] + [a[1]] + [a[2]], s3, [a[3]], s);
    acts := [a[0]] + [a[1]] + [a[2]] + [a[3]];
  }

  /** The controller comes to serve the ingress. */
  lemma Served(cfg: Config, n: Name, ing: Ingress, cert: Bytes) returns (acts: seq<Action>, s: System)
    requires n.name != "" && Matches(cfg, ing)
    ensures Runs(cfg, INIT, acts, s) && Quiescent(s) && s.caches == ServedCaches(n, ing, cert) && s.left == {}
    ensures Managed(cfg, s.caches, n) && n in s.router.items
    ensures Ownership.SpecsOf(s.router.items[n]) == Translate(cfg, s.caches, n.namespace, ing)
  {
    var before, m := Store4(cfg, n, ing, cert);
    var more;
    more, s := SettlesOnTheTranslation(cfg, before, m);
    acts := before + more;
    RunsThen(cfg, INIT, before, m, more, s);
    ConvergesFor(cfg, acts, s, n);
    HistoryIsOfInternal(cfg, m, more, s);
  }

  lemma {:induction false} HistoryIsOfInternal(cfg: Config, s: System, acts: seq<Action>, s': System)
    requires Runs(cfg, s, acts, s') && forall a <- acts :: Internal(a)
    ensures SameHistory(s, s')
    decreases |acts|
  {
    if acts != [] {
      InternalKeeps(cfg, s, acts[0]);
      HistoryIsOfInternal(cfg, Step(cfg, s, acts[0]), acts[1..], s');
    }
  }

  /** With a certificate for the host, the translation has a link. */
  lemma ServedHasLink(cfg: Config, c: Caches, n: Name, ingressClass: Option<string>, host: string, options: TunnelOptions, cert: Bytes) returns (r: Rule)
    requires cfg.certifies(cert, host) && host != "" && c == ServedCaches(n, Serving(ingressClass, host, options), cert)
    ensures r in Translate(cfg, c, n.namespace, Serving(ingressClass, host, options)) && r.host == host
  {
    var ing, service, secret := Serving(ingressClass, host, options), Name(n.namespace, "service"), Name(n.namespace, "secret");
    r := Rule(service, secret, host, 80);
    assert host in ing.tls[0].hosts;
    assert AddressAt(c, service) by {
      assert c[Key(EndpointKind, service)].body.subsets[0].addresses != [];
    }
    LinkAtExact(cfg, c, n.namespace, ing, 0, 0, r);
    assert Witness(cfg, c, n.namespace, ing, 0, 0, r);
    TranslateExact(cfg, c, n.namespace, ing, r);
  }

  /**
    A tunnel that runs for an ingress outside the class: for every name, host, certificate valid for
    it and options, a run ends quiescent with the ingress cached under another class, and its tunnel
    running.
   */
  lemma LeavingTheClassKeepsTheRoute(cfg: Config, n: Name, host: string, cert: Bytes, options: TunnelOptions)
    returns (acts: seq<Action>, s: System, t: Tunnel)
    requires n.name != "" && host != "" && cfg.certifies(cert, host)
    ensures Runs(cfg, INIT, acts, s) && Quiescent(s) && IngressAt(s.caches, n).Some? && !Managed(cfg, s.caches, n)
    ensures n in s.router.items && Ownership.HeldAt(s.router, n, t) && t in s.router.running && t.rule.host == host
  {
    var before, m;
    before, m, t := ServedRuns(cfg, n, host, cert, options);
    var o := Object(1, IngressBody(Serving(None, host, options)));
    var a := Change(Key(IngressKind, n), Some(o));
    var more;
    more, s := LeavingTheClassKeepsTheTunnels(cfg, before, m, n, o);
    acts := before + ([a] + more);
    RunsThen(cfg, INIT, before, m, [a] + more, s);
    assert ([a] + more)[1..] == more;
    HistoryIsOfInternal(cfg, ChangeStep(cfg, m, a.key, a.obj), more, s);
  }

  lemma ServedRuns(cfg: Config, n: Name, host: string, cert: Bytes, options: TunnelOptions)
    returns (acts: seq<Action>, s: System, t: Tunnel)
    requires n.name != "" && host != "" && cfg.certifies(cert, host)
    ensures Runs(cfg, INIT, acts, s) && Quiescent(s) && Managed(cfg, s.caches, n)
    ensures IngressAt(s.caches, n) == Some(Serving(Some(cfg.ingressClass), host, options))
    ensures n in s.router.items && Ownership.HeldAt(s.router, n, t) && t in s.router.running && t.rule.host == host
  {
    var mine := Serving(Some(cfg.ingressClass), host, options);
    acts, s := Served(cfg, n, mine, cert);
    var r := ServedHasLink(cfg, s.caches, n, Some(cfg.ingressClass), host, options, cert);
    assert r in Ownership.SpecsOf(s.router.items[n]);
    t := s.router.items[n][r];
    InitInv(cfg);
    InvAlways(cfg, INIT, acts, s);
    assert Ownership.HeldAt(s.router, n, t) && Ownership.Held(s.router, t);
  }
}
