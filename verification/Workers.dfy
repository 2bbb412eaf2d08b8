/**
  Any number of workers over one queue, one set of caches and one router.  A key that a worker is
  handling is not given to another, but a translation is made without the router's lock, so two
  workers with different keys can work on the same ingress.  The router's guarantees hold for any
  number of workers; convergence holds exactly for one at most.
 */
module Workers {
  import opened Base
  import opened Cluster
  import opened Translation
  import opened Indexes
  import opened Router
  import Ownership
  import opened Reconcile
  import opened Convergence
  import opened Settling
  import opened Leaving

  /** A worker and the key it is handling. */
  datatype Slot = Slot(key: Option<Key>, phase: Phase)

  const FREE := Slot(None, Idle)

  datatype Pool = Pool(
    caches: Caches,
    notices: seq<Notice>,
    queue: set<Key>,
    slots: seq<Slot>,
    router: Router.State,
    nextId: nat,
    ever: set<Name>,
    left: set<Name>)

  function Start(workers: nat): (p: Pool)
    ensures |p.slots| == workers && forall w :: 0 <= w < workers ==> p.slots[w] == FREE
  {
    Pool(map[], [], {}, seq(workers, _ => FREE), EMPTY, 0, {}, {})
  }

  /** The pool as one worker in the given phase sees it. */
  function Seen(p: Pool, ph: Phase): System {
    System(p.caches, p.notices, p.queue, ph, p.router, p.nextId, p.ever, p.left)
  }

  /** What one worker, or none, did to everything but the workers. */
  function Shared(p: Pool, s: System): Pool {
    Pool(s.caches, s.notices, s.queue, p.slots, s.router, s.nextId, s.ever, s.left)
  }

  datatype PoolAction =
    | Around(a: Action)          // a change, a notice or a stop
    | By(w: nat, a: Action)      // worker w takes a key or goes on with it

  predicate OfWorker(a: Action) {
    a.Take? || a.Work?
  }

  /** No worker but w is handling the key. */
  predicate Free(p: Pool, w: nat, k: Key) {
    forall v :: 0 <= v < |p.slots| && v != w ==> p.slots[v].key != Some(k)
  }

  ghost predicate Allowed(cfg: Config, p: Pool, b: PoolAction) {
    match b
    case Around(a) => !OfWorker(a) && Enabled(cfg, Seen(p, Idle), a)
    case By(w, a) =>
      && OfWorker(a) && w < |p.slots| && Enabled(cfg, Seen(p, p.slots[w].phase), a)
      && (a.Take? ==> Free(p, w, a.key))
  }

  ghost function PoolStep(cfg: Config, p: Pool, b: PoolAction): Pool
    requires Allowed(cfg, p, b)
  {
    match b
    case Around(a) => Shared(p, Step(cfg, Seen(p, Idle), a))
    case By(w, a) =>
      var s := Step(cfg, Seen(p, p.slots[w].phase), a);
      var key := if s.worker.Idle? then None else if a.Take? then Some(a.key) else p.slots[w].key;
      Shared(p, s).(slots := p.slots[w := Slot(key, s.worker)])
  }

  ghost predicate PoolRuns(cfg: Config, p: Pool, acts: seq<PoolAction>, p': Pool)
    decreases |acts|
  {
    if acts == [] then p' == p
    else Allowed(cfg, p, acts[0]) && PoolRuns(cfg, PoolStep(cfg, p, acts[0]), acts[1..], p')
  }

  predicate Quiet(p: Pool) {
    p.notices == [] && p.queue == {} && forall w :: 0 <= w < |p.slots| ==> p.slots[w].phase.Idle?
  }

  lemma {:induction false} PoolRunsThen(cfg: Config, p: Pool, acts: seq<PoolAction>, m: Pool, more: seq<PoolAction>, p': Pool)
    requires PoolRuns(cfg, p, acts, m) && PoolRuns(cfg, m, more, p')
    ensures PoolRuns(cfg, p, acts + more, p')
    decreases |acts|
  {
    if acts == [] {
      assert acts + more == more;
    } else {
      PoolRunsThen(cfg, PoolStep(cfg, p, acts[0]), acts[1..], m, more, p');
      assert (acts + more)[1..] == acts[1..] + more;
    }
  }

  // ---------------------------------------------------------------- the router, for any number of workers

  predicate IdsBelow(s: Router.State, id: nat) {
    forall t <- s.seen :: t.id < id
  }

  /** Every step is at most one of the router's operations, and its preconditions are met. */
  lemma RouterStep(cfg: Config, s: System, a: Action) returns (ops: seq<Ownership.Action>)
    requires Enabled(cfg, s, a) && IdsBelow(s.router, s.nextId)
    ensures Ownership.Runs(s.router, ops, Step(cfg, s, a).router)
    ensures IdsBelow(Step(cfg, s, a).router, Step(cfg, s, a).nextId)
  {
    ops := [];
    if a.StopRuns? {
      ops := [Ownership.StopRuns(a.t)];
    } else if a.Work? && s.worker.Applying? {
      match s.worker.order {
        case Install(routes) =>
          EntriesAreNew(s.router, routes, s.nextId);
          InstallIds(s.router, routes, s.nextId);
          ops := [Ownership.DoUpdate(Entries(routes, s.nextId))];
        case Remove(n) => ops := [Ownership.DoDeleteRoute(n)];
        case Filter(kind, n, keys) => ops := [Ownership.DoDeleteKind(kind, n, keys)];
      }
    }
    if ops != [] {
      assert Ownership.Runs(Ownership.Step(s.router, ops[0]), ops[1..], Step(cfg, s, a).router);
    }
  }

  lemma {:induction false} RouterRunsThen(s: Router.State, ops: seq<Ownership.Action>, m: Router.State, more: seq<Ownership.Action>, s': Router.State)
    requires Ownership.Runs(s, ops, m) && Ownership.Runs(m, more, s')
    ensures Ownership.Runs(s, ops + more, s')
    decreases |ops|
  {
    if ops == [] {
      assert ops + more == more;
    } else {
      RouterRunsThen(Ownership.Step(s, ops[0]), ops[1..], m, more, s');
      assert (ops + more)[1..] == ops[1..] + more;
    }
  }

  lemma {:induction false} RouterRuns(cfg: Config, p: Pool, acts: seq<PoolAction>, p': Pool) returns (ops: seq<Ownership.Action>)
    requires PoolRuns(cfg, p, acts, p') && IdsBelow(p.router, p.nextId)
    ensures Ownership.Runs(p.router, ops, p'.router)
    decreases |acts|
  {
    if acts == [] {
      ops := [];
    } else {
      var b, m := acts[0], PoolStep(cfg, p, acts[0]);
      var first := RouterStep(cfg, Seen(p, if b.By? then p.slots[b.w].phase else Idle), b.a);
      var rest := RouterRuns(cfg, m, acts[1..], p');
      RouterRunsThen(p.router, first, m.router, rest, p'.router);
      ops := first + rest;
    }
  }

  /**
    For any number of workers the router only ever goes through runs of its own operations, each
    with new links, so ownership holds in every state.
   */
  lemma OwnedForAnyWorkers(cfg: Config, workers: nat, acts: seq<PoolAction>, p: Pool) returns (ops: seq<Ownership.Action>)
    requires PoolRuns(cfg, Start(workers), acts, p)
    ensures Ownership.Runs(EMPTY, ops, p.router) && Ownership.Owned(p.router)
  {
    ops := RouterRuns(cfg, Start(workers), acts, p);
    Ownership.OwnedAlways(ops, p.router);
  }

  // ---------------------------------------------------------------- keys in process

  /** A worker is handling a key exactly if it is not idle, and no two handle the same one. */
  ghost predicate Exclusive(p: Pool) {
    && (forall w :: 0 <= w < |p.slots| ==> (p.slots[w].key.None? <==> p.slots[w].phase.Idle?))
    && forall v, w :: 0 <= v < w < |p.slots| && p.slots[v].key.Some? ==> p.slots[v].key != p.slots[w].key
  }

  lemma ExclusiveKept(cfg: Config, p: Pool, b: PoolAction)
    requires Exclusive(p) && Allowed(cfg, p, b)
    ensures Exclusive(PoolStep(cfg, p, b))
  {
  }

  lemma {:induction false} ExclusiveRuns(cfg: Config, p: Pool, acts: seq<PoolAction>, p': Pool)
    requires Exclusive(p) && PoolRuns(cfg, p, acts, p')
    ensures Exclusive(p')
    decreases |acts|
  {
    if acts != [] {
      ExclusiveKept(cfg, p, acts[0]);
      ExclusiveRuns(cfg, PoolStep(cfg, p, acts[0]), acts[1..], p');
    }
  }

  /** In every run of any number of workers no two of them ever handle the same key. */
  lemma KeysAreExclusive(cfg: Config, workers: nat, acts: seq<PoolAction>, p: Pool)
    requires PoolRuns(cfg, Start(workers), acts, p)
    ensures Exclusive(p)
  {
    ExclusiveRuns(cfg, Start(workers), acts, p);
  }

  // ---------------------------------------------------------------- one worker

  /** A pool of one worker, or none, as the machine with one worker. */
  function Only(p: Pool): System {
    Seen(p, if p.slots == [] then Idle else p.slots[0].phase)
  }

  lemma AloneStep(cfg: Config, p: Pool, b: PoolAction)
    requires |p.slots| <= 1 && Allowed(cfg, p, b)
    ensures Enabled(cfg, Only(p), b.a) && Step(cfg, Only(p), b.a) == Only(PoolStep(cfg, p, b))
  {
  }

  lemma {:induction false} AloneRuns(cfg: Config, p: Pool, acts: seq<PoolAction>, p': Pool) returns (single: seq<Action>)
    requires |p.slots| <= 1 && PoolRuns(cfg, p, acts, p')
    ensures Runs(cfg, Only(p), single, Only(p'))
    decreases |acts|
  {
    if acts == [] {
      single := [];
    } else {
      AloneStep(cfg, p, acts[0]);
      var rest := AloneRuns(cfg, PoolStep(cfg, p, acts[0]), acts[1..], p');
      single := [acts[0].a] + rest;
      assert single[1..] == rest;
    }
  }

  // ---------------------------------------------------------------- one worker among others

  /** An idle worker is handling no key. */
  predicate Sound(x: Slot) {
    x.phase.Idle? ==> x.key.None?
  }

  /** The key a worker is handling after some actions is the one from before or one that it took. */
  ghost predicate KeyFrom(was: Option<Key>, acts: seq<Action>, now: Option<Key>) {
    now.None? || now == was || exists a <- acts :: a.Take? && now == Some(a.key)
  }

  lemma LiftStep(cfg: Config, p: Pool, w: nat, a: Action) returns (b: PoolAction)
    requires w < |p.slots| && Enabled(cfg, Seen(p, p.slots[w].phase), a) && (a.Take? ==> Free(p, w, a.key))
    requires Sound(p.slots[w])
    ensures Allowed(cfg, p, b) && |PoolStep(cfg, p, b).slots| == |p.slots|
    ensures var p' := PoolStep(cfg, p, b);
            && Seen(p', p'.slots[w].phase) == Step(cfg, Seen(p, p.slots[w].phase), a)
            && p'.slots == p.slots[w := p'.slots[w]]
            && Sound(p'.slots[w]) && KeyFrom(p.slots[w].key, [a], p'.slots[w].key)
  {
    b := if OfWorker(a) then By(w, a) else Around(a);
    assert a in [a];
  }

  /** What one worker can do alone, worker w can do among others, if they are not handling its keys. */
  lemma {:induction false} Lift(cfg: Config, p: Pool, w: nat, acts: seq<Action>, s: System) returns (bs: seq<PoolAction>, p': Pool)
    requires w < |p.slots| && Runs(cfg, Seen(p, p.slots[w].phase), acts, s) && Sound(p.slots[w])
    requires forall a <- acts :: a.Take? ==> Free(p, w, a.key)
    ensures PoolRuns(cfg, p, bs, p') && |p'.slots| == |p.slots| && Seen(p', p'.slots[w].phase) == s
    ensures p'.slots == p.slots[w := p'.slots[w]]
    ensures Sound(p'.slots[w]) && KeyFrom(p.slots[w].key, acts, p'.slots[w].key)
    decreases |acts|
  {
    if acts == [] {
      bs, p' := [], p;
    } else {
      var b := LiftStep(cfg, p, w, acts[0]);
      var m := PoolStep(cfg, p, b);
      var rest;
      rest, p' := Lift(cfg, m, w, acts[1..], s);
      bs := [b] + rest;
      assert bs[1..] == rest && acts[0] in acts && forall a <- acts[1..] :: a in acts;
    }
  }

  // ---------------------------------------------------------------- two workers overlap

  /** A worker left alone takes only keys that are queued or undelivered. */
  lemma {:induction false} TakesPending(cfg: Config, s: System, acts: seq<Action>, s': System, k: Key)
    requires Runs(cfg, s, acts, s') && (forall a <- acts :: Internal(a))
    requires Take(k) in acts
    ensures k in Backlog(cfg, s)
    decreases |acts|
  {
    assert acts[0] in acts && Internal(acts[0]);
    if acts[0] != Take(k) {
      var m := Step(cfg, s, acts[0]);
      assert Take(k) in acts[1..];
      TakesPending(cfg, m, acts[1..], s', k);
      if acts[0].Deliver? {
        DeliverBacklog(cfg, s, acts[0].n);
      } else {
        assert m.notices == s.notices && m.queue <= s.queue;
      }
    }
  }

  function ServiceKey(n: Name): Key {
    Key(ServiceKind, Name(n.namespace, "service"))
  }

  /** The caches of a served ingress once its service has been written again. */
  function Rewritten(n: Name, ing: Ingress, cert: Bytes): Caches {
    ServedCaches(n, ing, cert)[ServiceKey(n) := Object(1, ServiceBody(PORTS))]
  }

  lemma ListsOnlyN(cfg: Config, n: Name, host: string, options: TunnelOptions, cert: Bytes)
    ensures var ing := Serving(Some(cfg.ingressClass), host, options);
            host != "" ==> IsListing(cfg, Rewritten(n, ing, cert), ServiceKey(n), [n])
  {
    var ing := Serving(Some(cfg.ingressClass), host, options);
    if host != "" {
      assert ServiceRef(n.namespace, ing, 0, 0) == Some(ServiceKey(n).name);
    }
  }

  /** A worker handles the write of the service up to the point where it will install its routes. */
  lemma ServiceTranslated(cfg: Config, n: Name, host: string, options: TunnelOptions, cert: Bytes, s: System)
    returns (acts: seq<Action>, s': System)
    requires n.name != "" && host != "" && Quiescent(s)
    requires s.caches == ServedCaches(n, Serving(Some(cfg.ingressClass), host, options), cert)
    ensures Runs(cfg, s, acts, s') && forall a <- acts :: a.Take? ==> a.key == ServiceKey(n)
    ensures var ing := Serving(Some(cfg.ingressClass), host, options); var c := Rewritten(n, ing, cert);
            s' == s.(caches := c, worker := Applying(Install([Built(n, Translate(cfg, c, n.namespace, ing))])))
  {
    var ing, k := Serving(Some(cfg.ingressClass), host, options), ServiceKey(n);
    var a := Change(k, Some(Object(1, ServiceBody(PORTS))));
    var s1 := Step(cfg, s, a);
    OneStep(cfg, s, a);
    var s2 := Step(cfg, s1, Deliver(0));
    OneStep(cfg, s1, Deliver(0));
    RunsThen(cfg, s, [a], s1, [Deliver(0)], s2);
    assert s2 == s.(caches := Rewritten(n, ing, cert), queue := {k});
    var more;
    more, s' := ServiceTaken(cfg, n, host, options, cert, s2);
    acts := [a] + [Deliver(0)] + more;
    RunsThen(cfg, s, [a] + [Deliver(0)], s2, more, s');
  }

  lemma ServiceTaken(cfg: Config, n: Name, host: string, options: TunnelOptions, cert: Bytes, s: System)
    returns (acts: seq<Action>, s': System)
    requires n.name != "" && host != "" && s.queue == {ServiceKey(n)} && s.worker.Idle?
    requires s.caches == Rewritten(n, Serving(Some(cfg.ingressClass), host, options), cert)
    ensures Runs(cfg, s, acts, s') && forall a <- acts :: a.Take? ==> a.key == ServiceKey(n)
    ensures var ing := Serving(Some(cfg.ingressClass), host, options);
            s' == s.(queue := {}, worker := Applying(Install([Built(n, Translate(cfg, s.caches, n.namespace, ing))])))
  {
    var ing, k := Serving(Some(cfg.ingressClass), host, options), ServiceKey(n);
    var m := s.(queue := {}, worker := Listing(ServiceKind, k.name, true));
    ServiceFound(cfg, s, k);
    var more;
    more, s' := ServiceListed(cfg, n, host, options, cert, m);
    acts := [Take(k), Work([])] + more;
    RunsThen(cfg, s, [Take(k), Work([])], m, more, s');
  }

  lemma ServiceFound(cfg: Config, s: System, k: Key)
    requires s.queue == {k} && s.worker.Idle? && k in s.caches && k.kind == ServiceKind
    ensures Runs(cfg, s, [Take(k), Work([])], s.(queue := {}, worker := Listing(ServiceKind, k.name, true)))
  {
    var m := s.(queue := {}, worker := Took(k));
    OneStep(cfg, s, Take(k));
    OneStep(cfg, m, Work([]));
    RunsThen(cfg, s, [Take(k)], m, [Work([])], m.(worker := Listing(ServiceKind, k.name, true)));
    assert [Take(k)] + [Work([])] == [Take(k), Work([])];
  }

  lemma ServiceListed(cfg: Config, n: Name, host: string, options: TunnelOptions, cert: Bytes, s: System)
    returns (acts: seq<Action>, s': System)
    requires n.name != "" && host != "" && s.worker == Listing(ServiceKind, ServiceKey(n).name, true)
    requires s.caches == Rewritten(n, Serving(Some(cfg.ingressClass), host, options), cert)
    ensures Runs(cfg, s, acts, s') && forall a <- acts :: !a.Take?
    ensures var ing := Serving(Some(cfg.ingressClass), host, options);
            s' == s.(worker := Applying(Install([Built(n, Translate(cfg, s.caches, n.namespace, ing))])))
  {
    var ing := Serving(Some(cfg.ingressClass), host, options);
    var m := s.(worker := Translating([Job(n, ing)], [], TOP));
    ListsOnlyN(cfg, n, host, options, cert);
    assert Jobs(s.caches, [n]) == [Job(n, ing)];
    OneStep(cfg, s, Work([n]));
    CursorStarts(Clean(cfg, s.caches), n.namespace, ing);
    var more;
    more, s' := TranslateAlone(cfg, m, n, ing, TOP);
    acts := [Work([n])] + more;
    RunsThen(cfg, s, [Work([n])], m, more, s');
  }

  /** Meanwhile another worker handles the deletion of the ingress. */
  lemma IngressDeleted(cfg: Config, n: Name, s: System) returns (acts: seq<Action>, s': System)
    requires Quiescent(s) && InPlace(s) && Key(IngressKind, n) in s.caches
    ensures Runs(cfg, s, acts, s') && Quiescent(s') && forall a <- acts :: a.Take? ==> a.key == Key(IngressKind, n)
    ensures s'.caches == s.caches - {Key(IngressKind, n)} && s'.left == s.left
  {
    var k := Key(IngressKind, n);
    var s1 := Step(cfg, s, Change(k, None));
    OneStep(cfg, s, Change(k, None));
    var more;
    more, s' := Settles(cfg, s1);
    forall a | a in more && a.Take? ensures a.key == k {
      TakesPending(cfg, s1, more, s', a.key);
    }
    acts := [Change(k, None)] + more;
    RunsThen(cfg, s, [Change(k, None)], s1, more, s');
  }

  /**
    Two workers: one translates an ingress because its service was written; before it installs the
    route, the ingress is deleted, and another worker removes its route; then the first installs it.
    Every key has been handled, and a tunnel runs for an ingress that does not exist.
   */
  lemma OverlapKeepsADeletedIngress(cfg: Config, workers: nat, n: Name, host: string, options: TunnelOptions, cert: Bytes)
    returns (acts: seq<PoolAction>, p: Pool)
    requires workers >= 2 && n.name != "" && host != ""
    ensures PoolRuns(cfg, Start(workers), acts, p) && Quiet(p)
    ensures p.left == {} && Key(IngressKind, n) !in p.caches && n in p.router.items
    ensures cfg.certifies(cert, host) ==> exists t :: Ownership.HeldAt(p.router, n, t) && t in p.router.running
  {
    var c := Rewritten(n, Serving(Some(cfg.ingressClass), host, options), cert);
    var links := Translate(cfg, c, n.namespace, Serving(Some(cfg.ingressClass), host, options));
    var before, m := SecondDeletes(cfg, workers, n, host, options, cert);
    p := InstallLate(cfg, m, Built(n, links));
    acts := before + [By(0, Work([]))];
    PoolRunsThen(cfg, Start(workers), before, m, [By(0, Work([]))], p);
    assert n in p.router.items;
    if cfg.certifies(cert, host) {
      var r := ServedRewrittenHasLink(cfg, n, host, options, cert);
      InstalledRuns(cfg, workers, acts, p, m.router, n, links, m.nextId, r);
    }
  }

  lemma InstallLate(cfg: Config, m: Pool, b: Built) returns (p: Pool)
    requires |m.slots| > 0 && m.slots[0].phase == Applying(Install([b])) && m.notices == [] && m.queue == {}
    requires forall v :: 1 <= v < |m.slots| ==> m.slots[v].phase.Idle?
    ensures PoolRuns(cfg, m, [By(0, Work([]))], p) && Quiet(p) && p.caches == m.caches && p.left == m.left
    ensures p.router == Update(m.router, b.name, Ownership.Mint(b.links, m.nextId))
  {
    p := PoolStep(cfg, m, By(0, Work([])));
    assert PoolRuns(cfg, p, [By(0, Work([]))][1..], p);
    InstallOne(m.router, b, m.nextId);
  }

  /** The ingress is gone and all is quiet, but for the first worker. */
  lemma SecondDeletes(cfg: Config, workers: nat, n: Name, host: string, options: TunnelOptions, cert: Bytes)
    returns (acts: seq<PoolAction>, p: Pool)
    requires workers >= 2 && n.name != "" && host != ""
    ensures PoolRuns(cfg, Start(workers), acts, p) && |p.slots| == workers
    ensures p.notices == [] && p.queue == {} && p.left == {} && Key(IngressKind, n) !in p.caches
    ensures forall v :: 1 <= v < workers ==> p.slots[v].phase.Idle?
    ensures var ing := Serving(Some(cfg.ingressClass), host, options); var c := Rewritten(n, ing, cert);
            p.slots[0].phase == Applying(Install([Built(n, Translate(cfg, c, n.namespace, ing))]))
  {
    var before, m, s := FirstTranslates(cfg, workers, n, host, options, cert);
    var single, s' := IngressDeleted(cfg, n, s.(worker := Idle));
    var more;
    more, p := Lift(cfg, m, 1, single, s');
    acts := before + more;
    PoolRunsThen(cfg, Start(workers), before, m, more, p);
  }

  /** The first worker is about to install its route, and the others are free. */
  lemma FirstTranslates(cfg: Config, workers: nat, n: Name, host: string, options: TunnelOptions, cert: Bytes)
    returns (acts: seq<PoolAction>, p: Pool, s: System)
    requires workers >= 2 && n.name != "" && host != ""
    ensures PoolRuns(cfg, Start(workers), acts, p) && |p.slots| == workers
    ensures Seen(p, p.slots[0].phase) == s && p.slots[0].key in {None, Some(ServiceKey(n))}
    ensures forall v :: 1 <= v < workers ==> p.slots[v] == FREE
    ensures s.notices == [] && s.queue == {} && s.left == {} && InPlace(s)
    ensures var ing := Serving(Some(cfg.ingressClass), host, options); var c := Rewritten(n, ing, cert);
            s.caches == c && s.worker == Applying(Install([Built(n, Translate(cfg, c, n.namespace, ing))]))
  {
    var before, m, s0 := FirstServes(cfg, workers, n, Serving(Some(cfg.ingressClass), host, options), cert);
    var single;
    single, s := ServiceTranslated(cfg, n, host, options, cert, s0);
    var more;
    more, p := Lift(cfg, m, 0, single, s);
    acts := before + more;
    PoolRunsThen(cfg, Start(workers), before, m, more, p);
  }

  /** The first worker has come to serve the ingress, and all is quiet. */
  lemma FirstServes(cfg: Config, workers: nat, n: Name, ing: Ingress, cert: Bytes)
    returns (acts: seq<PoolAction>, p: Pool, s: System)
    requires workers >= 1 && n.name != "" && Matches(cfg, ing)
    ensures PoolRuns(cfg, Start(workers), acts, p) && |p.slots| == workers && Seen(p, p.slots[0].phase) == s
    ensures forall v :: 0 <= v < workers ==> p.slots[v] == FREE
    ensures Quiescent(s) && InPlace(s) && s.caches == ServedCaches(n, ing, cert) && s.left == {}
  {
    var served;
    served, s := Served(cfg, n, ing, cert);
    InitInv(cfg);
    InvAlways(cfg, INIT, served, s);
    acts, p := Lift(cfg, Start(workers), 0, served, s);
  }

  lemma ServedRewrittenHasLink(cfg: Config, n: Name, host: string, options: TunnelOptions, cert: Bytes) returns (r: Rule)
    requires cfg.certifies(cert, host) && host != ""
    ensures var ing := Serving(Some(cfg.ingressClass), host, options);
            r in Translate(cfg, Rewritten(n, ing, cert), n.namespace, ing)
  {
    var ing := Serving(Some(cfg.ingressClass), host, options);
    var c := ServedCaches(n, ing, cert);
    r := ServedHasLink(cfg, c, n, Some(cfg.ingressClass), host, options, cert);
    assert Agree(c, Rewritten(n, ing, cert), r);
    Locality(cfg, c, Rewritten(n, ing, cert), n.namespace, ing, |ing.rules|, 0, r);
  }

  lemma InstalledRuns(cfg: Config, workers: nat, acts: seq<PoolAction>, p: Pool, s: Router.State, n: Name, links: Links, id: nat, r: Rule)
    requires PoolRuns(cfg, Start(workers), acts, p) && p.router == Update(s, n, Ownership.Mint(links, id)) && r in links
    ensures n in p.router.items && exists t :: Ownership.HeldAt(p.router, n, t) && t in p.router.running
  {
    var ops := OwnedForAnyWorkers(cfg, workers, acts, p);
    var t := p.router.items[n][r];
    assert Ownership.HeldAt(p.router, n, t);
    assert Ownership.Held(p.router, t);
  }

  // ---------------------------------------------------------------- exactly one worker

  /** With this many workers every quiescent state holds the translation of the caches. */
  ghost predicate ConvergesWith(cfg: Config, workers: nat) {
    forall acts, p :: PoolRuns(cfg, Start(workers), acts, p) && Quiet(p) ==>
      Ownership.Specs(p.router) - p.left == FromScratch(cfg, p.caches)
  }

  /** Convergence holds exactly for one worker at most, whatever the configuration. */
  lemma ConvergesIff(cfg: Config, workers: nat)
    ensures ConvergesWith(cfg, workers) <==> workers <= 1
  {
    if workers <= 1 {
      forall acts, p | PoolRuns(cfg, Start(workers), acts, p) && Quiet(p)
        ensures Ownership.Specs(p.router) - p.left == FromScratch(cfg, p.caches)
      {
        var single := AloneRuns(cfg, Start(workers), acts, p);
        Converges(cfg, single, Only(p));
      }
    } else {
      var n := Name("namespace", "name");
      var options := TunnelOptions(0, 0, 0, 0, 0, "", false, 0, "");
      var acts, p := OverlapKeepsADeletedIngress(cfg, workers, n, "a.com", options, []);
      assert n in Ownership.Specs(p.router) - p.left;
      assert n !in FromScratch(cfg, p.caches);
    }
  }
}
