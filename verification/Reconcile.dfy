/**
  The reconciliation loop as a state machine: informer notices, the work queue, one worker and the
  router.  Every cache read of the worker is a step of its own, so the caches may change between any
  two of its reads, and between its reads and the moment it applies what it computed.
 */
module Reconcile {
  import opened Base
  import opened Cluster
  import opened Translation
  import opened Indexes
  import opened Router
  import Ownership

  /** An informer notice: the object before and after a cache change, or twice the same on a resync. */
  datatype Notice = Notice(key: Key, was: Option<Object>, now: Option<Object>)

  /** The filter in front of the queue, by kind; services are not filtered. */
  predicate Passes(cfg: Config, o: Object) {
    match o.body
    case IngressBody(ing) => Matches(cfg, ing)
    case ServiceBody(_) => true
    case EndpointsBody(subsets) => subsets != []
    case SecretBody(data) => CERT_PEM in data
  }

  /**
    Whether a notice puts its key on the queue: an update that leaves the filter counts as a delete,
    one that enters it as an add, and one within it counts if the object differs.
   */
  predicate Enqueues(cfg: Config, was: Option<Object>, now: Option<Object>) {
    match (was, now)
    case (None, None) => false
    case (None, Some(n)) => Passes(cfg, n)
    case (Some(o), None) => Passes(cfg, o)
    case (Some(o), Some(n)) =>
      if Passes(cfg, n) && Passes(cfg, o) then n != o
      else Passes(cfg, n) || Passes(cfg, o)
  }

  /** An object the controller looks at: an ingress of its class, a secret with a certificate, endpoints with subsets, any service. */
  predicate Relevant(cfg: Config, o: Option<Object>) {
    && o.Some?
    && (o.value.body.IngressBody? ==> o.value.body.ingress.ingressClass == Some(cfg.ingressClass))
    && (o.value.body.SecretBody? ==> "cert.pem" in o.value.body.data)
    && (o.value.body.EndpointsBody? ==> o.value.body.subsets != [])
  }

  /** A notice is queued exactly if the object differs and is relevant before or after. */
  lemma EnqueuesIff(cfg: Config, was: Option<Object>, now: Option<Object>)
    ensures Enqueues(cfg, was, now) <==> was != now && (Relevant(cfg, was) || Relevant(cfg, now))
  {
    assert was.Some? ==> (Passes(cfg, was.value) <==> Relevant(cfg, was));
    assert now.Some? ==> (Passes(cfg, now.value) <==> Relevant(cfg, now));
  }

  datatype Job = Job(name: Name, ing: Ingress)

  datatype Built = Built(name: Name, links: Links)

  /**
    Where the translation of an ingress stands: the rule and the path being looked at, the
    certificate read for the rule, the port read for the path, and the links attached so far.
   */
  datatype Cursor = Cursor(i: nat, cert: Option<Bytes>, j: nat, port: Option<int>, links: Links)

  const TOP := Cursor(0, None, 0, None, map[])

  /** What the worker will do to the router. */
  datatype Order =
    | Install(routes: seq<Built>)
    | Remove(name: Name)
    | Filter(kind: DepKind, n: Name, keys: set<Name>)

  datatype Phase =
    | Idle
    | Took(key: Key)                                   // taken from the queue, nothing read yet
    | Listing(kind: DepKind, name: Name, present: bool)  // existence read, index not yet
    | Translating(todo: seq<Job>, done: seq<Built>, at: Cursor)
    | Applying(order: Order)
    | Waiting(links: set<Tunnel>)                      // for the stops of a delete

  /**
    `nextId` numbers the links.  `ever` and `left` record history: the names under which an ingress
    of the controller's class has been stored, and those among them under which an ingress of
    another class has been stored since.
   */
  datatype System = System(
    caches: Caches,
    notices: seq<Notice>,
    queue: set<Key>,
    worker: Phase,
    router: Router.State,
    nextId: nat,
    ever: set<Name>,
    left: set<Name>)

  const INIT := System(map[], [], {}, Idle, EMPTY, 0, {}, {})

  datatype Action =
    | Change(key: Key, obj: Option<Object>)            // the cluster writes or deletes an object
    | Resync(key: Key)                                 // the informer repeats an object
    | Deliver(n: nat)                                  // one pending notice reaches its handler
    | Take(key: Key)                                   // the worker takes a key from the queue
    | Work(listed: seq<Name>)                          // the worker's next step; `listed` is what the index gives
    | StopRuns(t: Tunnel)                              // a goroutine spawned by a delete stops its link

  predicate Managed(cfg: Config, c: Caches, n: Name) {
    IngressAt(c, n).Some? && Matches(cfg, IngressAt(c, n).value)
  }

  /** The names the ingress index gives for an object. */
  ghost predicate IsListing(cfg: Config, c: Caches, k: Key, listed: seq<Name>) {
    forall n :: n in listed <==> Managed(cfg, c, n) && Indexed(cfg, n.namespace, IngressAt(c, n).value, k)
  }

  ghost predicate Enabled(cfg: Config, s: System, a: Action) {
    match a
    case Change(k, Some(o)) => KindOf(o.body) == k.kind && k.name.name != ""
    case Change(k, None) => k in s.caches
    case Resync(k) => k in s.caches
    case Deliver(n) => n < |s.notices|
    case Take(k) => s.worker.Idle? && k in s.queue
    case Work(listed) =>
      && !s.worker.Idle?
      && (s.worker.Listing? ==> IsListing(cfg, s.caches, Key(s.worker.kind, s.worker.name), listed))
      && (s.worker.Waiting? ==> s.worker.links !! s.router.stopping)
    case StopRuns(t) => t in s.router.stopping
  }

  function Store(c: Caches, k: Key, o: Option<Object>): Caches {
    if o.Some? then c[k := o.value] else c - {k}
  }

  function ChangeStep(cfg: Config, s: System, k: Key, o: Option<Object>): System {
    var mine := o.Some? && o.value.body.IngressBody? && Matches(cfg, o.value.body.ingress);
    s.(caches := Store(s.caches, k, o),
       notices := s.notices + [Notice(k, Get(s.caches, k), o)],
       ever := if mine then s.ever + {k.name} else s.ever,
       left := if mine then s.left - {k.name}
               else if k.kind.IngressKind? && o.Some? && k.name in s.ever then s.left + {k.name}
               else s.left)
  }

  function DeliverStep(cfg: Config, s: System, n: nat): System
    requires n < |s.notices|
  {
    var x := s.notices[n];
    s.(notices := s.notices[..n] + s.notices[n + 1..],
       queue := if Enqueues(cfg, x.was, x.now) then s.queue + {x.key} else s.queue)
  }

  function NextRule(at: Cursor): Cursor {
    Cursor(at.i + 1, None, 0, None, at.links)
  }

  function NextPath(at: Cursor): Cursor {
    Cursor(at.i, at.cert, at.j + 1, None, at.links)
  }

  /** One step of the loops of `getRouteFromIngress`, with at most one cache read. */
  function CursorStep(cfg: Config, c: Caches, ns: string, ing: Ingress, at: Cursor): Cursor
    requires at.i < |ing.rules|
  {
    var secret, host := RuleSecret(cfg, ns, ing, at.i), ing.rules[at.i].host;
    if secret.None? then NextRule(at)
    else if at.cert.None? then
      var cert := VerifiedCert(cfg, c, secret.value, host);
      if cert.None? then NextRule(at) else at.(cert := cert)
    else if at.j >= PathCount(ing, at.i) then NextRule(at)
    else
      var p := PathAt(ing, at.i, at.j);
      var service := Name(ns, p.serviceName);
      if !PathOk(p) then NextPath(at)
      else if at.port.None? then
        var port := ServicePortAt(c, service, p.servicePort);
        if port.None? then NextPath(at) else at.(port := port)
      else if AddressAt(c, service) then
        var rule := Rule(service, secret.value, host, at.port.value);
        NextPath(at.(links := at.links[rule := Spec(at.cert.value, ing.options)]))
      else NextPath(at)
  }

  function TranslatingStep(cfg: Config, c: Caches, w: Phase): Phase
    requires w.Translating?
  {
    if w.todo == [] then Applying(Install(w.done))
    else
      var job := w.todo[0];
      if w.at.i >= |job.ing.rules| then Translating(w.todo[1..], w.done + [Built(job.name, w.at.links)], TOP)
      else w.(at := CursorStep(cfg, c, job.name.namespace, job.ing, w.at))
  }

  function Jobs(c: Caches, names: seq<Name>): seq<Job>
    requires forall n <- names :: IngressAt(c, n).Some?
  {
    seq(|names|, i requires 0 <= i < |names| => Job(names[i], IngressAt(c, names[i]).value))
  }

  /** The links of the routes to install, each new. */
  function Entries(routes: seq<Built>, id: nat): seq<Entry> {
    seq(|routes|, i requires 0 <= i < |routes| => Entry(routes[i].name, Ownership.Mint(routes[i].links, id + i)))
  }

  function ApplyStep(s: System, o: Order): System
  {
    match o
    case Install(routes) =>
      s.(router := UpdateAll(s.router, Entries(routes, s.nextId)), nextId := s.nextId + |routes|, worker := Idle)
    case Remove(name) => s.(router := DeleteRoute(s.router, name), worker := Waiting(Previous(s.router, name).Values))
    case Filter(kind, n, keys) =>
      s.(router := DeleteKind(s.router, kind, n, keys), worker := Waiting(Users(s.router, kind, n, keys)))
  }

  function WorkStep(cfg: Config, s: System, listed: seq<Name>): System
    requires s.worker.Listing? && s.worker.present ==> forall n <- listed :: IngressAt(s.caches, n).Some?
  {
    match s.worker
    case Idle => s
    case Took(k) =>
      if k.kind != IngressKind then s.(worker := Listing(k.kind, k.name, k in s.caches))
      else if IngressAt(s.caches, k.name).Some? then
        s.(worker := Translating([Job(k.name, IngressAt(s.caches, k.name).value)], [], TOP))
      else s.(worker := Applying(Remove(k.name)))
    case Listing(kind, name, present) =>
      if present then s.(worker := Translating(Jobs(s.caches, listed), [], TOP))
      else s.(worker := Applying(Filter(kind, name, Named(listed))))
    case Translating(_, _, _) => s.(worker := TranslatingStep(cfg, s.caches, s.worker))
    case Applying(o) => ApplyStep(s, o)
    case Waiting(_) => s.(worker := Idle)
  }

  ghost function Step(cfg: Config, s: System, a: Action): System
    requires Enabled(cfg, s, a)
  {
    match a
    case Change(k, o) => ChangeStep(cfg, s, k, o)
    case Resync(k) => s.(notices := s.notices + [Notice(k, Get(s.caches, k), Get(s.caches, k))])
    case Deliver(n) => DeliverStep(cfg, s, n)
    case Take(k) => s.(queue := s.queue - {k}, worker := Took(k))
    case Work(listed) => WorkStep(cfg, s, listed)
    case StopRuns(t) => s.(router := FinishStop(s.router, t))
  }

  ghost predicate Runs(cfg: Config, s: System, acts: seq<Action>, s': System)
    decreases |acts|
  {
    if acts == [] then s' == s
    else Enabled(cfg, s, acts[0]) && Runs(cfg, Step(cfg, s, acts[0]), acts[1..], s')
  }

  /** Nothing is queued, undelivered or in process. */
  predicate Quiescent(s: System) {
    s.notices == [] && s.queue == {} && s.worker.Idle?
  }
}
