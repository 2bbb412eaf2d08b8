/**
  Level-triggered convergence: in every run with one worker, whatever the interleaving of cache
  changes, notices and the worker's reads, a quiescent state holds exactly the translation of the
  caches.

  The invariant is per ingress and per rule: either the rule is stored as a translation from scratch
  would have it, or a key it depends on is still queued, undelivered or in the worker's hands.
 */
module Convergence {
  import opened Base
  import opened Cluster
  import opened Translation
  import opened Indexes
  import opened Router
  import Ownership
  import opened Reconcile

  /** The certificates and options held per ingress and rule. */
  type View = map<Name, Links>

  /** All that the invariant looks at besides the router: `dirty` are the keys still to be handled. */
  datatype World = World(cfg: Config, caches: Caches, dirty: iset<Key>, ever: set<Name>, left: set<Name>)

  /** An ingress name that left the controller's class: the code does not clean up after it. */
  predicate Exempt(w: World, n: Name) {
    n in w.left
  }

  function WantedAt(w: World, n: Name, r: Rule): Option<Spec> {
    if Managed(w.cfg, w.caches, n)
    then Get(Translate(w.cfg, w.caches, n.namespace, IngressAt(w.caches, n).value), r)
    else None
  }

  function HasAt(v: View, n: Name, r: Rule): Option<Spec> {
    if n in v then Get(v[n], r) else None
  }

  /** The service, the endpoints or the secret of the rule is still to be handled. */
  ghost predicate DepsDirty(w: World, r: Rule) {
    || Key(ServiceKind, r.service) in w.dirty
    || Key(EndpointKind, r.service) in w.dirty
    || Key(SecretKind, r.secret) in w.dirty
  }

  ghost predicate IngressDirty(w: World, n: Name) {
    Key(IngressKind, n) in w.dirty
  }

  ghost predicate RuleOk(w: World, v: View, busy: set<Name>, n: Name, r: Rule) {
    n in busy || Exempt(w, n) || IngressDirty(w, n) || DepsDirty(w, r) || WantedAt(w, n, r) == HasAt(v, n, r)
  }

  ghost predicate Refers(w: World, n: Name, r: Rule) {
    && IngressAt(w.caches, n).Some?
    && RefersToService(n.namespace, IngressAt(w.caches, n).value, r.service)
    && RefersToSecret(w.cfg, n.namespace, IngressAt(w.caches, n).value, r.secret)
  }

  ghost predicate RouteOk(w: World, v: View, busy: set<Name>, n: Name) {
    || n in busy || Exempt(w, n) || IngressDirty(w, n)
    || ((n in v <==> Managed(w.cfg, w.caches, n)) && (n in v ==> forall r <- v[n] :: Refers(w, n, r)))
  }

  ghost predicate HistoryOk(w: World, v: View, busy: set<Name>, n: Name) {
    && (n in busy || n in v || IngressDirty(w, n) || Managed(w.cfg, w.caches, n) ==> n in w.ever)
    && (n in w.ever && IngressAt(w.caches, n).Some? && !Managed(w.cfg, w.caches, n) ==> n in w.left)
    && (Managed(w.cfg, w.caches, n) ==> n !in w.left)
  }

  /** The invariant, for the view the router will have, and the ingresses being translated again. */
  ghost predicate ViewInv(w: World, v: View, busy: set<Name>) {
    && WellFormed(w.caches)
    && (forall n, r :: RuleOk(w, v, busy, n, r))
    && (forall n :: RouteOk(w, v, busy, n))
    && (forall n :: HistoryOk(w, v, busy, n))
  }

  // ---------------------------------------------------------------- a cache change

  /** The world after a write or delete of object k, with its notice pending. */
  ghost predicate Changes(w: World, w': World, k: Key, o: Option<Object>) {
    && (o.Some? ==> KindOf(o.value.body) == k.kind && k.name.name != "")
    && w'.cfg == w.cfg
    && w'.caches == Store(w.caches, k, o)
    && w.dirty <= w'.dirty
    && (forall x :: x in w'.dirty ==> x in w.dirty || (x == k && Enqueues(w.cfg, Get(w.caches, k), o)))
    && (Enqueues(w.cfg, Get(w.caches, k), o) ==> k in w'.dirty)
    && var mine := o.Some? && o.value.body.IngressBody? && Matches(w.cfg, o.value.body.ingress);
    && w'.ever == (if mine then w.ever + {k.name} else w.ever)
    && w'.left == (if mine then w.left - {k.name}
                   else if k.kind.IngressKind? && o.Some? && k.name in w.ever then w.left + {k.name}
                   else w.left)
  }

  predicate DependsOn(r: Rule, k: Key) {
    k == Key(ServiceKind, r.service) || k == Key(EndpointKind, r.service) || k == Key(SecretKind, r.secret)
  }

  /** A change that is not enqueued, or of another object, does not touch what decides about a rule. */
  lemma ChangeAgrees(cfg: Config, c: Caches, k: Key, o: Option<Object>, r: Rule)
    requires WellFormed(c) && (o.Some? ==> KindOf(o.value.body) == k.kind)
    requires Enqueues(cfg, Get(c, k), o) ==> !DependsOn(r, k)
    ensures Agree(c, Store(c, k, o), r)
  {
  }

  lemma ChangeIngress(cfg: Config, c: Caches, k: Key, o: Option<Object>, n: Name)
    requires WellFormed(c) && (o.Some? ==> KindOf(o.value.body) == k.kind)
    requires Enqueues(cfg, Get(c, k), o) ==> k != Key(IngressKind, n)
    ensures Managed(cfg, Store(c, k, o), n) == Managed(cfg, c, n)
    ensures Managed(cfg, c, n) ==> IngressAt(Store(c, k, o), n) == IngressAt(c, n)
  {
  }

  lemma ChangeRuleOk(w: World, w': World, v: View, busy: set<Name>, k: Key, o: Option<Object>, n: Name, r: Rule)
    requires ViewInv(w, v, busy) && Changes(w, w', k, o)
    ensures RuleOk(w', v, busy, n, r)
  {
    assert RuleOk(w, v, busy, n, r) && HistoryOk(w, v, busy, n);
    if !IngressDirty(w', n) && !DepsDirty(w', r) {
      ChangeIngress(w.cfg, w.caches, k, o, n);
      ChangeAgrees(w.cfg, w.caches, k, o, r);
      if Managed(w.cfg, w.caches, n) {
        var ing := IngressAt(w.caches, n).value;
        Locality(w.cfg, w.caches, w'.caches, n.namespace, ing, |ing.rules|, 0, r);
      }
    }
  }

  lemma ChangeKeeps(w: World, w': World, v: View, busy: set<Name>, k: Key, o: Option<Object>)
    requires ViewInv(w, v, busy) && Changes(w, w', k, o)
    ensures ViewInv(w', v, busy)
  {
    forall n, r ensures RuleOk(w', v, busy, n, r) {
      ChangeRuleOk(w, w', v, busy, k, o, n, r);
    }
    forall n ensures RouteOk(w', v, busy, n) {
      assert RouteOk(w, v, busy, n) && HistoryOk(w, v, busy, n);
      if !IngressDirty(w', n) {
        ChangeIngress(w.cfg, w.caches, k, o, n);
      }
    }
    forall n ensures HistoryOk(w', v, busy, n) {
      assert HistoryOk(w, v, busy, n);
    }
  }

  // ---------------------------------------------------------------- the translation in progress

  /** The cursor points at a rule and a path of the ingress, or at its end. */
  predicate Placed(cfg: Config, ns: string, ing: Ingress, at: Cursor) {
    && at.i <= |ing.rules|
    && (if at.i < |ing.rules| then at.j <= PathCount(ing, at.i) else at.j == 0)
    && (at.cert.None? ==> at.j == 0 && at.port.None?)
    && (at.cert.Some? ==> at.i < |ing.rules| && RuleSecret(cfg, ns, ing, at.i).Some?
                          && RuleSecret(cfg, ns, ing, at.i).value.name != "")
    && (at.port.Some? ==> at.i < |ing.rules| && at.j < PathCount(ing, at.i) && PathOk(PathAt(ing, at.i, at.j)))
  }

  /** What the worker has read is still so, unless its key is dirty. */
  ghost predicate ReadOk(w: World, ns: string, ing: Ingress, at: Cursor)
    requires Placed(w.cfg, ns, ing, at)
  {
    && (at.cert.Some? ==>
          var secret := RuleSecret(w.cfg, ns, ing, at.i).value;
          Key(SecretKind, secret) in w.dirty || VerifiedCert(w.cfg, w.caches, secret, ing.rules[at.i].host) == at.cert)
    && (at.port.Some? ==>
          var p := PathAt(ing, at.i, at.j);
          var service := Name(ns, p.serviceName);
          Key(ServiceKind, service) in w.dirty || ServicePortAt(w.caches, service, p.servicePort) == at.port)
  }

  /** The links attached so far are those of the paths passed so far, for every rule that is clean. */
  ghost predicate AttachedOk(w: World, ns: string, ing: Ingress, at: Cursor, r: Rule)
    requires Placed(w.cfg, ns, ing, at)
  {
    DepsDirty(w, r) || Get(at.links, r) == Get(LinksUpTo(w.cfg, w.caches, ns, ing, at.i, at.j), r)
  }

  ghost predicate CursorOk(w: World, ns: string, ing: Ingress, at: Cursor) {
    && Placed(w.cfg, ns, ing, at)
    && ReadOk(w, ns, ing, at)
    && (forall r :: AttachedOk(w, ns, ing, at, r))
    && (forall r <- at.links :: RefersToService(ns, ing, r.service) && RefersToSecret(w.cfg, ns, ing, r.secret))
  }

  lemma CursorStarts(w: World, ns: string, ing: Ingress)
    ensures CursorOk(w, ns, ing, TOP)
  {
  }

  /** A cache change keeps what the cursor knows about clean rules. */
  lemma ChangeKeepsCursor(w: World, w': World, ns: string, ing: Ingress, at: Cursor, k: Key, o: Option<Object>)
    requires WellFormed(w.caches) && CursorOk(w, ns, ing, at) && Changes(w, w', k, o)
    ensures CursorOk(w', ns, ing, at)
  {
    forall r ensures AttachedOk(w', ns, ing, at, r) {
      assert AttachedOk(w, ns, ing, at, r);
      if !DepsDirty(w', r) {
        ChangeAgrees(w.cfg, w.caches, k, o, r);
        Locality(w.cfg, w.caches, w'.caches, ns, ing, at.i, at.j, r);
      }
    }
    assert ReadOk(w', ns, ing, at) by {
      if at.cert.Some? {
        var secret := RuleSecret(w.cfg, ns, ing, at.i).value;
        var service := if at.port.Some? then Name(ns, PathAt(ing, at.i, at.j).serviceName) else secret;
        ReadStays(w, w', k, o, secret, service);
      }
    }
  }

  lemma ReadStays(w: World, w': World, k: Key, o: Option<Object>, secret: Name, service: Name)
    requires WellFormed(w.caches) && Changes(w, w', k, o)
    ensures Key(SecretKind, secret) in w'.dirty || CertAt(w'.caches, secret) == CertAt(w.caches, secret)
    ensures Key(ServiceKind, service) in w'.dirty || PortsAt(w'.caches, service) == PortsAt(w.caches, service)
  {
  }

  /** A rule with nothing more to give: its remaining paths attach no clean link. */
  lemma {:induction false} SkipRule(w: World, ns: string, ing: Ingress, i: nat, j: nat, r: Rule)
    requires i < |ing.rules| && j <= PathCount(ing, i)
    requires var s := RuleSecret(w.cfg, ns, ing, i); s.Some? ==> VerifiedCert(w.cfg, w.caches, s.value, ing.rules[i].host).None?
    ensures Get(LinksUpTo(w.cfg, w.caches, ns, ing, i + 1, 0), r) == Get(LinksUpTo(w.cfg, w.caches, ns, ing, i, 0), r)
  {
    RuleWithoutCert(w.cfg, w.caches, ns, ing, i, PathCount(ing, i));
  }

  /** The path asks for rule r, and the service has the port and the endpoints an address. */
  predicate Asks(w: World, ns: string, ing: Ingress, i: nat, j: nat, r: Rule)
    requires i < |ing.rules| && j < PathCount(ing, i)
  {
    var p := PathAt(ing, i, j);
    && PathOk(p)
    && RuleSecret(w.cfg, ns, ing, i) == Some(r.secret)
    && r.service == Name(ns, p.serviceName)
    && r.host == ing.rules[i].host
    && AddressAt(w.caches, r.service)
    && ServicePortAt(w.caches, r.service, p.servicePort) == Some(r.port)
  }

  /** With a certificate in hand, the path under the cursor attaches a clean rule just when it asks for it. */
  lemma PathAttaches(w: World, ns: string, ing: Ingress, at: Cursor, r: Rule)
    requires CursorOk(w, ns, ing, at) && at.i < |ing.rules| && at.cert.Some? && at.j < PathCount(ing, at.i)
    requires !DepsDirty(w, r)
    ensures var a := LinkAt(w.cfg, w.caches, ns, ing, at.i, at.j);
            && (a.Some? && a.value.rule == r <==> Asks(w, ns, ing, at.i, at.j, r))
            && (Asks(w, ns, ing, at.i, at.j, r) ==> a == Some(Attached(r, Spec(at.cert.value, ing.options))))
  {
  }

  /** Moving past the path under the cursor keeps the links of a clean rule exact. */
  lemma PathPassed(w: World, ns: string, ing: Ingress, at: Cursor, r: Rule)
    requires CursorOk(w, ns, ing, at) && at.i < |ing.rules| && at.cert.Some? && at.j < PathCount(ing, at.i)
    requires var p := PathAt(ing, at.i, at.j);
             !PathOk(p) || at.port.Some? || ServicePortAt(w.caches, Name(ns, p.serviceName), p.servicePort).None?
    ensures var at' := CursorStep(w.cfg, w.caches, ns, ing, at);
            at'.i == at.i && at'.j == at.j + 1
            && (DepsDirty(w, r) || Get(at'.links, r) == Get(LinksUpTo(w.cfg, w.caches, ns, ing, at.i, at.j + 1), r))
  {
    assert AttachedOk(w, ns, ing, at, r);
    if !DepsDirty(w, r) {
      PathAttaches(w, ns, ing, at, r);
    }
  }

  lemma StepAttaches(w: World, ns: string, ing: Ingress, at: Cursor, r: Rule)
    requires CursorOk(w, ns, ing, at) && at.i < |ing.rules|
    requires Placed(w.cfg, ns, ing, CursorStep(w.cfg, w.caches, ns, ing, at))
    ensures AttachedOk(w, ns, ing, CursorStep(w.cfg, w.caches, ns, ing, at), r)
  {
    assert AttachedOk(w, ns, ing, at, r);
    var secret := RuleSecret(w.cfg, ns, ing, at.i);
    if secret.None? || (at.cert.None? && VerifiedCert(w.cfg, w.caches, secret.value, ing.rules[at.i].host).None?) {
      SkipRule(w, ns, ing, at.i, 0, r);
    } else if at.cert.Some? && at.j < PathCount(ing, at.i) {
      StepAttachesPath(w, ns, ing, at, r);
    }
  }

  lemma StepAttachesPath(w: World, ns: string, ing: Ingress, at: Cursor, r: Rule)
    requires CursorOk(w, ns, ing, at) && at.i < |ing.rules| && at.cert.Some? && at.j < PathCount(ing, at.i)
    requires Placed(w.cfg, ns, ing, CursorStep(w.cfg, w.caches, ns, ing, at))
    ensures AttachedOk(w, ns, ing, CursorStep(w.cfg, w.caches, ns, ing, at), r)
  {
    assert AttachedOk(w, ns, ing, at, r);
    var p := PathAt(ing, at.i, at.j);
    if !PathOk(p) || at.port.Some? || ServicePortAt(w.caches, Name(ns, p.serviceName), p.servicePort).None? {
      PathPassed(w, ns, ing, at, r);
    }
  }

  lemma StepPlaced(w: World, ns: string, ing: Ingress, at: Cursor)
    requires WellFormed(w.caches) && CursorOk(w, ns, ing, at) && at.i < |ing.rules|
    ensures Placed(w.cfg, ns, ing, CursorStep(w.cfg, w.caches, ns, ing, at))
    ensures ReadOk(w, ns, ing, CursorStep(w.cfg, w.caches, ns, ing, at))
  {
  }

  lemma StepRefers(w: World, ns: string, ing: Ingress, at: Cursor, r: Rule)
    requires CursorOk(w, ns, ing, at) && at.i < |ing.rules|
    requires r in CursorStep(w.cfg, w.caches, ns, ing, at).links
    ensures RefersToService(ns, ing, r.service) && RefersToSecret(w.cfg, ns, ing, r.secret)
  {
    if r !in at.links {
      assert ServiceRef(ns, ing, at.i, at.j) == Some(r.service);
      TlsAgrees(ing.tls, r.host);
      assert IndexedSecret(w.cfg, ns, ing, at.i) == Some(r.secret);
    }
  }

  /** Each step of the translation keeps its invariant. */
  lemma StepKeepsCursor(w: World, ns: string, ing: Ingress, at: Cursor)
    requires WellFormed(w.caches) && CursorOk(w, ns, ing, at) && at.i < |ing.rules|
    ensures CursorOk(w, ns, ing, CursorStep(w.cfg, w.caches, ns, ing, at))
  {
    var at' := CursorStep(w.cfg, w.caches, ns, ing, at);
    StepPlaced(w, ns, ing, at);
    forall r ensures AttachedOk(w, ns, ing, at', r) {
      StepAttaches(w, ns, ing, at, r);
    }
    forall r | r in at'.links ensures RefersToService(ns, ing, r.service) && RefersToSecret(w.cfg, ns, ing, r.secret) {
      StepRefers(w, ns, ing, at, r);
    }
  }

  // ---------------------------------------------------------------- the whole system

  ghost function Backlog(cfg: Config, s: System): iset<Key> {
    iset k | k in s.queue || exists i :: 0 <= i < |s.notices| && s.notices[i].key == k && Enqueues(cfg, s.notices[i].was, s.notices[i].now)
  }

  /** The key the worker has taken without having read everything it needs for it. */
  ghost predicate InHand(ph: Phase, k: Key) {
    ph == Took(k) || (ph.Listing? && Key(ph.kind, ph.name) == k)
  }

  ghost function Dirty(cfg: Config, s: System): iset<Key> {
    iset k | k in Backlog(cfg, s) || InHand(s.worker, k)
  }

  ghost function WorldOf(cfg: Config, s: System): World {
    World(cfg, s.caches, Dirty(cfg, s), s.ever, s.left)
  }

  function InstallAll(v: View, routes: seq<Built>): View {
    if routes == [] then v
    else InstallAll(v, routes[..|routes| - 1])[routes[|routes| - 1].name := routes[|routes| - 1].links]
  }

  function DropView(v: View, kind: DepKind, n: Name, keys: set<Name>): View {
    map k | k in v :: if k in keys then Drop(v[k], kind, n) else v[k]
  }

  function Obey(v: View, o: Order): View {
    match o
    case Install(routes) => InstallAll(v, routes)
    case Remove(name) => v - {name}
    case Filter(kind, n, keys) => DropView(v, kind, n, keys)
  }

  /** What the router will hold once it has been given what the worker has computed so far. */
  function ViewOf(s: System): View {
    var v := Ownership.Specs(s.router);
    match s.worker
    case Translating(_, done, _) => InstallAll(v, done)
    case Applying(o) => Obey(v, o)
    case _ => v
  }

  function NamesOf(todo: seq<Job>): set<Name> {
    set i | 0 <= i < |todo| :: todo[i].name
  }

  function Busy(s: System): set<Name> {
    if s.worker.Translating? then NamesOf(s.worker.todo) else {}
  }

  /** The object is absent, or present without what a link needs of it. */
  predicate Dead(c: Caches, kind: DepKind, n: Name) {
    match kind
    case SecretKind => CertAt(c, n).None?
    case ServiceKind => PortsAt(c, n).None?
    case EndpointKind => !AddressAt(c, n)
  }

  ghost predicate JobOk(w: World, job: Job) {
    IngressDirty(w, job.name) || Exempt(w, job.name) || IngressAt(w.caches, job.name) == Some(job.ing)
  }

  ghost predicate PhaseInv(w: World, backlog: iset<Key>, ph: Phase) {
    && (ph.Listing? && !ph.present ==> Key(ph.kind, ph.name) in backlog || Dead(w.caches, ph.kind, ph.name))
    && (ph.Translating? ==>
          && (forall i :: 0 <= i < |ph.todo| ==> JobOk(w, ph.todo[i]))
          && (ph.todo != [] ==> CursorOk(w, ph.todo[0].name.namespace, ph.todo[0].ing, ph.at)))
  }

  /** Links await their stop only while the worker waits for them. */
  predicate InPlace(s: System) {
    s.router.stopping != {} ==> s.worker.Waiting? && s.router.stopping <= s.worker.links
  }

  /** The router side: ownership, link numbers below the next one, and stops only after a delete. */
  ghost predicate RouterInv(s: System) {
    && Ownership.Owned(s.router)
    && (forall t <- s.router.seen :: t.id < s.nextId)
    && InPlace(s)
  }

  ghost predicate Inv(cfg: Config, s: System) {
    && ViewInv(WorldOf(cfg, s), ViewOf(s), Busy(s))
    && PhaseInv(WorldOf(cfg, s), Backlog(cfg, s), s.worker)
    && RouterInv(s)
  }

  // ---------------------------------------------------------------- changes, notices, taking a key

  lemma ChangesWorld(cfg: Config, s: System, k: Key, o: Option<Object>)
    requires Enabled(cfg, s, Change(k, o))
    ensures Changes(WorldOf(cfg, s), WorldOf(cfg, ChangeStep(cfg, s, k, o)), k, o)
    ensures forall x :: x in Backlog(cfg, ChangeStep(cfg, s, k, o)) <==> x in Backlog(cfg, s) || (x == k && Enqueues(cfg, Get(s.caches, k), o))
  {
    var s' := ChangeStep(cfg, s, k, o);
    var n := |s.notices|;
    assert s'.notices[n] == Notice(k, Get(s.caches, k), o);
    forall x ensures x in Backlog(cfg, s') <==> x in Backlog(cfg, s) || (x == k && Enqueues(cfg, Get(s.caches, k), o)) {
      if x in Backlog(cfg, s) && x !in s.queue {
        var i :| 0 <= i < |s.notices| && s.notices[i].key == x && Enqueues(cfg, s.notices[i].was, s.notices[i].now);
        assert s'.notices[i] == s.notices[i];
      }
    }
  }

  lemma ChangeKept(cfg: Config, s: System, k: Key, o: Option<Object>)
    requires Inv(cfg, s) && Enabled(cfg, s, Change(k, o))
    ensures Inv(cfg, ChangeStep(cfg, s, k, o))
  {
    var s' := ChangeStep(cfg, s, k, o);
    var w, w' := WorldOf(cfg, s), WorldOf(cfg, s');
    ChangesWorld(cfg, s, k, o);
    ChangeKeeps(w, w', ViewOf(s), Busy(s), k, o);
    match s.worker
    case Listing(kind, name, present) =>
      DeadStays(w, w', k, o, kind, name);
    case Translating(todo, done, at) =>
      forall i | 0 <= i < |todo| ensures JobOk(w', todo[i]) {
        assert JobOk(w, todo[i]) && HistoryOk(w, ViewOf(s), Busy(s), todo[i].name);
        JobStays(w, w', k, o, todo[i], ViewOf(s), Busy(s));
      }
      if todo != [] {
        ChangeKeepsCursor(w, w', todo[0].name.namespace, todo[0].ing, at, k, o);
      }
    case _ =>
  }

  lemma DeadStays(w: World, w': World, k: Key, o: Option<Object>, kind: DepKind, n: Name)
    requires WellFormed(w.caches) && Changes(w, w', k, o)
    ensures Dead(w.caches, kind, n) ==> Dead(w'.caches, kind, n) || (k == Key(kind, n) && Enqueues(w.cfg, Get(w.caches, k), o))
  {
  }

  lemma JobStays(w: World, w': World, k: Key, o: Option<Object>, job: Job, v: View, busy: set<Name>)
    requires WellFormed(w.caches) && Changes(w, w', k, o) && JobOk(w, job) && job.name in busy && HistoryOk(w, v, busy, job.name)
    ensures JobOk(w', job)
  {
    if !IngressDirty(w', job.name) {
      ChangeIngress(w.cfg, w.caches, k, o, job.name);
    }
  }

  /** A notice in transit or on the queue is the same to the invariant. */
  lemma DeliverKept(cfg: Config, s: System, n: nat)
    requires Inv(cfg, s) && n < |s.notices|
    ensures Inv(cfg, DeliverStep(cfg, s, n))
  {
    DeliverBacklog(cfg, s, n);
    SameWorld(cfg, s, DeliverStep(cfg, s, n));
  }

  lemma DeliverBacklog(cfg: Config, s: System, n: nat)
    requires n < |s.notices|
    ensures forall k :: k in Backlog(cfg, DeliverStep(cfg, s, n)) <==> k in Backlog(cfg, s)
  {
    var s' := DeliverStep(cfg, s, n);
    forall k ensures k in Backlog(cfg, s') <==> k in Backlog(cfg, s) {
      if k in Backlog(cfg, s) && k !in s.queue {
        var i :| 0 <= i < |s.notices| && s.notices[i].key == k && Enqueues(cfg, s.notices[i].was, s.notices[i].now);
        if i != n {
          assert s'.notices[if i < n then i else i - 1] == s.notices[i];
        }
      }
      if k in Backlog(cfg, s') && k !in s'.queue {
        var i :| 0 <= i < |s'.notices| && s'.notices[i].key == k && Enqueues(cfg, s'.notices[i].was, s'.notices[i].now);
        assert s'.notices[i] == s.notices[if i < n then i else i + 1];
      }
    }
  }

  lemma SameWorld(cfg: Config, s: System, s': System)
    requires Inv(cfg, s)
    requires forall k :: k in Backlog(cfg, s') <==> k in Backlog(cfg, s)
    requires s' == s.(notices := s'.notices, queue := s'.queue)
    ensures Inv(cfg, s')
  {
    assert Backlog(cfg, s') == Backlog(cfg, s);
    assert Dirty(cfg, s') == Dirty(cfg, s);
  }

  lemma ResyncKept(cfg: Config, s: System, k: Key)
    requires Inv(cfg, s) && k in s.caches
    ensures Inv(cfg, Step(cfg, s, Resync(k)))
  {
    ResyncBacklog(cfg, s, k);
    SameWorld(cfg, s, Step(cfg, s, Resync(k)));
  }

  lemma ResyncBacklog(cfg: Config, s: System, k: Key)
    requires k in s.caches
    ensures forall x :: x in Backlog(cfg, Step(cfg, s, Resync(k))) <==> x in Backlog(cfg, s)
  {
    var s' := Step(cfg, s, Resync(k));
    forall x ensures x in Backlog(cfg, s') <==> x in Backlog(cfg, s) {
      if x in Backlog(cfg, s) && x !in s.queue {
        var i :| 0 <= i < |s.notices| && s.notices[i].key == x && Enqueues(cfg, s.notices[i].was, s.notices[i].now);
        assert s'.notices[i] == s.notices[i];
      }
      if x in Backlog(cfg, s') && x !in s'.queue {
        var i :| 0 <= i < |s'.notices| && s'.notices[i].key == x && Enqueues(cfg, s'.notices[i].was, s'.notices[i].now);
        assert i < |s.notices|;
      }
    }
  }

  lemma TakeKept(cfg: Config, s: System, k: Key)
    requires Inv(cfg, s) && s.worker.Idle? && k in s.queue
    ensures Inv(cfg, Step(cfg, s, Take(k)))
  {
    var s' := Step(cfg, s, Take(k));
    assert Dirty(cfg, s') == Dirty(cfg, s);
  }

  // ---------------------------------------------------------------- the worker's own steps

  /** The world once the worker has read what it needs for key k: k is dirty only if in the backlog. */
  ghost predicate Cleaned(w: World, w': World, k: Key) {
    w' == w.(dirty := w'.dirty) && w'.dirty <= w.dirty && forall x :: x in w.dirty && x != k ==> x in w'.dirty
  }

  lemma CleanedWorld(cfg: Config, s: System, k: Key, ph: Phase)
    requires InHand(s.worker, k) && (forall x :: !InHand(ph, x))
    ensures Cleaned(WorldOf(cfg, s), WorldOf(cfg, s.(worker := ph)), k)
    ensures Dirty(cfg, s.(worker := ph)) == Backlog(cfg, s)
  {
    assert Backlog(cfg, s.(worker := ph)) == Backlog(cfg, s);
  }

  /** Reading an ingress that is there: its route is now being translated. */
  lemma TakeUpIngress(w: World, w': World, v: View, n: Name, ing: Ingress)
    requires ViewInv(w, v, {}) && Cleaned(w, w', Key(IngressKind, n)) && IngressDirty(w, n)
    requires IngressAt(w.caches, n) == Some(ing)
    ensures ViewInv(w', v, {n})
  {
    forall m, r ensures RuleOk(w', v, {n}, m, r) { assert RuleOk(w, v, {}, m, r); }
    forall m ensures RouteOk(w', v, {n}, m) { assert RouteOk(w, v, {}, m); }
    forall m ensures HistoryOk(w', v, {n}, m) { assert HistoryOk(w, v, {}, m); }
  }

  /** Reading an ingress that is gone: without its route the view is right for it. */
  lemma TakeDownIngress(w: World, w': World, v: View, n: Name)
    requires ViewInv(w, v, {}) && Cleaned(w, w', Key(IngressKind, n)) && IngressAt(w.caches, n).None?
    ensures ViewInv(w', v - {n}, {})
  {
    forall m, r ensures RuleOk(w', v - {n}, {}, m, r) { assert RuleOk(w, v, {}, m, r); }
    forall m ensures RouteOk(w', v - {n}, {}, m) { assert RouteOk(w, v, {}, m); }
    forall m ensures HistoryOk(w', v - {n}, {}, m) { assert HistoryOk(w, v, {}, m); }
  }

  /** An ingress whose index does not list an object neither wants nor holds a rule that uses it. */
  lemma UnlistedIsRight(w: World, v: View, k: Key, n: Name, r: Rule)
    requires ViewInv(w, v, {}) && DependsOn(r, k) && !Exempt(w, n) && !IngressDirty(w, n)
    requires Managed(w.cfg, w.caches, n) ==> !Indexed(w.cfg, n.namespace, IngressAt(w.caches, n).value, k)
    ensures WantedAt(w, n, r).None? && HasAt(v, n, r).None?
  {
    assert RouteOk(w, v, {}, n);
    if Managed(w.cfg, w.caches, n) {
      var ing := IngressAt(w.caches, n).value;
      TranslateExact(w.cfg, w.caches, n.namespace, ing, r);
      if r in Translate(w.cfg, w.caches, n.namespace, ing) {
        LinksAreIndexed(w.cfg, w.caches, n.namespace, ing, |ing.rules|, 0, r);
        assert false;
      }
    }
  }

  /** Listing the ingresses of an object that is there: they are now being translated. */
  lemma TakeUpListing(w: World, w': World, v: View, k: Key, names: set<Name>)
    requires ViewInv(w, v, {}) && Cleaned(w, w', k) && k.kind != IngressKind
    requires forall n :: n in names <==> Managed(w.cfg, w.caches, n) && Indexed(w.cfg, n.namespace, IngressAt(w.caches, n).value, k)
    ensures ViewInv(w', v, names)
  {
    forall n, r ensures RuleOk(w', v, names, n, r) {
      assert RuleOk(w, v, {}, n, r);
      if n !in names && !Exempt(w, n) && !IngressDirty(w, n) && DependsOn(r, k) {
        UnlistedIsRight(w, v, k, n, r);
      }
    }
    forall n ensures RouteOk(w', v, names, n) { assert RouteOk(w, v, {}, n); }
    forall n ensures HistoryOk(w', v, names, n) { assert HistoryOk(w, v, {}, n); }
  }

  /** Listing the ingresses of an object that is gone: without its links the view is right. */
  lemma TakeDownListing(w: World, w': World, v: View, kind: DepKind, name: Name, names: set<Name>)
    requires ViewInv(w, v, {}) && Cleaned(w, w', Key(kind, name))
    requires Key(kind, name) in w'.dirty || Dead(w.caches, kind, name)
    requires forall n :: n in names <==>
               Managed(w.cfg, w.caches, n) && Indexed(w.cfg, n.namespace, IngressAt(w.caches, n).value, Key(kind, name))
    ensures ViewInv(w', DropView(v, kind, name, names), {})
  {
    var k, v' := Key(kind, name), DropView(v, kind, name, names);
    forall n, r ensures RuleOk(w', v', {}, n, r) {
      assert RuleOk(w, v, {}, n, r);
      DropRight(w, v, kind, name, names, n, r);
    }
    forall n ensures RouteOk(w', v', {}, n) { assert RouteOk(w, v, {}, n); }
    forall n ensures HistoryOk(w', v', {}, n) { assert HistoryOk(w, v, {}, n); }
  }

  lemma DropRight(w: World, v: View, kind: DepKind, name: Name, names: set<Name>, n: Name, r: Rule)
    requires ViewInv(w, v, {})
    requires forall n :: n in names <==>
               Managed(w.cfg, w.caches, n) && Indexed(w.cfg, n.namespace, IngressAt(w.caches, n).value, Key(kind, name))
    ensures ResourceOf(kind, r) != name ==> HasAt(DropView(v, kind, name, names), n, r) == HasAt(v, n, r) && !DependsOn(r, Key(kind, name))
    ensures ResourceOf(kind, r) == name && Dead(w.caches, kind, name) && !Exempt(w, n) && !IngressDirty(w, n) ==>
              WantedAt(w, n, r).None? && HasAt(DropView(v, kind, name, names), n, r).None?
  {
    if ResourceOf(kind, r) == name && Dead(w.caches, kind, name) && !Exempt(w, n) && !IngressDirty(w, n) {
      if n in names {
        TranslateExact(w.cfg, w.caches, n.namespace, IngressAt(w.caches, n).value, r);
      } else {
        UnlistedIsRight(w, v, Key(kind, name), n, r);
      }
    }
  }

  /** A finished translation is right for its ingress, unless that has changed meanwhile. */
  lemma FinishJob(w: World, v: View, todo: seq<Job>, at: Cursor)
    requires todo != [] && ViewInv(w, v, NamesOf(todo))
    requires JobOk(w, todo[0]) && CursorOk(w, todo[0].name.namespace, todo[0].ing, at) && at.i == |todo[0].ing.rules|
    ensures ViewInv(w, v[todo[0].name := at.links], NamesOf(todo[1..]))
  {
    var job, busy, busy', v' := todo[0], NamesOf(todo), NamesOf(todo[1..]), v[todo[0].name := at.links];
    assert forall n :: n in busy <==> n in busy' || n == job.name by {
      assert forall i :: 0 <= i < |todo[1..]| ==> todo[1..][i] == todo[i + 1];
    }
    assert HistoryOk(w, v, busy, job.name);
    forall n, r ensures RuleOk(w, v', busy', n, r) {
      assert RuleOk(w, v, busy, n, r);
      assert AttachedOk(w, job.name.namespace, job.ing, at, r);
    }
    forall n ensures RouteOk(w, v', busy', n) { assert RouteOk(w, v, busy, n); }
    forall n ensures HistoryOk(w, v', busy', n) { assert HistoryOk(w, v, busy, n); }
  }

  // ---------------------------------------------------------------- the router's side

  lemma MintIsNew(s: Router.State, links: Links, id: nat)
    requires forall t <- s.seen :: t.id < id
    ensures Fresh(s, Ownership.Mint(links, id))
    ensures forall t <- Ownership.Mint(links, id).Values :: t.id == id
  {
  }

  lemma EntriesAreNew(s: Router.State, routes: seq<Built>, id: nat)
    requires forall t <- s.seen :: t.id < id
    ensures FreshAll(s, Entries(routes, id))
  {
    var es := Entries(routes, id);
    forall i | 0 <= i < |es| ensures Fresh(s, es[i].route) && forall t <- es[i].route.Values :: t.id == id + i {
      MintIsNew(s, routes[i].links, id + i);
    }
  }

  /** Installing routes is installing all but the last, and then that one. */
  lemma InstallLast(s: Router.State, routes: seq<Built>, id: nat)
    requires routes != []
    ensures var n := |routes| - 1;
            UpdateAll(s, Entries(routes, id)) ==
            Update(UpdateAll(s, Entries(routes[..n], id)), routes[n].name, Ownership.Mint(routes[n].links, id + n))
  {
    var n := |routes| - 1;
    assert Entries(routes, id)[..n] == Entries(routes[..n], id);
  }

  lemma {:induction false} InstallIds(s: Router.State, routes: seq<Built>, id: nat)
    requires forall t <- s.seen :: t.id < id
    ensures var s' := UpdateAll(s, Entries(routes, id));
            s'.stopping == s.stopping && forall t <- s'.seen :: t.id < id + |routes|
  {
    if routes != [] {
      var n := |routes| - 1;
      InstallIds(s, routes[..n], id);
      InstallLast(s, routes, id);
      MintIsNew(UpdateAll(s, Entries(routes[..n], id)), routes[n].links, id + n);
    }
  }

  lemma InstallOwned(s: Router.State, routes: seq<Built>, id: nat)
    requires Ownership.Owned(s) && forall t <- s.seen :: t.id < id
    ensures Ownership.Owned(UpdateAll(s, Entries(routes, id)))
  {
    EntriesAreNew(s, routes, id);
    Ownership.UpdateAllOwned(s, Entries(routes, id));
  }

  /** What a view becomes when the entries are applied to it. */
  function ApplyEntries(v: View, es: seq<Entry>): View {
    if es == [] then v
    else ApplyEntries(v, es[..|es| - 1])[es[|es| - 1].key := Ownership.SpecsOf(es[|es| - 1].route)]
  }

  lemma {:induction false} UpdateAllSpecs(s: Router.State, es: seq<Entry>)
    ensures Ownership.Specs(UpdateAll(s, es)) == ApplyEntries(Ownership.Specs(s), es)
  {
    if es != [] {
      var n := |es| - 1;
      UpdateAllSpecs(s, es[..n]);
      Ownership.UpdateSpecs(UpdateAll(s, es[..n]), es[n].key, es[n].route);
    }
  }

  lemma {:induction false} EntriesInstall(v: View, routes: seq<Built>, id: nat)
    ensures ApplyEntries(v, Entries(routes, id)) == InstallAll(v, routes)
  {
    if routes != [] {
      var n := |routes| - 1;
      EntriesInstall(v, routes[..n], id);
      assert Entries(routes, id)[..n] == Entries(routes[..n], id);
      assert Ownership.SpecsOf(Ownership.Mint(routes[n].links, id + n)) == routes[n].links;
    }
  }

  lemma InstallSpecs(s: Router.State, routes: seq<Built>, id: nat)
    ensures Ownership.Specs(UpdateAll(s, Entries(routes, id))) == InstallAll(Ownership.Specs(s), routes)
  {
    UpdateAllSpecs(s, Entries(routes, id));
    EntriesInstall(Ownership.Specs(s), routes, id);
  }

  lemma DeleteRouteSpecs(s: Router.State, n: Name)
    ensures Ownership.Specs(DeleteRoute(s, n)) == Ownership.Specs(s) - {n}
  {
  }

  lemma DeleteKindSpecs(s: Router.State, kind: DepKind, n: Name, keys: set<Name>)
    ensures Ownership.Specs(DeleteKind(s, kind, n, keys)) == DropView(Ownership.Specs(s), kind, n, keys)
  {
    var l, r := Ownership.Specs(DeleteKind(s, kind, n, keys)), DropView(Ownership.Specs(s), kind, n, keys);
    forall k | k in s.items ensures l[k] == r[k] {
      DropSpecs(s.items[k], kind, n);
    }
  }

  lemma DropSpecs(route: Route, kind: DepKind, n: Name)
    ensures Ownership.SpecsOf(Drop(route, kind, n)) == Drop(Ownership.SpecsOf(route), kind, n)
  {
  }

  /** Applying an order turns what the router was to hold into what it holds. */
  lemma ApplyView(s: System)
    requires RouterInv(s) && s.worker.Applying?
    ensures var s' := ApplyStep(s, s.worker.order); ViewOf(s') == ViewOf(s) && RouterInv(s')
  {
    match s.worker.order
    case Install(routes) =>
      InstallOwned(s.router, routes, s.nextId);
      InstallIds(s.router, routes, s.nextId);
      InstallSpecs(s.router, routes, s.nextId);
    case Remove(n) =>
      Ownership.DeleteRouteOwned(s.router, n);
      DeleteRouteSpecs(s.router, n);
    case Filter(kind, n, keys) =>
      Ownership.DeleteKindOwned(s.router, kind, n, keys);
      DeleteKindSpecs(s.router, kind, n, keys);
  }

  lemma QuietPhase(cfg: Config, s: System, s': System)
    requires Inv(cfg, s) && (forall k :: !InHand(s.worker, k)) && (forall k :: !InHand(s'.worker, k))
    requires s' == s.(worker := s'.worker, router := s'.router, nextId := s'.nextId)
    requires ViewOf(s') == ViewOf(s) && Busy(s') == Busy(s) && RouterInv(s')
    requires !s'.worker.Translating? && !s'.worker.Listing?
    ensures Inv(cfg, s')
  {
    assert Backlog(cfg, s') == Backlog(cfg, s);
    assert Dirty(cfg, s') == Dirty(cfg, s);
  }

  lemma ApplyKept(cfg: Config, s: System)
    requires Inv(cfg, s) && s.worker.Applying?
    ensures Inv(cfg, ApplyStep(s, s.worker.order))
  {
    ApplyView(s);
    QuietPhase(cfg, s, ApplyStep(s, s.worker.order));
  }

  lemma StopKept(cfg: Config, s: System, t: Tunnel)
    requires Inv(cfg, s) && t in s.router.stopping
    ensures Inv(cfg, Step(cfg, s, StopRuns(t)))
  {
    var s' := Step(cfg, s, StopRuns(t));
    Ownership.FinishStopOwned(s.router, t);
    assert Backlog(cfg, s') == Backlog(cfg, s);
    assert Dirty(cfg, s') == Dirty(cfg, s);
  }

  // ---------------------------------------------------------------- every step

  lemma TookKept(cfg: Config, s: System)
    requires Inv(cfg, s) && s.worker.Took?
    ensures Inv(cfg, WorkStep(cfg, s, []))
  {
    var k, s' := s.worker.key, WorkStep(cfg, s, []);
    var w, w' := WorldOf(cfg, s), WorldOf(cfg, s');
    if k.kind != IngressKind {
      assert Backlog(cfg, s') == Backlog(cfg, s);
      assert Dirty(cfg, s') == Dirty(cfg, s);
    } else {
      CleanedWorld(cfg, s, k, s'.worker);
      if IngressAt(s.caches, k.name).Some? {
        var ing := IngressAt(s.caches, k.name).value;
        TakeUpIngress(w, w', ViewOf(s), k.name, ing);
        assert s'.worker.todo[0].name == k.name;
        assert NamesOf(s'.worker.todo) == {k.name};
        CursorStarts(w', k.name.namespace, ing);
      } else {
        TakeDownIngress(w, w', ViewOf(s), k.name);
      }
    }
  }

  lemma ListingKept(cfg: Config, s: System, listed: seq<Name>)
    requires Inv(cfg, s) && s.worker.Listing? && Enabled(cfg, s, Work(listed))
    ensures Inv(cfg, WorkStep(cfg, s, listed))
  {
    var k, s' := Key(s.worker.kind, s.worker.name), WorkStep(cfg, s, listed);
    var w, w' := WorldOf(cfg, s), WorldOf(cfg, s');
    CleanedWorld(cfg, s, k, s'.worker);
    if s.worker.present {
      var jobs := Jobs(s.caches, listed);
      assert NamesOf(jobs) == Named(listed) by {
        assert forall i :: 0 <= i < |jobs| ==> jobs[i].name == listed[i];
      }
      TakeUpListing(w, w', ViewOf(s), k, Named(listed));
      if jobs != [] {
        CursorStarts(w', jobs[0].name.namespace, jobs[0].ing);
      }
    } else {
      TakeDownListing(w, w', ViewOf(s), s.worker.kind, s.worker.name, Named(listed));
    }
  }

  lemma TranslatingKept(cfg: Config, s: System)
    requires Inv(cfg, s) && s.worker.Translating?
    ensures Inv(cfg, WorkStep(cfg, s, []))
  {
    var s' := WorkStep(cfg, s, []);
    var w, todo, at := WorldOf(cfg, s), s.worker.todo, s.worker.at;
    assert Backlog(cfg, s') == Backlog(cfg, s);
    assert Dirty(cfg, s') == Dirty(cfg, s);
    if todo == [] {
      assert NamesOf(todo) == {};
    } else if at.i >= |todo[0].ing.rules| {
      FinishJob(w, ViewOf(s), todo, at);
      InstallOneMore(Ownership.Specs(s.router), s.worker.done, Built(todo[0].name, at.links));
      if todo[1..] != [] {
        CursorStarts(w, todo[1].name.namespace, todo[1].ing);
      }
    } else {
      StepKeepsCursor(w, todo[0].name.namespace, todo[0].ing, at);
    }
  }

  lemma InstallOneMore(v: View, done: seq<Built>, b: Built)
    ensures InstallAll(v, done + [b]) == InstallAll(v, done)[b.name := b.links]
  {
    assert (done + [b])[..|done|] == done;
  }

  lemma StepKept(cfg: Config, s: System, a: Action)
    requires Inv(cfg, s) && Enabled(cfg, s, a)
    ensures Inv(cfg, Step(cfg, s, a))
  {
    match a
    case Change(k, o) => ChangeKept(cfg, s, k, o);
    case Resync(k) => ResyncKept(cfg, s, k);
    case Deliver(n) => DeliverKept(cfg, s, n);
    case Take(k) => TakeKept(cfg, s, k);
    case StopRuns(t) => StopKept(cfg, s, t);
    case Work(listed) =>
      match s.worker
      case Took(_) => TookKept(cfg, s);
      case Listing(_, _, _) => ListingKept(cfg, s, listed);
      case Translating(_, _, _) => TranslatingKept(cfg, s);
      case Applying(_) => ApplyKept(cfg, s);
      case Waiting(_) => QuietPhase(cfg, s, Step(cfg, s, a));
  }

  lemma InitInv(cfg: Config)
    ensures Inv(cfg, INIT)
  {
    assert Backlog(cfg, INIT) == iset{};
    assert Dirty(cfg, INIT) == iset{};
  }

  lemma {:induction false} InvAlways(cfg: Config, s: System, acts: seq<Action>, s': System)
    requires Inv(cfg, s) && Runs(cfg, s, acts, s')
    ensures Inv(cfg, s')
    decreases |acts|
  {
    if acts != [] {
      StepKept(cfg, s, acts[0]);
      InvAlways(cfg, Step(cfg, s, acts[0]), acts[1..], s');
    }
  }

  // ---------------------------------------------------------------- convergence

  /**
    Convergence, name by name, with ingress classes free to change: in a quiescent state a cached
    ingress of the controller's class has a route that equals its translation from scratch, and a
    name without such an ingress has no route unless an ingress of another class has been stored
    under it since the last one of the class.
   */
  lemma ConvergesFor(cfg: Config, acts: seq<Action>, s: System, n: Name)
    requires Runs(cfg, INIT, acts, s) && Quiescent(s)
    ensures Managed(cfg, s.caches, n) ==>
              n in s.router.items
              && Ownership.SpecsOf(s.router.items[n]) == Translate(cfg, s.caches, n.namespace, IngressAt(s.caches, n).value)
    ensures !Managed(cfg, s.caches, n) && n !in s.left ==> n !in s.router.items
  {
    InitInv(cfg);
    InvAlways(cfg, INIT, acts, s);
    ManagedIsNotLeft(cfg, s, n);
    if n !in s.left {
      QuietIsRight(cfg, s, n);
    }
  }

  lemma ManagedIsNotLeft(cfg: Config, s: System, n: Name)
    requires Inv(cfg, s)
    ensures Managed(cfg, s.caches, n) ==> n !in s.left
  {
    assert HistoryOk(WorldOf(cfg, s), ViewOf(s), Busy(s), n);
  }

  lemma NothingIsDirty(cfg: Config, s: System)
    requires Quiescent(s)
    ensures Dirty(cfg, s) == iset{}
  {
  }

  lemma QuietIsRight(cfg: Config, s: System, n: Name)
    requires Inv(cfg, s) && Quiescent(s) && n !in s.left
    ensures n in s.router.items <==> Managed(cfg, s.caches, n)
    ensures Managed(cfg, s.caches, n) ==>
              Ownership.SpecsOf(s.router.items[n]) == Translate(cfg, s.caches, n.namespace, IngressAt(s.caches, n).value)
  {
    NothingIsDirty(cfg, s);
    var w, v := WorldOf(cfg, s), ViewOf(s);
    assert RouteOk(w, v, {}, n);
    if Managed(cfg, s.caches, n) {
      var t := Translate(cfg, s.caches, n.namespace, IngressAt(s.caches, n).value);
      forall r ensures Get(v[n], r) == Get(t, r) {
        assert RuleOk(w, v, {}, n, r);
      }
      SameMap(v[n], t);
    }
  }

  /** What a translation of the caches from scratch gives. */
  ghost function FromScratch(cfg: Config, c: Caches): View {
    map n | n in (set k <- c :: k.name) && Managed(cfg, c, n) :: Translate(cfg, c, n.namespace, IngressAt(c, n).value)
  }

  lemma QuietIsTranslation(cfg: Config, s: System)
    requires Inv(cfg, s) && Quiescent(s)
    ensures Ownership.Specs(s.router) - s.left == FromScratch(cfg, s.caches)
  {
    var v, f := Ownership.Specs(s.router) - s.left, FromScratch(cfg, s.caches);
    forall n ensures Get(v, n) == Get(f, n) {
      ManagedIsNotLeft(cfg, s, n);
      if n !in s.left {
        QuietIsRight(cfg, s, n);
        assert Managed(cfg, s.caches, n) ==> Key(IngressKind, n) in s.caches;
      }
    }
    SameMap(v, f);
  }

  /**
    Convergence: in every quiescent state the router holds exactly the translation of the caches,
    but for names that an ingress left the class under and none of the class has come back to.
   */
  lemma Converges(cfg: Config, acts: seq<Action>, s: System)
    requires Runs(cfg, INIT, acts, s) && Quiescent(s)
    ensures Ownership.Specs(s.router) - s.left == FromScratch(cfg, s.caches)
  {
    InitInv(cfg);
    InvAlways(cfg, INIT, acts, s);
    QuietIsTranslation(cfg, s);
  }

  /**
    And what runs is what is wanted: in a quiescent state every running tunnel is the one link of a
    rule that the caches ask for, with its certificate and options, or of a name that left the
    class; and every rule that the caches ask for has one.
   */
  lemma RunningIsWanted(cfg: Config, acts: seq<Action>, s: System)
    requires Runs(cfg, INIT, acts, s) && Quiescent(s)
    ensures forall t <- s.router.running ::
              exists n :: n in s.router.items && Ownership.HeldAt(s.router, n, t)
                          && (n in s.left || WantedAt(WorldOf(cfg, s), n, t.rule) == Some(t.spec))
    ensures forall n, r :: WantedAt(WorldOf(cfg, s), n, r).Some? ==>
              n in s.router.items && r in s.router.items[n] && s.router.items[n][r] in s.router.running
  {
    InitInv(cfg);
    InvAlways(cfg, INIT, acts, s);
    forall t | t in s.router.running
      ensures exists n :: n in s.router.items && Ownership.HeldAt(s.router, n, t)
                          && (n in s.left || WantedAt(WorldOf(cfg, s), n, t.rule) == Some(t.spec))
    {
      assert Ownership.Held(s.router, t);
      var n :| n in s.router.items && Ownership.HeldAt(s.router, n, t);
      if n !in s.left {
        QuietIsRight(cfg, s, n);
        assert Ownership.SpecsOf(s.router.items[n])[t.rule] == t.spec;
      }
    }
    forall n, r | WantedAt(WorldOf(cfg, s), n, r).Some?
      ensures n in s.router.items && r in s.router.items[n] && s.router.items[n][r] in s.router.running
    {
      ManagedIsNotLeft(cfg, s, n);
      QuietIsRight(cfg, s, n);
      assert r in Ownership.SpecsOf(s.router.items[n]);
      assert Ownership.HeldAt(s.router, n, s.router.items[n][r]);
      assert Ownership.Held(s.router, s.router.items[n][r]);
    }
  }
}
