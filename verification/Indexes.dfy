/**
  The ingress indexes by secret and by service, and why they are enough: what a translation can
  depend on, what removing one object does to it, and which edits leave it unchanged.
 */
module Indexes {
  import opened Base
  import opened Cluster
  import opened Translation

  /** The TLS secret names as the index collects them: entries without a secret name are ignored. */
  function IndexNames(tls: seq<Tls>): map<string, string> {
    if tls == [] then map[]
    else
      var names, last := IndexNames(tls[..|tls| - 1]), tls[|tls| - 1];
      if last.secretName == "" then names else PutHosts(names, last.hosts, last.secretName)
  }

  /** The secret the index records for the i-th rule. */
  function IndexedSecret(cfg: Config, ns: string, ing: Ingress, i: nat): Option<Name>
    requires i < |ing.rules|
  {
    if ing.rules[i].http.None? || ing.rules[i].host == "" then None
    else Resolve(cfg, IndexNames(ing.tls), ns, ing.rules[i].host)
  }

  ghost predicate RefersToSecret(cfg: Config, ns: string, ing: Ingress, n: Name) {
    exists i :: 0 <= i < |ing.rules| && IndexedSecret(cfg, ns, ing, i) == Some(n)
  }

  ghost predicate RefersToService(ns: string, ing: Ingress, n: Name) {
    exists i, j :: 0 <= i < |ing.rules| && 0 <= j < PathCount(ing, i) && ServiceRef(ns, ing, i, j) == Some(n)
  }

  function ServiceRef(ns: string, ing: Ingress, i: nat, j: nat): Option<Name>
    requires i < |ing.rules| && j < PathCount(ing, i)
  {
    if ing.rules[i].host == "" || PathAt(ing, i, j).serviceName == "" then None
    else Some(Name(ns, PathAt(ing, i, j).serviceName))
  }

  // ---------------------------------------------------------------- the index functions

  /** Entry i is the last with a secret name that lists the host. */
  ghost predicate LastNamedEntry(tls: seq<Tls>, h: string, i: int) {
    && 0 <= i < |tls| && tls[i].secretName != "" && h in tls[i].hosts
    && forall j :: i < j < |tls| && tls[j].secretName != "" ==> h !in tls[j].hosts
  }

  /** The host is mapped to the name in the last entry that lists it and has one, if there is one. */
  ghost predicate FromLastNamedEntry(names: map<string, string>, tls: seq<Tls>, h: string) {
    && (h in names ==> exists i :: LastNamedEntry(tls, h, i))
    && (forall i :: LastNamedEntry(tls, h, i) ==> h in names && names[h] == tls[i].secretName)
  }

  lemma {:induction false} IndexNamesExact(tls: seq<Tls>, h: string)
    ensures FromLastNamedEntry(IndexNames(tls), tls, h)
  {
    if tls != [] {
      var n := |tls| - 1;
      IndexNamesExact(tls[..n], h);
      OneMoreNamedEntry(IndexNames(tls[..n]), tls[..n], tls[n], h);
      assert tls[..n] + [tls[n]] == tls;
    }
  }

  lemma OneMoreNamedEntry(names: map<string, string>, tls: seq<Tls>, last: Tls, h: string)
    requires FromLastNamedEntry(names, tls, h)
    ensures FromLastNamedEntry(if last.secretName == "" then names else PutHosts(names, last.hosts, last.secretName), tls + [last], h)
  {
    var more := tls + [last];
    if h in last.hosts && last.secretName != "" {
      assert LastNamedEntry(more, h, |tls|);
    } else if i :| LastNamedEntry(tls, h, i) {
      assert LastNamedEntry(more, h, i);
    }
    forall i | LastNamedEntry(more, h, i) && i < |tls| ensures LastNamedEntry(tls, h, i) {
      assert forall j :: i < j < |tls| ==> more[j] == tls[j];
    }
  }

  method CollectIndexTls(tls: seq<Tls>) returns (names: map<string, string>)
    ensures names == IndexNames(tls)
    ensures forall h :: FromLastNamedEntry(names, tls, h)
  {
    names := map[];
    for n := 0 to |tls|
      invariant names == IndexNames(tls[..n])
    {
      ghost var before := names;
      for m := 0 to |tls[n].hosts|
        invariant names == if tls[n].secretName == "" then before else PutHosts(before, tls[n].hosts[..m], tls[n].secretName)
      {
        if |tls[n].secretName| > 0 {
          names := names[tls[n].hosts[m] := tls[n].secretName];
        }
        assert tls[n].hosts[..m + 1][..m] == tls[n].hosts[..m];
      }
      assert tls[n].hosts[..|tls[n].hosts|] == tls[n].hosts;
      assert tls[..n + 1][..n] == tls[..n];
    }
    assert tls[..|tls|] == tls;
    forall h { IndexNamesExact(tls, h); }
  }

  /**
    The secret the index has for a host: what the last TLS entry with a secret name that lists it
    names; else the host's own; else that of the domain it lies directly under; else the default.
   */
  ghost predicate IndexedFor(cfg: Config, ns: string, tls: seq<Tls>, host: string, secret: Name) {
    if exists i :: 0 <= i < |tls| && tls[i].secretName != "" && host in tls[i].hosts then
      exists i :: LastNamedEntry(tls, host, i) && secret == Name(ns, tls[i].secretName)
    else if host in cfg.origins then secret == cfg.origins[host]
    else if exists d :: d in cfg.domains && Under(host, d) then
      exists d :: d in cfg.domains && Under(host, d) && secret == cfg.domains[d]
    else cfg.fallback == Some(secret)
  }

  lemma IndexedForExact(cfg: Config, ns: string, tls: seq<Tls>, host: string, secret: Name)
    ensures Resolve(cfg, IndexNames(tls), ns, host) == Some(secret) <==> IndexedFor(cfg, ns, tls, host, secret)
  {
    IndexNamesExact(tls, host);
    if i :| 0 <= i < |tls| && tls[i].secretName != "" && host in tls[i].hosts {
      NamedHasLast(tls, host, i);
    } else {
      forall d { ParseDomainExact(host, d); }
    }
  }

  lemma {:induction false} NamedHasLast(tls: seq<Tls>, host: string, i: nat)
    requires i < |tls| && tls[i].secretName != "" && host in tls[i].hosts
    ensures exists j :: LastNamedEntry(tls, host, j)
    decreases |tls| - i
  {
    if j :| i < j < |tls| && tls[j].secretName != "" && host in tls[j].hosts {
      NamedHasLast(tls, host, j);
    } else {
      assert LastNamedEntry(tls, host, i);
    }
  }

  /** Some rule with a host and paths has the secret. */
  ghost predicate HasSecret(cfg: Config, ns: string, ing: Ingress, n: Name) {
    exists i :: 0 <= i < |ing.rules| && ing.rules[i].http.Some? && ing.rules[i].host != ""
                && IndexedFor(cfg, ns, ing.tls, ing.rules[i].host, n)
  }

  lemma HasSecretExact(cfg: Config, ns: string, ing: Ingress, n: Name)
    ensures HasSecret(cfg, ns, ing, n) <==> RefersToSecret(cfg, ns, ing, n)
  {
    forall i | 0 <= i < |ing.rules| { IndexedForExact(cfg, ns, ing.tls, ing.rules[i].host, n); }
    if i :| 0 <= i < |ing.rules| && ing.rules[i].http.Some? && ing.rules[i].host != ""
            && IndexedFor(cfg, ns, ing.tls, ing.rules[i].host, n) {
      assert IndexedSecret(cfg, ns, ing, i) == Some(n);
    }
  }

  method SecretIndex(cfg: Config, ns: string, ing: Ingress) returns (idx: seq<Name>)
    ensures forall n :: n in idx <==> Matches(cfg, ing) && RefersToSecret(cfg, ns, ing, n)
    ensures forall n :: n in idx <==> ing.ingressClass == Some(cfg.ingressClass) && HasSecret(cfg, ns, ing, n)
  {
    forall n { HasSecretExact(cfg, ns, ing, n); }
    idx := [];
    if ing.ingressClass != Some(cfg.ingressClass) {
      return;
    }
    var names := CollectIndexTls(ing.tls);
    for i := 0 to |ing.rules|
      invariant forall n :: n in idx <==> exists k :: 0 <= k < i && IndexedSecret(cfg, ns, ing, k) == Some(n)
    {
      var rule := ing.rules[i];
      assert IndexedSecret(cfg, ns, ing, i).Some? ==> rule.http.Some?;
      if rule.http.Some? && |rule.host| > 0 {
        var r := Resolve(cfg, names, ns, rule.host);
        if r.Some? {
          idx := idx + [r.value];
        }
      }
    }
  }

  /** Some path of a rule with a host names the service. */
  ghost predicate HasService(ns: string, ing: Ingress, n: Name) {
    exists i, j :: 0 <= i < |ing.rules| && ing.rules[i].host != "" && ing.rules[i].http.Some?
                   && 0 <= j < |ing.rules[i].http.value| && ing.rules[i].http.value[j].serviceName != ""
                   && n == Name(ns, ing.rules[i].http.value[j].serviceName)
  }

  lemma HasServiceExact(ns: string, ing: Ingress, n: Name)
    ensures HasService(ns, ing, n) <==> RefersToService(ns, ing, n)
  {
    if i, j :| 0 <= i < |ing.rules| && ing.rules[i].host != "" && ing.rules[i].http.Some?
               && 0 <= j < |ing.rules[i].http.value| && ing.rules[i].http.value[j].serviceName != ""
               && n == Name(ns, ing.rules[i].http.value[j].serviceName) {
      assert ServiceRef(ns, ing, i, j) == Some(n);
    }
    if i, j :| 0 <= i < |ing.rules| && 0 <= j < PathCount(ing, i) && ServiceRef(ns, ing, i, j) == Some(n) {
      assert ing.rules[i].http.value[j].serviceName != "";
    }
  }

  method ServiceIndex(cfg: Config, ns: string, ing: Ingress) returns (idx: seq<Name>)
    ensures forall n :: n in idx <==> Matches(cfg, ing) && RefersToService(ns, ing, n)
    ensures forall n :: n in idx <==> ing.ingressClass == Some(cfg.ingressClass) && HasService(ns, ing, n)
  {
    forall n { HasServiceExact(ns, ing, n); }
    idx := [];
    if ing.ingressClass != Some(cfg.ingressClass) {
      return;
    }
    for i := 0 to |ing.rules|
      invariant forall n :: n in idx <==>
        exists k, j :: 0 <= k < i && 0 <= j < PathCount(ing, k) && ServiceRef(ns, ing, k, j) == Some(n)
    {
      var rule := ing.rules[i];
      if rule.http.Some? && |rule.host| > 0 {
        ghost var before := idx;
        for m := 0 to |rule.http.value|
          invariant forall n :: n in idx <==>
            n in before || exists j :: 0 <= j < m && ServiceRef(ns, ing, i, j) == Some(n)
        {
          assert ServiceRef(ns, ing, i, m).Some? <==> rule.http.value[m].serviceName != "";
          if |rule.http.value[m].serviceName| > 0 {
            idx := idx + [Name(ns, rule.http.value[m].serviceName)];
          }
        }
      }
    }
  }

  // ---------------------------------------------------------------- dependency completeness

  /** Where the translator finds a TLS secret with a name, the index finds the same one. */
  lemma {:induction false} TlsAgrees(tls: seq<Tls>, h: string)
    ensures h in TlsNames(tls) && TlsNames(tls)[h] != "" ==> h in IndexNames(tls) && IndexNames(tls)[h] == TlsNames(tls)[h]
    ensures h !in TlsNames(tls) ==> h !in IndexNames(tls)
  {
    if tls != [] {
      TlsAgrees(tls[..|tls| - 1], h);
    }
  }

  /** A link's service is indexed, and so is its secret unless that has no name. */
  lemma LinkIsIndexed(cfg: Config, c: Caches, ns: string, ing: Ingress, i: nat, j: nat)
    requires i < |ing.rules| && j < PathCount(ing, i) && LinkAt(cfg, c, ns, ing, i, j).Some?
    ensures var r := LinkAt(cfg, c, ns, ing, i, j).value.rule;
            RefersToService(ns, ing, r.service) && (r.secret.name != "" ==> RefersToSecret(cfg, ns, ing, r.secret))
  {
    var r := LinkAt(cfg, c, ns, ing, i, j).value.rule;
    TlsAgrees(ing.tls, r.host);
    assert ServiceRef(ns, ing, i, j) == Some(r.service);
    if r.secret.name != "" {
      assert IndexedSecret(cfg, ns, ing, i) == Some(r.secret);
    }
  }

  lemma {:induction false} LinksAreIndexed(cfg: Config, c: Caches, ns: string, ing: Ingress, i: nat, j: nat, r: Rule)
    requires i <= |ing.rules| && (if i < |ing.rules| then j <= PathCount(ing, i) else j == 0)
    requires r in LinksUpTo(cfg, c, ns, ing, i, j)
    ensures RefersToService(ns, ing, r.service) && (r.secret.name != "" ==> RefersToSecret(cfg, ns, ing, r.secret))
    decreases i, j
  {
    if j > 0 {
      var a := LinkAt(cfg, c, ns, ing, i, j - 1);
      if a.Some? && a.value.rule == r {
        LinkIsIndexed(cfg, c, ns, ing, i, j - 1);
      } else {
        LinksAreIndexed(cfg, c, ns, ing, i, j - 1, r);
      }
    } else if i > 0 {
      LinksAreIndexed(cfg, c, ns, ing, i - 1, PathCount(ing, i - 1), r);
    }
  }

  /** The caches agree on all that decides whether, and how, rule r is attached. */
  predicate Agree(c: Caches, c': Caches, r: Rule) {
    && CertAt(c, r.secret) == CertAt(c', r.secret)
    && PortsAt(c, r.service) == PortsAt(c', r.service)
    && AddressAt(c, r.service) == AddressAt(c', r.service)
  }

  /** Whether a rule is translated depends on its own secret, service and endpoints alone. */
  lemma {:induction false} Locality(cfg: Config, c: Caches, c': Caches, ns: string, ing: Ingress, i: nat, j: nat, r: Rule)
    requires i <= |ing.rules| && (if i < |ing.rules| then j <= PathCount(ing, i) else j == 0)
    requires Agree(c, c', r)
    ensures Get(LinksUpTo(cfg, c, ns, ing, i, j), r) == Get(LinksUpTo(cfg, c', ns, ing, i, j), r)
    decreases i, j
  {
    if j > 0 {
      Locality(cfg, c, c', ns, ing, i, j - 1, r);
      var a, a' := LinkAt(cfg, c, ns, ing, i, j - 1), LinkAt(cfg, c', ns, ing, i, j - 1);
      assert a.Some? && a.value.rule == r ==> a' == a;
      assert a'.Some? && a'.value.rule == r ==> a' == a;
    } else if i > 0 {
      Locality(cfg, c, c', ns, ing, i - 1, PathCount(ing, i - 1), r);
    }
  }

  /** The index of an ingress lists the object, the kind of an Endpoints being indexed as a Service. */
  ghost predicate Indexed(cfg: Config, ns: string, ing: Ingress, k: Key) {
    match k.kind
    case IngressKind => false
    case SecretKind => RefersToSecret(cfg, ns, ing, k.name)
    case ServiceKind => RefersToService(ns, ing, k.name)
    case EndpointKind => RefersToService(ns, ing, k.name)
  }

  /**
    Dependency completeness: two caches that agree on every object in the indexes of an ingress, and
    on secrets without a name, give it the same translation.
   */
  lemma IndexesAreComplete(cfg: Config, c: Caches, c': Caches, ns: string, ing: Ingress)
    requires forall k: Key :: Indexed(cfg, ns, ing, k) || k.name.name == "" ==> BodyAt(c, k) == BodyAt(c', k)
    ensures Translate(cfg, c, ns, ing) == Translate(cfg, c', ns, ing)
  {
    var t, t' := Translate(cfg, c, ns, ing), Translate(cfg, c', ns, ing);
    forall r: Rule ensures Get(t, r) == Get(t', r) {
      if r in t || r in t' {
        LinksAreIndexed(cfg, if r in t then c else c', ns, ing, |ing.rules|, 0, r);
        assert Indexed(cfg, ns, ing, Key(ServiceKind, r.service)) && Indexed(cfg, ns, ing, Key(EndpointKind, r.service));
        assert r.secret.name != "" ==> Indexed(cfg, ns, ing, Key(SecretKind, r.secret));
        assert Agree(c, c', r);
        Locality(cfg, c, c', ns, ing, |ing.rules|, 0, r);
      }
    }
    SameMap(t, t');
  }

  ghost predicate AgreeOnIndexed(cfg: Config, ns: string, ing: Ingress, c: Caches, c': Caches) {
    forall k: Key :: Indexed(cfg, ns, ing, k) ==> BodyAt(c, k) == BodyAt(c', k)
  }

  /** An acceptable path under a host with a nameless secret that the index does not list. */
  ghost predicate AsksNameless(cfg: Config, ns: string, ing: Ingress, i: nat, j: nat) {
    && i < |ing.rules| && j < PathCount(ing, i) && PathOk(PathAt(ing, i, j))
    && var secret := RuleSecret(cfg, ns, ing, i);
    && secret.Some? && secret.value.name == "" && !RefersToSecret(cfg, ns, ing, secret.value)
    && exists cert :: cfg.certifies(cert, ing.rules[i].host)
  }

  /** Where the translator and the index disagree about a rule's secret, the translator's has no name. */
  lemma UnlistedIsNameless(cfg: Config, ns: string, ing: Ingress, i: nat)
    requires i < |ing.rules| && RuleSecret(cfg, ns, ing, i).Some?
    ensures var secret := RuleSecret(cfg, ns, ing, i).value; secret.name == "" || RefersToSecret(cfg, ns, ing, secret)
  {
    TlsAgrees(ing.tls, ing.rules[i].host);
    if RuleSecret(cfg, ns, ing, i).value.name != "" {
      assert IndexedSecret(cfg, ns, ing, i) == RuleSecret(cfg, ns, ing, i);
    }
  }

  lemma ListedUnlessNameless(cfg: Config, c: Caches, ns: string, ing: Ingress, r: Rule)
    requires r in Translate(cfg, c, ns, ing)
    ensures RefersToSecret(cfg, ns, ing, r.secret) || exists i: nat, j: nat :: AsksNameless(cfg, ns, ing, i, j)
  {
    TranslateExact(cfg, c, ns, ing, r);
    var i: nat, j: nat :| Witness(cfg, c, ns, ing, i, j, r);
    LinkAtExact(cfg, c, ns, ing, i, j, r);
    UnlistedIsNameless(cfg, ns, ing, i);
    assert cfg.certifies(CertAt(c, r.secret).value, ing.rules[i].host);
    assert RefersToSecret(cfg, ns, ing, r.secret) || AsksNameless(cfg, ns, ing, i, j);
  }

  lemma CompleteUnlessNameless(cfg: Config, c: Caches, c': Caches, ns: string, ing: Ingress)
    requires AgreeOnIndexed(cfg, ns, ing, c, c') && !exists i: nat, j: nat :: AsksNameless(cfg, ns, ing, i, j)
    ensures Translate(cfg, c, ns, ing) == Translate(cfg, c', ns, ing)
  {
    var t, t' := Translate(cfg, c, ns, ing), Translate(cfg, c', ns, ing);
    forall r: Rule ensures Get(t, r) == Get(t', r) {
      if r in t || r in t' {
        LinksAreIndexed(cfg, if r in t then c else c', ns, ing, |ing.rules|, 0, r);
        ListedUnlessNameless(cfg, if r in t then c else c', ns, ing, r);
        assert Indexed(cfg, ns, ing, Key(ServiceKind, r.service)) && Indexed(cfg, ns, ing, Key(EndpointKind, r.service));
        assert Indexed(cfg, ns, ing, Key(SecretKind, r.secret));
        assert Agree(c, c', r);
        Locality(cfg, c, c', ns, ing, |ing.rules|, 0, r);
      }
    }
    SameMap(t, t');
  }

  /** Storing the nameless secret changes the translation, though no indexed object differs. */
  lemma NamelessMatters(cfg: Config, ns: string, ing: Ingress, i: nat, j: nat) returns (c: Caches, c': Caches)
    requires AsksNameless(cfg, ns, ing, i, j)
    ensures AgreeOnIndexed(cfg, ns, ing, c, c') && Translate(cfg, c, ns, ing) != Translate(cfg, c', ns, ing)
  {
    var p, secret, host := PathAt(ing, i, j), RuleSecret(cfg, ns, ing, i).value, ing.rules[i].host;
    var cert :| cfg.certifies(cert, host);
    var service := Name(ns, p.serviceName);
    var k, o := Key(SecretKind, secret), Object(0, SecretBody(map[CERT_PEM := cert]));
    c := Backend(service, p.servicePort);
    c' := c[k := o];
    BackendServes(service, p.servicePort, k, o);
    var r := Rule(service, secret, host, PortFor(p.servicePort).port);
    WitnessComputed(cfg, c', ns, ing, i, j, r);
    NeedsItsSecret(cfg, c, c', ns, ing, i, j, r);
  }

  /** A rule that only the second caches hold the secret of is in their translation only. */
  lemma NeedsItsSecret(cfg: Config, c: Caches, c': Caches, ns: string, ing: Ingress, i: nat, j: nat, r: Rule)
    requires Key(SecretKind, r.secret) !in c && Witness(cfg, c', ns, ing, i, j, r)
    ensures Translate(cfg, c, ns, ing) != Translate(cfg, c', ns, ing)
  {
    TranslateExact(cfg, c', ns, ing, r);
    TranslateExact(cfg, c, ns, ing, r);
  }

  function PortFor(want: PortRef): ServicePort {
    if want.PortNumber? then ServicePort("", want.number, TCP) else ServicePort(want.name, 80, TCP)
  }

  /** A service with the port and an address, and nothing else. */
  function Backend(service: Name, want: PortRef): Caches {
    map[Key(ServiceKind, service) := Object(0, ServiceBody([PortFor(want)])),
        Key(EndpointKind, service) := Object(0, EndpointsBody([Subset(["10.0.0.1"])]))]
  }

  lemma BackendServes(service: Name, want: PortRef, k: Key, o: Object)
    requires k.kind == SecretKind
    ensures var c := Backend(service, want)[k := o]; AddressAt(c, service) && ServicePortAt(c, service, want) == Some(PortFor(want).port)
  {
    var c := Backend(service, want)[k := o];
    assert c[Key(EndpointKind, service)].body.subsets[0].addresses != [];
    assert PortMatches([PortFor(want)][0], want, TCP);
  }

  /**
    Exactly when the indexes alone are complete for an ingress, over all caches, nameless objects
    included: unless some acceptable path asks for a nameless secret that the index does not list.
   */
  lemma IndexesAreCompleteIff(cfg: Config, ns: string, ing: Ingress)
    ensures (forall c, c' :: AgreeOnIndexed(cfg, ns, ing, c, c') ==> Translate(cfg, c, ns, ing) == Translate(cfg, c', ns, ing))
            <==> !exists i: nat, j: nat :: AsksNameless(cfg, ns, ing, i, j)
  {
    if i: nat, j: nat :| AsksNameless(cfg, ns, ing, i, j) {
      var c, c' := NamelessMatters(cfg, ns, ing, i, j);
    } else {
      forall c, c' | AgreeOnIndexed(cfg, ns, ing, c, c') ensures Translate(cfg, c, ns, ing) == Translate(cfg, c', ns, ing) {
        CompleteUnlessNameless(cfg, c, c', ns, ing);
      }
    }
  }

  lemma SameMap<K, V>(m: map<K, V>, m': map<K, V>)
    requires forall k :: Get(m, k) == Get(m', k)
    ensures m == m'
  {
    forall k ensures k in m <==> k in m' { assert Get(m, k) == Get(m', k); }
    forall k | k in m ensures m[k] == m'[k] { assert Get(m, k) == Get(m', k); }
  }

  // ---------------------------------------------------------------- the delete shortcut

  /** The resource of a rule that an object of the kind stands for. */
  function ResourceOf(kind: DepKind, r: Rule): Name
  {
    if kind == SecretKind then r.secret else r.service
  }

  /** What is left of a route when the links that use one resource are removed. */
  function Drop<V>(links: map<Rule, V>, kind: DepKind, n: Name): map<Rule, V>
  {
    map r | r in links && ResourceOf(kind, r) != n :: links[r]
  }

  /** Dropping the links that use a vanished object is the same as translating without it. */
  lemma DeleteShortcut(cfg: Config, c: Caches, ns: string, ing: Ingress, k: Key)
    requires k.kind != IngressKind
    ensures Translate(cfg, c - {k}, ns, ing) == Drop(Translate(cfg, c, ns, ing), k.kind, k.name)
  {
    var t, t' := Translate(cfg, c, ns, ing), Translate(cfg, c - {k}, ns, ing);
    forall r: Rule ensures Get(t', r) == Get(Drop(t, k.kind, k.name), r) {
      if ResourceOf(k.kind, r) == k.name {
        TranslateExact(cfg, c - {k}, ns, ing, r);
      } else {
        assert Agree(c, c - {k}, r);
        Locality(cfg, c, c - {k}, ns, ing, |ing.rules|, 0, r);
      }
    }
    SameMap(t', Drop(t, k.kind, k.name));
  }

  // ---------------------------------------------------------------- edits without effect

  /** Some rule for the host has the path. */
  ghost predicate HasPath(ing: Ingress, host: string, p: Path) {
    exists i, j :: 0 <= i < |ing.rules| && 0 <= j < PathCount(ing, i) && ing.rules[i].host == host && PathAt(ing, i, j) == p
  }

  /** The two ingresses list the same paths for the same hosts, in any order and any number of times. */
  ghost predicate SamePaths(ing: Ingress, ing': Ingress) {
    && ing.tls == ing'.tls
    && ing.options == ing'.options
    && forall host, p :: HasPath(ing, host, p) <==> HasPath(ing', host, p)
  }

  lemma WitnessMoves(cfg: Config, c: Caches, ns: string, ing: Ingress, ing': Ingress, i: nat, j: nat, r: Rule)
    requires SamePaths(ing, ing') && Witness(cfg, c, ns, ing, i, j, r)
    ensures exists i', j' :: Witness(cfg, c, ns, ing', i', j', r)
  {
    assert HasPath(ing, r.host, PathAt(ing, i, j));
    var i', j' :| 0 <= i' < |ing'.rules| && 0 <= j' < PathCount(ing', i') && ing'.rules[i'].host == r.host
                  && PathAt(ing', i', j') == PathAt(ing, i, j);
    assert Witness(cfg, c, ns, ing', i', j', r);
  }

  /** Reordering, repeating, splitting or merging rules and paths does not change the translation. */
  lemma OrderDoesNotMatter(cfg: Config, c: Caches, ns: string, ing: Ingress, ing': Ingress)
    requires SamePaths(ing, ing')
    ensures Translate(cfg, c, ns, ing) == Translate(cfg, c, ns, ing')
  {
    var t, t' := Translate(cfg, c, ns, ing), Translate(cfg, c, ns, ing');
    forall r: Rule ensures Get(t, r) == Get(t', r) {
      TranslateExact(cfg, c, ns, ing, r);
      TranslateExact(cfg, c, ns, ing', r);
      if r in t {
        var i, j :| Witness(cfg, c, ns, ing, i, j, r);
        WitnessMoves(cfg, c, ns, ing, ing', i, j, r);
      }
      if r in t' {
        var i, j :| Witness(cfg, c, ns, ing', i, j, r);
        WitnessMoves(cfg, c, ns, ing', ing, i, j, r);
      }
    }
    SameMap(t, t');
  }

  /** Permuting the rules lists the same paths. */
  lemma PermutedRules(ing: Ingress, rules: seq<HostRule>)
    requires multiset(rules) == multiset(ing.rules)
    ensures SamePaths(ing, ing.(rules := rules))
  {
    PathsKept(ing, ing.(rules := rules));
    PathsKept(ing.(rules := rules), ing);
  }

  lemma PathsKept(ing: Ingress, ing': Ingress)
    requires multiset(ing.rules) <= multiset(ing'.rules)
    ensures forall host, p :: HasPath(ing, host, p) ==> HasPath(ing', host, p)
  {
    forall host, p | HasPath(ing, host, p) ensures HasPath(ing', host, p) {
      var i, j :| 0 <= i < |ing.rules| && 0 <= j < PathCount(ing, i) && ing.rules[i].host == host && PathAt(ing, i, j) == p;
      assert ing.rules[i] in multiset(ing.rules);
      assert ing.rules[i] in multiset(ing'.rules);
      var i' :| 0 <= i' < |ing'.rules| && ing'.rules[i'] == ing.rules[i];
      assert PathAt(ing', i', j) == p;
    }
  }

  /** Permuting the paths within the rules lists the same paths. */
  lemma PermutedPaths(ing: Ingress, ing': Ingress)
    requires ing'.tls == ing.tls && ing'.options == ing.options && |ing'.rules| == |ing.rules|
    requires forall i :: 0 <= i < |ing.rules| ==> SamePathsOfRule(ing.rules[i], ing'.rules[i])
    ensures SamePaths(ing, ing')
  {
    PathsKeptWithin(ing, ing');
    PathsKeptWithin(ing', ing);
  }

  predicate SamePathsOfRule(a: HostRule, b: HostRule) {
    && a.host == b.host
    && a.http.Some? == b.http.Some?
    && (a.http.Some? ==> multiset(a.http.value) == multiset(b.http.value))
  }

  lemma PathsKeptWithin(ing: Ingress, ing': Ingress)
    requires |ing'.rules| == |ing.rules|
    requires forall i :: 0 <= i < |ing.rules| ==> SamePathsOfRule(ing.rules[i], ing'.rules[i])
    ensures forall host, p :: HasPath(ing, host, p) ==> HasPath(ing', host, p)
  {
    forall host, p | HasPath(ing, host, p) ensures HasPath(ing', host, p) {
      var i, j :| 0 <= i < |ing.rules| && 0 <= j < PathCount(ing, i) && ing.rules[i].host == host && PathAt(ing, i, j) == p;
      var paths' := ing'.rules[i].http.value;
      assert p in multiset(ing.rules[i].http.value);
      assert p in multiset(paths');
      var j' :| 0 <= j' < |paths'| && paths'[j'] == p;
      assert PathAt(ing', i, j') == p;
    }
  }
}
