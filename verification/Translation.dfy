/**
  From an ingress and the caches to the links it asks for: `getRouteFromIngress`.
 */
module Translation {
  import opened Base
  import opened Cluster
  import Text

  /**
    The options the translator uses.  `origins` and `domains` hold the per-host and per-domain
    secrets, and `certifies` stands for the X.509 check of a certificate against a host.
   */
  datatype Config = Config(
    ingressClass: string,
    origins: map<string, Name>,
    domains: map<string, Name>,
    fallback: Option<Name>,
    certifies: (Bytes, string) -> bool)

  datatype Rule = Rule(service: Name, secret: Name, host: string, port: int)

  /** What a link is made of besides its rule. */
  datatype Spec = Spec(cert: Bytes, options: TunnelOptions)

  type Links = map<Rule, Spec>

  predicate Matches(cfg: Config, ing: Ingress) {
    ing.ingressClass == Some(cfg.ingressClass)
  }

  /** What follows the first dot, if neither side of it is empty. */
  function ParseDomain(host: string): Option<string> {
    var i := Text.IndexOf(host, '.');
    if 0 < i && i + 1 < |host| then Some(host[i + 1..]) else None
  }

  function DomainSecret(cfg: Config, host: string): Option<Name> {
    var d := ParseDomain(host);
    if d.Some? then Get(cfg.domains, d.value) else None
  }

  /** The hosts of the TLS section with their secret names; later entries win. */
  function TlsNames(tls: seq<Tls>): map<string, string> {
    if tls == [] then map[]
    else
      var last := tls[|tls| - 1];
      PutHosts(TlsNames(tls[..|tls| - 1]), last.hosts, last.secretName)
  }

  function PutHosts(names: map<string, string>, hosts: seq<string>, secret: string): (r: map<string, string>)
    ensures forall h :: h in r <==> h in names || h in hosts
    ensures forall h :: h in r ==> r[h] == if h in hosts then secret else names[h]
  {
    if hosts == [] then names
    else PutHosts(names, hosts[..|hosts| - 1], secret)[hosts[|hosts| - 1] := secret]
  }

  /** The secret of a host: its TLS entry, else its own, its domain's or the default secret. */
  function Resolve(cfg: Config, names: map<string, string>, namespace: string, host: string): Option<Name> {
    if host in names then Some(Name(namespace, names[host]))
    else if host in cfg.origins then Some(cfg.origins[host])
    else if DomainSecret(cfg, host).Some? then DomainSecret(cfg, host)
    else cfg.fallback
  }

  /** The secret used for the i-th rule of an ingress, if the rule counts and has one. */
  function RuleSecret(cfg: Config, ns: string, ing: Ingress, i: nat): Option<Name>
    requires i < |ing.rules|
  {
    if ing.rules[i].http.None? || ing.rules[i].host == "" then None
    else Resolve(cfg, TlsNames(ing.tls), ns, ing.rules[i].host)
  }

  /** A certificate for the host in the secret, if there is one. */
  function VerifiedCert(cfg: Config, c: Caches, secret: Name, host: string): Option<Bytes> {
    var cert := CertAt(c, secret);
    if cert.Some? && cfg.certifies(cert.value, host) then cert else None
  }

  function PathCount(ing: Ingress, i: nat): nat
    requires i < |ing.rules|
  {
    if ing.rules[i].http.Some? then |ing.rules[i].http.value| else 0
  }

  function PathAt(ing: Ingress, i: nat, j: nat): Path
    requires i < |ing.rules| && j < PathCount(ing, i)
  {
    ing.rules[i].http.value[j]
  }

  predicate PathOk(p: Path) {
    (p.path == "" || p.path == "/") && p.serviceName != ""
  }

  /** The number of the TCP port a path refers to, if its service is cached and has it. */
  function ServicePortAt(c: Caches, service: Name, want: PortRef): Option<int> {
    var ports := PortsAt(c, service);
    if ports.None? then None
    else
      var p := FirstPort(ports.value, want, TCP);
      if p.Some? then Some(p.value.port) else None
  }

  datatype Attached = Attached(rule: Rule, spec: Spec)

  /** The link that the j-th path of the i-th rule asks for, if all it needs is there. */
  function LinkAt(cfg: Config, c: Caches, ns: string, ing: Ingress, i: nat, j: nat): Option<Attached>
    requires i < |ing.rules| && j < PathCount(ing, i)
  {
    var secret := RuleSecret(cfg, ns, ing, i);
    if secret.None? then None
    else
      var p, host := PathAt(ing, i, j), ing.rules[i].host;
      var service := Name(ns, p.serviceName);
      var cert, port := VerifiedCert(cfg, c, secret.value, host), ServicePortAt(c, service, p.servicePort);
      if cert.Some? && PathOk(p) && port.Some? && AddressAt(c, service)
      then Some(Attached(Rule(service, secret.value, host, port.value), Spec(cert.value, ing.options)))
      else None
  }

  // ---------------------------------------------------------------- which secret

  /** The host is d with one more label in front. */
  ghost predicate Under(host: string, d: string) {
    d != "" && exists first: string :: first != "" && '.' !in first && host == first + "." + d
  }

  lemma ParseDomainExact(host: string, d: string)
    ensures ParseDomain(host) == Some(d) <==> Under(host, d)
  {
    var i := Text.IndexOf(host, '.');
    if ParseDomain(host) == Some(d) {
      assert host == host[..i] + "." + d;
    }
    if Under(host, d) {
      var first: string :| first != "" && '.' !in first && host == first + "." + d;
      assert host[|first|] == '.' && forall k :: 0 <= k < |first| ==> host[k] == first[k];
      assert i == |first|;
    }
  }

  /**
    The secret for a host: what the last TLS entry that lists it names, in the namespace of the
    ingress; else the host's own; else that of the domain it lies directly under; else the default.
   */
  ghost predicate SecretFor(cfg: Config, ns: string, tls: seq<Tls>, host: string, secret: Name) {
    if exists i :: 0 <= i < |tls| && host in tls[i].hosts then
      exists i :: LastEntry(tls, host, i) && secret == Name(ns, tls[i].secretName)
    else if host in cfg.origins then secret == cfg.origins[host]
    else if exists d :: d in cfg.domains && Under(host, d) then
      exists d :: d in cfg.domains && Under(host, d) && secret == cfg.domains[d]
    else cfg.fallback == Some(secret)
  }

  lemma ResolveExact(cfg: Config, ns: string, tls: seq<Tls>, host: string, secret: Name)
    ensures Resolve(cfg, TlsNames(tls), ns, host) == Some(secret) <==> SecretFor(cfg, ns, tls, host, secret)
  {
    TlsNamesExact(tls, host);
    if i :| 0 <= i < |tls| && host in tls[i].hosts {
      ListedHasLast(tls, host, i);
    } else {
      forall d { ParseDomainExact(host, d); }
    }
  }

  /** An entry that lists the host is followed by a last one. */
  lemma {:induction false} ListedHasLast(tls: seq<Tls>, host: string, i: nat)
    requires i < |tls| && host in tls[i].hosts
    ensures exists j :: LastEntry(tls, host, j)
    decreases |tls| - i
  {
    if j :| i < j < |tls| && host in tls[j].hosts {
      ListedHasLast(tls, host, j);
    } else {
      assert LastEntry(tls, host, i);
    }
  }

  // ---------------------------------------------------------------- the links

  function Attach(links: Links, a: Option<Attached>): Links {
    if a.Some? then links[a.value.rule := a.value.spec] else links
  }

  /** The links of all paths before path j of rule i, in the order of the text; later ones win. */
  function LinksUpTo(cfg: Config, c: Caches, ns: string, ing: Ingress, i: nat, j: nat): Links
    requires i <= |ing.rules| && (if i < |ing.rules| then j <= PathCount(ing, i) else j == 0)
    decreases i, j
  {
    if j > 0 then Attach(LinksUpTo(cfg, c, ns, ing, i, j - 1), LinkAt(cfg, c, ns, ing, i, j - 1))
    else if i > 0 then LinksUpTo(cfg, c, ns, ing, i - 1, PathCount(ing, i - 1))
    else map[]
  }

  /** The from-scratch translation of an ingress. */
  function Translate(cfg: Config, c: Caches, ns: string, ing: Ingress): Links {
    LinksUpTo(cfg, c, ns, ing, |ing.rules|, 0)
  }

  // ---------------------------------------------------------------- the nested loops

  /** A rule without a verified certificate contributes nothing, whatever its paths. */
  lemma {:induction false} RuleWithoutCert(cfg: Config, c: Caches, ns: string, ing: Ingress, i: nat, j: nat)
    requires i < |ing.rules| && j <= PathCount(ing, i)
    requires var s := RuleSecret(cfg, ns, ing, i); s.Some? ==> VerifiedCert(cfg, c, s.value, ing.rules[i].host).None?
    ensures LinksUpTo(cfg, c, ns, ing, i, j) == LinksUpTo(cfg, c, ns, ing, i, 0)
  {
    if j > 0 {
      RuleWithoutCert(cfg, c, ns, ing, i, j - 1);
    }
  }

  /**
    The cached service has a first TCP port with the wanted number or name, of number v, and some
    subset of the cached endpoints has an address.
   */
  ghost predicate Backed(c: Caches, service: Name, want: PortRef, v: int) {
    var svc, ep := Key(ServiceKind, service), Key(EndpointKind, service);
    && svc in c && c[svc].body.ServiceBody?
    && (exists i :: IsFirst(c[svc].body.ports, want, "TCP", i) && v == c[svc].body.ports[i].port)
    && ep in c && c[ep].body.EndpointsBody?
    && exists i :: 0 <= i < |c[ep].body.subsets| && c[ep].body.subsets[i].addresses != []
  }

  lemma BackedExact(c: Caches, service: Name, want: PortRef, v: int)
    ensures Backed(c, service, want, v) <==> AddressAt(c, service) && ServicePortAt(c, service, want) == Some(v)
  {
    var ports := PortsAt(c, service);
    if ports.Some? {
      FirstPortExact(ports.value, want, TCP);
    }
  }

  method GetVerifiedPort(c: Caches, service: Name, want: PortRef) returns (port: Option<int>)
    ensures port == if AddressAt(c, service) then ServicePortAt(c, service, want) else None
    ensures port.Some? ==> Backed(c, service, want, port.value)
    ensures port.None? ==> forall v :: !Backed(c, service, want, v)
  {
    forall v { BackedExact(c, service, want, v); }
    var ports := PortsAt(c, service);
    if ports.None? {
      return None;
    }
    var p := GetServicePort(ports.value, want, TCP);
    if p.None? {
      return None;
    }
    var ep := BodyAt(c, Key(EndpointKind, service));
    if ep.None? || !ep.value.EndpointsBody? {
      return None;
    }
    var up := HasEndpointsAddresses(ep.value.subsets);
    if !up {
      return None;
    }
    return Some(p.value.port);
  }

  /** Entry i is the last of the TLS section that lists the host. */
  ghost predicate LastEntry(tls: seq<Tls>, h: string, i: int) {
    0 <= i < |tls| && h in tls[i].hosts && forall j :: i < j < |tls| ==> h !in tls[j].hosts
  }

  /** The host is mapped to the secret name, empty or not, of the last entry that lists it, if one does. */
  ghost predicate FromLastEntry(names: map<string, string>, tls: seq<Tls>, h: string) {
    && (h in names ==> exists i :: LastEntry(tls, h, i))
    && (forall i :: LastEntry(tls, h, i) ==> h in names && names[h] == tls[i].secretName)
  }

  lemma {:induction false} TlsNamesExact(tls: seq<Tls>, h: string)
    ensures FromLastEntry(TlsNames(tls), tls, h)
  {
    if tls != [] {
      var n := |tls| - 1;
      TlsNamesExact(tls[..n], h);
      OneMoreEntry(TlsNames(tls[..n]), tls[..n], tls[n], h);
      assert tls[..n] + [tls[n]] == tls;
    }
  }

  lemma OneMoreEntry(names: map<string, string>, tls: seq<Tls>, last: Tls, h: string)
    requires FromLastEntry(names, tls, h)
    ensures FromLastEntry(PutHosts(names, last.hosts, last.secretName), tls + [last], h)
  {
    var more := tls + [last];
    if h in last.hosts {
      assert LastEntry(more, h, |tls|);
    } else if i :| LastEntry(tls, h, i) {
      assert LastEntry(more, h, i);
    }
    forall i | LastEntry(more, h, i) && i < |tls| ensures LastEntry(tls, h, i) {
      assert forall j :: i < j < |tls| ==> more[j] == tls[j];
    }
  }

  /** The first loop: the secret names of the TLS section. */
  method CollectTls(tls: seq<Tls>) returns (names: map<string, string>)
    ensures names == TlsNames(tls)
    ensures forall h :: FromLastEntry(names, tls, h)
  {
    names := map[];
    for n := 0 to |tls|
      invariant names == TlsNames(tls[..n])
    {
      ghost var before := names;
      for m := 0 to |tls[n].hosts|
        invariant names == PutHosts(before, tls[n].hosts[..m], tls[n].secretName)
      {
        names := names[tls[n].hosts[m] := tls[n].secretName];
        assert tls[n].hosts[..m + 1][..m] == tls[n].hosts[..m];
      }
      assert tls[n].hosts[..|tls[n].hosts|] == tls[n].hosts;
      assert tls[..n + 1][..n] == tls[..n];
    }
    assert tls[..|tls|] == tls;
    forall h { TlsNamesExact(tls, h); }
  }

  /** The second loop: visit every path of every rule, and attach its link where all checks pass. */
  method GetRouteFromIngress(cfg: Config, c: Caches, ns: string, ing: Ingress) returns (links: Links)
    ensures links == Translate(cfg, c, ns, ing)
    ensures forall r :: r in links <==> exists i, j :: Witness(cfg, c, ns, ing, i, j, r)
  {
    var names := CollectTls(ing.tls);
    links := map[];
    for i := 0 to |ing.rules|
      invariant links == LinksUpTo(cfg, c, ns, ing, i, 0)
    {
      var rule := ing.rules[i];
      if rule.http.None? || rule.host == "" {
        RuleWithoutCert(cfg, c, ns, ing, i, PathCount(ing, i));
        continue;
      }
      var secret := Resolve(cfg, names, ns, rule.host);
      if secret.None? {
        RuleWithoutCert(cfg, c, ns, ing, i, PathCount(ing, i));
        continue;
      }
      var cert := VerifiedCert(cfg, c, secret.value, rule.host);
      if cert.None? {
        RuleWithoutCert(cfg, c, ns, ing, i, PathCount(ing, i));
        continue;
      }
      links := AttachPaths(cfg, c, ns, ing, i, cert.value, links);
    }
    forall r { TranslateExact(cfg, c, ns, ing, r); }
  }

  /** The inner loop, over the paths of a rule that has a verified certificate. */
  method AttachPaths(cfg: Config, c: Caches, ns: string, ing: Ingress, i: nat, cert: Bytes, before: Links) returns (links: Links)
    requires i < |ing.rules| && RuleSecret(cfg, ns, ing, i).Some?
    requires VerifiedCert(cfg, c, RuleSecret(cfg, ns, ing, i).value, ing.rules[i].host) == Some(cert)
    requires before == LinksUpTo(cfg, c, ns, ing, i, 0)
    ensures links == LinksUpTo(cfg, c, ns, ing, i, PathCount(ing, i))
    ensures forall r :: r in links <==> r in before || exists j :: Witness(cfg, c, ns, ing, i, j, r)
  {
    var paths, secret, host := ing.rules[i].http.value, RuleSecret(cfg, ns, ing, i).value, ing.rules[i].host;
    links := before;
    for j := 0 to |paths|
      invariant links == LinksUpTo(cfg, c, ns, ing, i, j)
    {
      if |paths[j].path| > 0 && paths[j].path != "/" {
        continue;
      }
      if |paths[j].serviceName| == 0 {
        continue;
      }
      var service := Name(ns, paths[j].serviceName);
      var port := GetVerifiedPort(c, service, paths[j].servicePort);
      if port.None? {
        continue;
      }
      links := links[Rule(service, secret, host, port.value) := Spec(cert, ing.options)];
    }
    forall r { PathsAttached(cfg, c, ns, ing, i, r); }
  }

  /** The paths of one rule add exactly the rules that they are witnesses for. */
  lemma PathsAttached(cfg: Config, c: Caches, ns: string, ing: Ingress, i: nat, r: Rule)
    requires i < |ing.rules|
    ensures r in LinksUpTo(cfg, c, ns, ing, i, PathCount(ing, i)) <==>
            r in LinksUpTo(cfg, c, ns, ing, i, 0) || exists j :: Witness(cfg, c, ns, ing, i, j, r)
  {
    LinksUpToExact(cfg, c, ns, ing, i, PathCount(ing, i), r);
    LinksUpToExact(cfg, c, ns, ing, i, 0, r);
    if j :| Witness(cfg, c, ns, ing, i, j, r) {
      assert Before(i, j, i, PathCount(ing, i));
    }
    if i', j' :| Witness(cfg, c, ns, ing, i', j', r) && Before(i', j', i, 0) {
      assert Before(i', j', i, PathCount(ing, i));
    }
  }

  // ---------------------------------------------------------------- soundness and completeness

  /**
    Path j of rule i of the ingress asks for exactly rule r: the secret for the host holds a
    certificate valid for it, the service has a matching TCP port, the endpoints have an address, and
    the path is empty or "/".
   */
  ghost predicate Witness(cfg: Config, c: Caches, ns: string, ing: Ingress, i: nat, j: nat, r: Rule) {
    && i < |ing.rules| && j < PathCount(ing, i)
    && var p := PathAt(ing, i, j);
    && (p.path == "" || p.path == "/")
    && r.host == ing.rules[i].host && r.host != ""
    && SecretFor(cfg, ns, ing.tls, r.host, r.secret)
    && Certified(cfg, c, r)
    && p.serviceName != "" && r.service == Name(ns, p.serviceName)
    && Backed(c, r.service, p.servicePort, r.port)
  }

  /** The rule's secret is cached, with a certificate valid for the rule's host. */
  predicate Certified(cfg: Config, c: Caches, r: Rule) {
    var k := Key(SecretKind, r.secret);
    && k in c && c[k].body.SecretBody? && "cert.pem" in c[k].body.data
    && cfg.certifies(c[k].body.data["cert.pem"], r.host)
  }

  predicate Before(i: nat, j: nat, i': nat, j': nat) {
    i < i' || (i == i' && j < j')
  }

  /** A path attaches exactly the rule that it is a witness for. */
  lemma LinkAtExact(cfg: Config, c: Caches, ns: string, ing: Ingress, i: nat, j: nat, r: Rule)
    requires i < |ing.rules| && j < PathCount(ing, i)
    ensures var a := LinkAt(cfg, c, ns, ing, i, j);
            && (Witness(cfg, c, ns, ing, i, j, r) <==> a.Some? && a.value.rule == r)
            && (a.Some? && a.value.rule == r ==> CertAt(c, r.secret) == Some(a.value.spec.cert) && a.value.spec.options == ing.options)
  {
    WitnessComputed(cfg, c, ns, ing, i, j, r);
  }

  /** What the translator computes for the path, against what the witness states. */
  lemma WitnessComputed(cfg: Config, c: Caches, ns: string, ing: Ingress, i: nat, j: nat, r: Rule)
    requires i < |ing.rules| && j < PathCount(ing, i)
    ensures var p := PathAt(ing, i, j);
            Witness(cfg, c, ns, ing, i, j, r) <==>
              && PathOk(p) && r.host == ing.rules[i].host && r.service == Name(ns, p.serviceName)
              && RuleSecret(cfg, ns, ing, i) == Some(r.secret)
              && VerifiedCert(cfg, c, r.secret, r.host).Some?
              && ServicePortAt(c, r.service, p.servicePort) == Some(r.port) && AddressAt(c, r.service)
  {
    ResolveExact(cfg, ns, ing.tls, ing.rules[i].host, r.secret);
    BackedExact(c, r.service, PathAt(ing, i, j).servicePort, r.port);
    CertifiedExact(cfg, c, r);
  }

  lemma CertifiedExact(cfg: Config, c: Caches, r: Rule)
    ensures Certified(cfg, c, r) <==> VerifiedCert(cfg, c, r.secret, r.host).Some?
  {
  }

  /** Some path before path j of rule i asks for the rule. */
  ghost predicate Asked(cfg: Config, c: Caches, ns: string, ing: Ingress, i: nat, j: nat, r: Rule) {
    exists i', j' :: Witness(cfg, c, ns, ing, i', j', r) && Before(i', j', i, j)
  }

  lemma AskedPath(cfg: Config, c: Caches, ns: string, ing: Ingress, i: nat, j: nat, r: Rule)
    ensures Asked(cfg, c, ns, ing, i, j + 1, r) <==> Asked(cfg, c, ns, ing, i, j, r) || Witness(cfg, c, ns, ing, i, j, r)
  {
    if i', j' :| Witness(cfg, c, ns, ing, i', j', r) && Before(i', j', i, j + 1) {
      assert Before(i', j', i, j) || (i' == i && j' == j);
    }
    if i', j' :| Witness(cfg, c, ns, ing, i', j', r) && Before(i', j', i, j) {
      assert Before(i', j', i, j + 1);
    }
    assert Before(i, j, i, j + 1);
  }

  lemma AskedRule(cfg: Config, c: Caches, ns: string, ing: Ingress, i: nat, r: Rule)
    requires i < |ing.rules|
    ensures Asked(cfg, c, ns, ing, i + 1, 0, r) <==> Asked(cfg, c, ns, ing, i, PathCount(ing, i), r)
  {
    if i', j' :| Witness(cfg, c, ns, ing, i', j', r) && Before(i', j', i + 1, 0) {
      assert Before(i', j', i, PathCount(ing, i));
    }
    if i', j' :| Witness(cfg, c, ns, ing, i', j', r) && Before(i', j', i, PathCount(ing, i)) {
      assert Before(i', j', i + 1, 0);
    }
  }

  lemma {:induction false} LinksUpToExact(cfg: Config, c: Caches, ns: string, ing: Ingress, i: nat, j: nat, r: Rule)
    requires i <= |ing.rules| && (if i < |ing.rules| then j <= PathCount(ing, i) else j == 0)
    ensures var links := LinksUpTo(cfg, c, ns, ing, i, j);
            && (r in links <==> Asked(cfg, c, ns, ing, i, j, r))
            && (r in links ==> CertAt(c, r.secret).Some? && links[r] == Spec(CertAt(c, r.secret).value, ing.options))
    decreases i, j
  {
    if j > 0 {
      LinksUpToExact(cfg, c, ns, ing, i, j - 1, r);
      LinkAtExact(cfg, c, ns, ing, i, j - 1, r);
      AskedPath(cfg, c, ns, ing, i, j - 1, r);
    } else if i > 0 {
      LinksUpToExact(cfg, c, ns, ing, i - 1, PathCount(ing, i - 1), r);
      AskedRule(cfg, c, ns, ing, i - 1, r);
    }
  }

  /** The translated route is sound and complete, and each link carries the certificate of its secret. */
  lemma TranslateExact(cfg: Config, c: Caches, ns: string, ing: Ingress, r: Rule)
    ensures var links := Translate(cfg, c, ns, ing);
            && (r in links <==> exists i, j :: Witness(cfg, c, ns, ing, i, j, r))
            && (r in links ==> Certified(cfg, c, r)
                               && links[r] == Spec(c[Key(SecretKind, r.secret)].body.data["cert.pem"], ing.options))
  {
    LinksUpToExact(cfg, c, ns, ing, |ing.rules|, 0, r);
    if exists i, j :: Witness(cfg, c, ns, ing, i, j, r) {
      var i, j :| Witness(cfg, c, ns, ing, i, j, r);
      assert Before(i, j, |ing.rules|, 0);
    }
  }
}
