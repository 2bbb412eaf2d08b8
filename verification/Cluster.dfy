/**
  The cluster objects the controller caches, and the look-ups it makes in them.
 */
module Cluster {
  import opened Base

  newtype byte = x: int | 0 <= x < 256
  type Bytes = seq<byte>

  /** A namespaced object name. */
  datatype Name = Name(namespace: string, name: string)

  datatype TunnelOptions = TunnelOptions(
    compressionQuality: nat,
    gracePeriod: int,
    haConnections: int,
    heartbeatCount: nat,
    heartbeatInterval: int,
    lbPool: string,
    noChunkedEncoding: bool,
    retries: nat,
    tags: string)

  datatype Tls = Tls(hosts: seq<string>, secretName: string)

  /** A port reference by number or by name. */
  datatype PortRef = PortNumber(number: int) | PortName(name: string)

  datatype Path = Path(path: string, serviceName: string, servicePort: PortRef)

  datatype HostRule = HostRule(host: string, http: Option<seq<Path>>)

  /** `ingressClass` is the ingress class annotation; `options` is what the other annotations parse to. */
  datatype Ingress = Ingress(ingressClass: Option<string>, tls: seq<Tls>, rules: seq<HostRule>, options: TunnelOptions)

  datatype ServicePort = ServicePort(name: string, port: int, protocol: string)

  datatype Subset = Subset(addresses: seq<string>)

  datatype Body =
    | IngressBody(ingress: Ingress)
    | ServiceBody(ports: seq<ServicePort>)
    | EndpointsBody(subsets: seq<Subset>)
    | SecretBody(data: map<string, Bytes>)

  /** A cached object; `version` stands for the metadata that changes with every write. */
  datatype Object = Object(version: nat, body: Body)

  datatype Kind = IngressKind | ServiceKind | EndpointKind | SecretKind

  /** The kinds an ingress depends on. */
  type DepKind = k: Kind | k != IngressKind witness SecretKind

  datatype Key = Key(kind: Kind, name: Name)

  /** The informer caches, one per kind, as a single map from kind and name. */
  type Caches = map<Key, Object>

  function KindOf(b: Body): Kind {
    match b
    case IngressBody(_) => IngressKind
    case ServiceBody(_) => ServiceKind
    case EndpointsBody(_) => EndpointKind
    case SecretBody(_) => SecretKind
  }

  /** Every object sits in the cache of its kind, and has a name. */
  ghost predicate WellFormed(c: Caches) {
    forall k <- c :: KindOf(c[k].body) == k.kind && k.name.name != ""
  }

  const CERT_PEM := "cert.pem"
  const TCP := "TCP"

  function BodyAt(c: Caches, k: Key): Option<Body> {
    if k in c then Some(c[k].body) else None
  }

  function IngressAt(c: Caches, n: Name): Option<Ingress> {
    var b := BodyAt(c, Key(IngressKind, n));
    if b.Some? && b.value.IngressBody? then Some(b.value.ingress) else None
  }

  /** The certificate of a cached secret, if it has one. */
  function CertAt(c: Caches, n: Name): Option<Bytes> {
    var b := BodyAt(c, Key(SecretKind, n));
    if b.Some? && b.value.SecretBody? then Get(b.value.data, CERT_PEM) else None
  }

  function PortsAt(c: Caches, n: Name): Option<seq<ServicePort>> {
    var b := BodyAt(c, Key(ServiceKind, n));
    if b.Some? && b.value.ServiceBody? then Some(b.value.ports) else None
  }

  predicate SomeAddress(subsets: seq<Subset>) {
    exists i :: 0 <= i < |subsets| && subsets[i].addresses != []
  }

  /** Cached endpoints with at least one address. */
  predicate AddressAt(c: Caches, n: Name) {
    var b := BodyAt(c, Key(EndpointKind, n));
    b.Some? && b.value.EndpointsBody? && SomeAddress(b.value.subsets)
  }

  predicate PortMatches(p: ServicePort, want: PortRef, protocol: string) {
    p.protocol == protocol && if want.PortNumber? then p.port == want.number else p.name == want.name
  }

  /** The first matching port of a service. */
  function FirstPort(ports: seq<ServicePort>, want: PortRef, protocol: string): (r: Option<ServicePort>)
    ensures r.None? <==> forall i :: 0 <= i < |ports| ==> !PortMatches(ports[i], want, protocol)
    ensures r.Some? ==> exists i :: 0 <= i < |ports| && ports[i] == r.value && PortMatches(ports[i], want, protocol)
                                    && forall k :: 0 <= k < i ==> !PortMatches(ports[k], want, protocol)
  {
    if ports == [] then None
    else if PortMatches(ports[0], want, protocol) then Some(ports[0])
    else
      var r := FirstPort(ports[1..], want, protocol);
      assert forall i :: 0 < i < |ports| ==> ports[i] == ports[1..][i - 1];
      r
  }

  method HasEndpointsAddresses(subsets: seq<Subset>) returns (up: bool)
    ensures up <==> exists i :: 0 <= i < |subsets| && subsets[i].addresses != []
  {
    for i := 0 to |subsets|
      invariant forall k :: 0 <= k < i ==> subsets[k].addresses == []
    {
      if |subsets[i].addresses| > 0 {
        return true;
      }
    }
    return false;
  }

  /** Port i is the first with the protocol and the number or name. */
  ghost predicate IsFirst(ports: seq<ServicePort>, want: PortRef, protocol: string, i: int) {
    && 0 <= i < |ports|
    && ports[i].protocol == protocol
    && (match want case PortNumber(n) => ports[i].port == n case PortName(s) => ports[i].name == s)
    && forall k :: 0 <= k < i && ports[k].protocol == protocol ==>
         match want case PortNumber(n) => ports[k].port != n case PortName(s) => ports[k].name != s
  }

  lemma FirstPortExact(ports: seq<ServicePort>, want: PortRef, protocol: string)
    ensures var r := FirstPort(ports, want, protocol);
            && (r.Some? ==> exists i :: IsFirst(ports, want, protocol, i))
            && (forall i :: IsFirst(ports, want, protocol, i) ==> r == Some(ports[i]))
  {
    var r := FirstPort(ports, want, protocol);
    if r.Some? {
      var i :| 0 <= i < |ports| && ports[i] == r.value && PortMatches(ports[i], want, protocol)
               && forall k :: 0 <= k < i ==> !PortMatches(ports[k], want, protocol);
      assert IsFirst(ports, want, protocol, i);
      forall j | IsFirst(ports, want, protocol, j) ensures j == i {
        assert PortMatches(ports[j], want, protocol);
      }
    } else {
      forall j | IsFirst(ports, want, protocol, j) ensures false {
        assert PortMatches(ports[j], want, protocol);
      }
    }
  }

  method GetServicePort(ports: seq<ServicePort>, want: PortRef, protocol: string) returns (r: Option<ServicePort>)
    ensures r == FirstPort(ports, want, protocol)
    ensures r.Some? ==> exists i :: IsFirst(ports, want, protocol, i)
    ensures forall i :: IsFirst(ports, want, protocol, i) ==> r == Some(ports[i])
  {
    FirstPortExact(ports, want, protocol);
    for i := 0 to |ports|
      invariant FirstPort(ports, want, protocol) == FirstPort(ports[i..], want, protocol)
    {
      match want
      case PortNumber(n) =>
        if ports[i].port == n && ports[i].protocol == protocol {
          return Some(ports[i]);
        }
      case PortName(s) =>
        if ports[i].name == s && ports[i].protocol == protocol {
          return Some(ports[i]);
        }
    }
    return None;
  }
}
