/**
  The tunnel router: the routes it holds, the links it starts and stops, and who owns a link when
  many workers update and delete routes while stops run on their own.
 */
module Router {
  import opened Base
  import opened Cluster
  import opened Translation
  import opened Indexes
  import Text

  /** A link object.  `id` is its identity: no two links handed to the router share it and the rule. */
  datatype Tunnel = Tunnel(id: nat, rule: Rule, spec: Spec)

  type Route = map<Rule, Tunnel>

  function Digits(n: nat): string {
    if n < 10 then [('0' as int + n) as char] else Digits(n / 10) + [('0' as int + n % 10) as char]
  }

  /** The origin address of a rule, as the link's configuration holds it. */
  function OriginUrl(r: Rule): string {
    r.service.name + "." + r.service.namespace + ":" + if r.port < 0 then "-" + Digits(-r.port) else Digits(r.port)
  }

  /** `equal` of a link: host, origin, options and certificate; not the identity. */
  predicate Equal(a: Tunnel, b: Tunnel) {
    && a.rule.host == b.rule.host
    && OriginUrl(a.rule) == OriginUrl(b.rule)
    && a.spec.options == b.spec.options
    && a.spec.cert == b.spec.cert
  }

  /** A name as an origin address can hold it. */
  predicate PlainName(n: Name) {
    '.' !in n.name && ':' !in n.namespace
  }

  lemma {:induction false} DigitsExact(m: nat, n: nat)
    ensures Digits(m) != "" && (Digits(m) == Digits(n) <==> m == n)
    decreases m + n
  {
    if m >= 10 && n >= 10 {
      DigitsExact(m / 10, n / 10);
      var a, b := Digits(m / 10), Digits(n / 10);
      if Digits(m) == Digits(n) {
        assert |a| == |b| && Digits(m)[..|a|] == a && Digits(n)[..|b|] == b;
        assert Digits(m)[|a|] == Digits(n)[|b|];
      }
    } else if m >= 10 {
      DigitsExact(m / 10, m / 10);
      assert |Digits(m)| > |Digits(n)|;
    } else if n >= 10 {
      DigitsExact(n / 10, n / 10);
      assert |Digits(m)| < |Digits(n)|;
    }
  }

  /** The origin address tells services and ports apart. */
  lemma OriginUrlExact(a: Rule, b: Rule)
    requires PlainName(a.service) && PlainName(b.service) && a.port >= 0 && b.port >= 0
    ensures OriginUrl(a) == OriginUrl(b) <==> a.service == b.service && a.port == b.port
  {
    if OriginUrl(a) == OriginUrl(b) {
      var p, q := a.service, b.service;
      var s, t := p.namespace + ":" + Digits(a.port), q.namespace + ":" + Digits(b.port);
      assert OriginUrl(a) == p.name + "." + s && OriginUrl(b) == q.name + "." + t;
      SplitAt(p.name, s, q.name, t, '.');
      SplitAt(p.namespace, Digits(a.port), q.namespace, Digits(b.port), ':');
      DigitsExact(a.port, b.port);
    }
  }

  /** Text with a separator has one first part without it. */
  lemma SplitAt(p: string, s: string, q: string, t: string, c: char)
    requires c !in p && c !in q && p + [c] + s == q + [c] + t
    ensures p == q && s == t
  {
    Text.IndexOfPiece(p, s, c);
    Text.IndexOfPiece(q, t, c);
    assert (p + [c] + s)[..|p|] == p && (q + [c] + t)[..|q|] == q;
    assert (p + [c] + s)[|p| + 1..] == s && (q + [c] + t)[|q| + 1..] == t;
  }

  /** Links are equal exactly in host, service, port, options and certificate; the secret's name does not matter. */
  lemma EqualExact(a: Tunnel, b: Tunnel)
    requires PlainName(a.rule.service) && PlainName(b.rule.service) && a.rule.port >= 0 && b.rule.port >= 0
    ensures Equal(a, b) <==>
              && a.rule.host == b.rule.host && a.rule.service == b.rule.service && a.rule.port == b.rule.port
              && a.spec.cert == b.spec.cert && a.spec.options == b.spec.options
  {
    OriginUrlExact(a.rule, b.rule);
  }

  /**
    `running` are the links whose `start` took effect and whose `stop` did not, `stopping` those
    handed to a goroutine that will stop them, `seen` all links ever handed to the router.
   */
  datatype State = State(items: map<Name, Route>, running: set<Tunnel>, stopping: set<Tunnel>, seen: set<Tunnel>)

  const EMPTY := State(map[], {}, {}, {})

  // ---------------------------------------------------------------- what each operation does

  function Previous(s: State, key: Name): Route {
    if key in s.items then s.items[key] else map[]
  }

  predicate Kept(prev: Route, next: Route, r: Rule) {
    r in prev && r in next && Equal(prev[r], next[r])
  }

  function Merge(prev: Route, next: Route): Route {
    map r | r in next :: if Kept(prev, next, r) then prev[r] else next[r]
  }

  function Started(prev: Route, next: Route): set<Tunnel> {
    set r | r in next && !Kept(prev, next, r) :: next[r]
  }

  function Stopped(prev: Route, next: Route): set<Tunnel> {
    set r | r in prev && !Kept(prev, next, r) :: prev[r]
  }

  function Update(s: State, key: Name, next: Route): State {
    var prev := Previous(s, key);
    s.(items := s.items[key := Merge(prev, next)],
       running := s.running - Stopped(prev, next) + Started(prev, next),
       seen := s.seen + next.Values)
  }

  datatype Entry = Entry(key: Name, route: Route)

  function UpdateAll(s: State, es: seq<Entry>): State {
    if es == [] then s
    else Update(UpdateAll(s, es[..|es| - 1]), es[|es| - 1].key, es[|es| - 1].route)
  }

  function DeleteRoute(s: State, key: Name): State {
    s.(items := s.items - {key}, stopping := s.stopping + Previous(s, key).Values)
  }

  /** The links of the named routes that use the resource. */
  function Users(s: State, kind: DepKind, n: Name, keys: set<Name>): set<Tunnel>
  {
    set k, r | k in s.items && k in keys && r in s.items[k] && ResourceOf(kind, r) == n :: s.items[k][r]
  }

  function DropAll(items: map<Name, Route>, kind: DepKind, n: Name, keys: set<Name>): map<Name, Route>
  {
    map k | k in items :: if k in keys then Drop(items[k], kind, n) else items[k]
  }

  function DeleteKind(s: State, kind: DepKind, n: Name, keys: set<Name>): State
  {
    s.(items := DropAll(s.items, kind, n, keys), stopping := s.stopping + Users(s, kind, n, keys))
  }

  function FinishStop(s: State, t: Tunnel): State {
    s.(running := s.running - {t}, stopping := s.stopping - {t})
  }

  /** The links of the routes under the keys. */
  function LinksOf(items: map<Name, Route>, keys: set<Name>): set<Tunnel> {
    set k, r | k in keys && k in items && r in items[k] :: items[k][r]
  }

  /** `halt` hands every link to a goroutine that stops it, and leaves the routes in place. */
  function Halted(s: State): State {
    s.(stopping := s.stopping + LinksOf(s.items, s.items.Keys))
  }

  /** Every link of the route sits under its own rule and has never been handed to the router. */
  ghost predicate Fresh(s: State, next: Route) {
    forall r <- next :: next[r].rule == r && next[r] !in s.seen
  }

  ghost predicate FreshAll(s: State, es: seq<Entry>) {
    && (forall i :: 0 <= i < |es| ==> Fresh(s, es[i].route))
    && (forall i, j :: 0 <= i < j < |es| ==> es[i].route.Values !! es[j].route.Values)
  }

  // ---------------------------------------------------------------- the router object

  /** The same sets and maps, as far as the rules in rs have been visited. */
  function StartedIn(prev: Route, next: Route, rs: set<Rule>): set<Tunnel> {
    set r | r in rs && r in next && !Kept(prev, next, r) :: next[r]
  }

  function StoppedIn(prev: Route, next: Route, rs: set<Rule>): set<Tunnel> {
    set r | r in rs && r in prev && !Kept(prev, next, r) :: prev[r]
  }

  function KeptIn(prev: Route, next: Route, rs: set<Rule>): Route {
    map r | r in rs && Kept(prev, next, r) :: prev[r]
  }

  lemma Visit(prev: Route, next: Route, rs: set<Rule>, r: Rule)
    ensures StartedIn(prev, next, rs + {r}) == StartedIn(prev, next, rs) + if r in next && !Kept(prev, next, r) then {next[r]} else {}
    ensures StoppedIn(prev, next, rs + {r}) == StoppedIn(prev, next, rs) + if r in prev && !Kept(prev, next, r) then {prev[r]} else {}
    ensures KeptIn(prev, next, rs + {r}) == if Kept(prev, next, r) then KeptIn(prev, next, rs)[r := prev[r]] else KeptIn(prev, next, rs)
  {
  }

  lemma VisitAll(prev: Route, next: Route)
    ensures StartedIn(prev, next, next.Keys) == Started(prev, next)
    ensures StoppedIn(prev, next, next.Keys) + StoppedIn(prev, next, (prev - next.Keys).Keys) == Stopped(prev, next)
    ensures next + KeptIn(prev, next, next.Keys) == Merge(prev, next)
  {
  }

  /** Swapping and then stopping what is left comes to the one set difference and union of `Update`. */
  lemma SwapThenStop(running: set<Tunnel>, prev: Route, next: Route)
    requires prev.Values !! next.Values
    ensures running - StoppedIn(prev, next, next.Keys) + StartedIn(prev, next, next.Keys)
            - StoppedIn(prev, next, (prev - next.Keys).Keys)
            == running - Stopped(prev, next) + Started(prev, next)
  {
    VisitAll(prev, next);
    assert StoppedIn(prev, next, (prev - next.Keys).Keys) <= prev.Values;
    assert Started(prev, next) <= next.Values;
  }

  lemma UpdateNewKey(s: State, key: Name, next: Route)
    requires key !in s.items
    ensures Update(s, key, next) == State(s.items[key := next], s.running + Started(map[], next), s.stopping, s.seen + next.Values)
  {
    assert Merge(map[], next) == next;
  }

  lemma UpdateOldKey(s: State, key: Name, next: Route)
    requires key in s.items && s.items[key].Values <= s.seen && Fresh(s, next)
    ensures var prev := s.items[key];
            && prev.Values !! next.Values
            && Update(s, key, next) ==
               State(s.items[key := next + KeptIn(prev, next, next.Keys)],
                     s.running - StoppedIn(prev, next, next.Keys) + StartedIn(prev, next, next.Keys)
                     - StoppedIn(prev, next, (prev - next.Keys).Keys),
                     s.stopping, s.seen + next.Values)
  {
    var prev := s.items[key];
    assert prev.Values !! next.Values;
    VisitAll(prev, next);
    SwapThenStop(s.running, prev, next);
  }

  lemma UpdateStaysSeen(s: State, key: Name, next: Route)
    requires forall k <- s.items :: s.items[k].Values <= s.seen
    ensures var s' := Update(s, key, next);
            s'.seen == s.seen + next.Values && forall k <- s'.items :: s'.items[k].Values <= s'.seen
  {
    var prev := Previous(s, key);
    assert forall r <- Merge(prev, next) :: Merge(prev, next)[r] in prev.Values || Merge(prev, next)[r] in next.Values;
  }

  function Named(keys: seq<Name>): set<Name> {
    set k | k in keys
  }

  function UsersIn(links: Route, kind: DepKind, n: Name): set<Tunnel>
  {
    set r | r in links && ResourceOf(kind, r) == n :: links[r]
  }

  /** One more route of a delete, not visited before or visited again. */
  lemma DropOneMore(s: State, kind: DepKind, n: Name, done: set<Name>, k: Name)
    ensures var before, after := DropAll(s.items, kind, n, done), DropAll(s.items, kind, n, done + {k});
            && (k !in s.items ==> after == before && Users(s, kind, n, done + {k}) == Users(s, kind, n, done))
            && (k in s.items ==>
                  && after == before[k := Drop(before[k], kind, n)]
                  && Users(s, kind, n, done + {k}) == Users(s, kind, n, done) + UsersIn(before[k], kind, n))
  {
    if k in s.items && k in done {
      assert done + {k} == done;
      DropAgain(s.items[k], kind, n);
    } else if k in s.items {
      UsersOneMore(s, kind, n, done, k);
    }
  }

  lemma DropAgain(links: Route, kind: DepKind, n: Name)
    ensures var once := Drop(links, kind, n); Drop(once, kind, n) == once && UsersIn(once, kind, n) == {}
  {
  }

  lemma UsersOneMore(s: State, kind: DepKind, n: Name, done: set<Name>, k: Name)
    requires k in s.items
    ensures Users(s, kind, n, done + {k}) == Users(s, kind, n, done) + UsersIn(s.items[k], kind, n)
  {
  }

  class SyncTunnelRouter {
    var items: map<Name, Route>
    var running: set<Tunnel>
    var stopping: set<Tunnel>
    ghost var seen: set<Tunnel>

    ghost function Abs(): State
      reads this
    {
      State(items, running, stopping, seen)
    }

    constructor ()
      ensures Abs() == EMPTY
    {
      items, running, stopping, seen := map[], {}, {}, {};
    }

    method Start(t: Tunnel)
      modifies this`running
      ensures running == old(running) + {t}
    {
      running := running + {t};
    }

    method Stop(t: Tunnel)
      modifies this`running
      ensures running == old(running) - {t}
    {
      running := running - {t};
    }

    /** `unsafeUpdateRoute`: take over equal links, replace changed ones, stop dropped ones. */
    method UpdateRoute(key: Name, route: Route)
      requires Fresh(Abs(), route)
      requires key in items ==> items[key].Values <= seen
      modifies this
      ensures Abs() == Update(old(Abs()), key, route)
    {
      var had := key in items;
      var prev: Route := if had then items[key] else map[];
      items := items[key := route];
      seen := seen + route.Values;
      if !had {
        UpdateNewKey(old(Abs()), key, route);
        StartLinks(route);
      } else {
        UpdateOldKey(old(Abs()), key, route);
        var left, swap := SwapLinks(prev, route);
        items := items[key := route + swap];
        StopLinks(prev, route, left);
      }
    }

    /** The loop for a route that was not there. */
    method StartLinks(route: Route)
      modifies this`running
      ensures running == old(running) + Started(map[], route)
    {
      var done, todo := {}, route.Keys;
      while todo != {}
        invariant done + todo == route.Keys && done !! todo
        invariant running == old(running) + StartedIn(map[], route, done)
      {
        var r :| r in todo;
        Visit(map[], route, done, r);
        Start(route[r]);
        done, todo := done + {r}, todo - {r};
      }
      VisitAll(map[], route);
    }

    /** The loop over the new links: what is left of the old route, and the old links to keep. */
    method SwapLinks(prev: Route, route: Route) returns (left: Route, swap: Route)
      requires prev.Values !! route.Values
      modifies this`running
      ensures left == prev - route.Keys
      ensures swap == KeptIn(prev, route, route.Keys)
      ensures running == old(running) - StoppedIn(prev, route, route.Keys) + StartedIn(prev, route, route.Keys)
    {
      left, swap := prev, map[];
      var done, todo := {}, route.Keys;
      while todo != {}
        invariant done + todo == route.Keys && done !! todo
        invariant left == prev - done
        invariant swap == KeptIn(prev, route, done)
        invariant running == old(running) - StoppedIn(prev, route, done) + StartedIn(prev, route, done)
      {
        var r :| r in todo;
        Visit(prev, route, done, r);
        if r !in left {
          Start(route[r]);
        } else {
          var oldLink := left[r];
          left := left - {r};
          if !Equal(oldLink, route[r]) {
            Stop(oldLink);
            Start(route[r]);
            assert oldLink in prev.Values;
          } else {
            swap := swap[r := oldLink];
          }
        }
        done, todo := done + {r}, todo - {r};
      }
    }

    /** The loop over the links that the new route no longer has. */
    method StopLinks(ghost prev: Route, ghost route: Route, left: Route)
      requires left == prev - route.Keys
      modifies this`running
      ensures running == old(running) - StoppedIn(prev, route, left.Keys)
    {
      var done, todo := {}, left.Keys;
      while todo != {}
        invariant done + todo == left.Keys && done !! todo
        invariant running == old(running) - StoppedIn(prev, route, done)
      {
        var r :| r in todo;
        Visit(prev, route, done, r);
        Stop(left[r]);
        done, todo := done + {r}, todo - {r};
      }
    }

    /** Every route of a list, under one lock. */
    method UpdateByKindRoutes(es: seq<Entry>)
      requires FreshAll(Abs(), es)
      requires forall k <- items :: items[k].Values <= seen
      modifies this
      ensures Abs() == UpdateAll(old(Abs()), es)
    {
      for i := 0 to |es|
        invariant Abs() == UpdateAll(old(Abs()), es[..i])
        invariant forall k <- items :: items[k].Values <= seen
        invariant forall j :: i <= j < |es| ==> Fresh(Abs(), es[j].route)
      {
        label before:
        UpdateRoute(es[i].key, es[i].route);
        assert es[..i + 1][..i] == es[..i];
        UpdateStaysSeen(old@before(Abs()), es[i].key, es[i].route);
        forall j | i < j < |es| ensures Fresh(Abs(), es[j].route) {
          assert Fresh(old@before(Abs()), es[j].route);
          assert es[i].route.Values !! es[j].route.Values;
        }
      }
      assert es[..|es|] == es;
    }

    /** Forget a route and hand its links to goroutines that stop them. */
    method DeleteByRoute(key: Name)
      modifies this
      ensures Abs() == DeleteRoute(old(Abs()), key)
      ensures key !in items && forall k :: k != key ==> Get(items, k) == old(Get(items, k))
      ensures forall t :: t in stopping <==>
                t in old(stopping) || old(exists r :: key in items && r in items[key] && items[key][r] == t)
    {
      if key !in items {
        assert items - {key} == items;
        return;
      }
      var links := items[key];
      items := items - {key};
      var done, todo := {}, links.Keys;
      while todo != {}
        invariant done + todo == links.Keys && done !! todo
        invariant stopping == old(stopping) + set r | r in done :: links[r]
        invariant items == old(items) - {key} && running == old(running) && seen == old(seen)
      {
        var r :| r in todo;
        stopping := stopping + {links[r]};
        done, todo := done + {r}, todo - {r};
      }
    }

    /** Remove the links that use a vanished resource from the named routes. */
    method DeleteByKindKeys(kind: DepKind, n: Name, keys: seq<Name>)
      modifies this
      ensures Abs() == DeleteKind(old(Abs()), kind, n, Named(keys))
    {
      ghost var was := Abs();
      assert DropAll(items, kind, n, {}) == items;
      for i := 0 to |keys|
        invariant items == DropAll(was.items, kind, n, Named(keys[..i]))
        invariant stopping == was.stopping + Users(was, kind, n, Named(keys[..i]))
        invariant running == was.running && seen == was.seen
      {
        assert Named(keys[..i + 1]) == Named(keys[..i]) + {keys[i]};
        DropOneMore(was, kind, n, Named(keys[..i]), keys[i]);
        DeleteFromRoute(keys[i], kind, n);
      }
      assert keys[..|keys|] == keys;
    }

    method DeleteFromRoute(k: Name, kind: DepKind, n: Name)
      modifies this`items, this`stopping
      ensures items == if k in old(items) then old(items)[k := Drop(old(items)[k], kind, n)] else old(items)
      ensures stopping == old(stopping) + if k in old(items) then UsersIn(old(items)[k], kind, n) else {}
    {
      if k in items {
        var kept, dropped := SplitLinks(items[k], kind, n);
        stopping := stopping + dropped;
        items := items[k := kept];
      }
    }

    method SplitLinks(links: Route, kind: DepKind, n: Name) returns (kept: Route, dropped: set<Tunnel>)
      ensures kept == Drop(links, kind, n)
      ensures dropped == UsersIn(links, kind, n)
    {
      kept, dropped := map[], {};
      var done, todo := {}, links.Keys;
      while todo != {}
        invariant done + todo == links.Keys && done !! todo
        invariant kept == map r | r in done && ResourceOf(kind, r) != n :: links[r]
        invariant dropped == set r | r in done && ResourceOf(kind, r) == n :: links[r]
      {
        var r :| r in todo;
        if ResourceOf(kind, r) == n {
          dropped := dropped + {links[r]};
        } else {
          kept := kept[r := links[r]];
        }
        done, todo := done + {r}, todo - {r};
      }
    }

    /** Hand the links of all routes to goroutines that stop them. */
    method Halt()
      modifies this`stopping
      ensures Abs() == Halted(old(Abs()))
    {
      var done, todo := {}, items.Keys;
      while todo != {}
        invariant done + todo == items.Keys && done !! todo
        invariant stopping == old(stopping) + LinksOf(items, done)
      {
        var k :| k in todo;
        assert LinksOf(items, done + {k}) == LinksOf(items, done) + items[k].Values;
        stopping := stopping + items[k].Values;
        done, todo := done + {k}, todo - {k};
      }
      assert done == items.Keys;
    }

    /** A goroutine spawned by a delete runs the link's `stop`. */
    method RunStop(t: Tunnel)
      modifies this
      ensures Abs() == FinishStop(old(Abs()), t)
    {
      Stop(t);
      stopping := stopping - {t};
    }
  }
}
