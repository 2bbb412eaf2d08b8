/**
  Who owns a link: the invariants of the router over every interleaving of operations by any number
  of workers with stops that complete on their own, and what an update costs.
 */
module Ownership {
  import opened Base
  import opened Cluster
  import opened Translation
  import opened Indexes
  import opened Router

  /** The link sits in some route, under its rule. */
  ghost predicate Held(s: State, t: Tunnel) {
    exists k :: k in s.items && HeldAt(s, k, t)
  }

  predicate HeldAt(s: State, k: Name, t: Tunnel)
    requires k in s.items
  {
    t.rule in s.items[k] && s.items[k][t.rule] == t
  }

  /**
    Ownership: a link runs exactly when it sits in a route or awaits its stop, never both; every
    link sits under its own rule, and in one route only.
   */
  ghost predicate Owned(s: State) {
    && (forall k, r :: k in s.items && r in s.items[k] ==> s.items[k][r].rule == r)
    && (forall t :: t in s.running <==> Held(s, t) || t in s.stopping)
    && (forall t :: Held(s, t) ==> t !in s.stopping)
    && (forall k, k', t :: k in s.items && k' in s.items && HeldAt(s, k, t) && HeldAt(s, k', t) ==> k == k')
    && s.running <= s.seen
  }

  lemma OwnedIsSeen(s: State)
    requires Owned(s)
    ensures forall k <- s.items :: s.items[k].Values <= s.seen
  {
    forall k, t | k in s.items && t in s.items[k].Values ensures t in s.seen {
      var r :| r in s.items[k] && s.items[k][r] == t;
      assert HeldAt(s, k, t);
      assert Held(s, t);
    }
  }

  /** Which links a route update leaves in the route. */
  lemma MergeHolds(s: State, key: Name, next: Route, t: Tunnel)
    requires Owned(s) && Fresh(s, next)
    ensures var s', prev := Update(s, key, next), Previous(s, key);
            HeldAt(s', key, t) <==> t.rule in next && t == if Kept(prev, next, t.rule) then prev[t.rule] else next[t.rule]
  {
  }

  lemma UpdateHolds(s: State, key: Name, next: Route, t: Tunnel)
    requires Owned(s) && Fresh(s, next)
    ensures var s', prev := Update(s, key, next), Previous(s, key);
            && (t in Started(prev, next) ==> Held(s', t) && t !in s.seen)
            && (t in Stopped(prev, next) ==> !Held(s', t) && t in s.running && t !in s.stopping)
            && (t !in Started(prev, next) && t !in Stopped(prev, next) ==> (Held(s', t) <==> Held(s, t)))
  {
    var s', prev := Update(s, key, next), Previous(s, key);
    OwnedIsSeen(s);
    MergeHolds(s, key, next, t);
    assert forall k | k in s.items && k != key :: HeldAt(s', k, t) == HeldAt(s, k, t);
    if t in Started(prev, next) {
      var r :| r in next && !Kept(prev, next, r) && next[r] == t;
      assert HeldAt(s', key, t);
    } else if t in Stopped(prev, next) {
      var r :| r in prev && !Kept(prev, next, r) && prev[r] == t;
      assert HeldAt(s, key, t);
      assert Held(s, t);
      assert t in s.seen;
    } else {
      if Held(s, t) {
        var k :| k in s.items && HeldAt(s, k, t);
        assert HeldAt(s', k, t);
      }
      if Held(s', t) {
        var k :| k in s'.items && HeldAt(s', k, t);
        assert k in s.items && HeldAt(s, k, t);
      }
    }
  }

  lemma UpdateRuns(s: State, key: Name, next: Route, t: Tunnel)
    requires Owned(s) && Fresh(s, next)
    ensures var s' := Update(s, key, next);
            (t in s'.running <==> Held(s', t) || t in s'.stopping) && (Held(s', t) ==> t !in s'.stopping)
  {
    UpdateHolds(s, key, next, t);
    assert Held(s, t) ==> t in s.running;
  }

  lemma UpdateUnique(s: State, key: Name, next: Route, k: Name, t: Tunnel)
    requires Owned(s) && Fresh(s, next) && k in s.items && k != key
    ensures HeldAt(Update(s, key, next), k, t) ==> HeldAt(s, k, t) && !HeldAt(Update(s, key, next), key, t)
  {
    MergeHolds(s, key, next, t);
    OwnedIsSeen(s);
    assert HeldAt(s, k, t) ==> Held(s, t);
  }

  lemma UpdateOwned(s: State, key: Name, next: Route)
    requires Owned(s) && Fresh(s, next)
    ensures Owned(Update(s, key, next))
  {
    var s' := Update(s, key, next);
    forall t ensures (t in s'.running <==> Held(s', t) || t in s'.stopping) && (Held(s', t) ==> t !in s'.stopping) {
      UpdateRuns(s, key, next, t);
    }
    forall k, k', t | k in s'.items && k' in s'.items && HeldAt(s', k, t) && HeldAt(s', k', t) ensures k == k' {
      if k != key { UpdateUnique(s, key, next, k, t); }
      if k' != key { UpdateUnique(s, key, next, k', t); }
    }
    forall r | r in s'.items[key] ensures s'.items[key][r].rule == r {
      MergeHolds(s, key, next, s'.items[key][r]);
    }
    assert s'.running <= s'.seen by {
      assert Started(Previous(s, key), next) <= next.Values;
    }
  }

  lemma {:induction false} UpdateAllSeen(s: State, es: seq<Entry>, t: Tunnel)
    ensures t in UpdateAll(s, es).seen <==> t in s.seen || exists i :: 0 <= i < |es| && t in es[i].route.Values
  {
    if es != [] {
      var n := |es| - 1;
      UpdateAllSeen(s, es[..n], t);
      assert forall i :: 0 <= i < n ==> es[..n][i] == es[i];
    }
  }

  /** The last of a list of routes is still new when the others have been applied. */
  lemma LastIsFresh(s: State, es: seq<Entry>)
    requires FreshAll(s, es) && es != []
    ensures var n := |es| - 1; FreshAll(s, es[..n]) && Fresh(UpdateAll(s, es[..n]), es[n].route)
  {
    var n := |es| - 1;
    forall r <- es[n].route ensures es[n].route[r] !in UpdateAll(s, es[..n]).seen {
      UpdateAllSeen(s, es[..n], es[n].route[r]);
      assert es[n].route[r] in es[n].route.Values && Fresh(s, es[n].route);
      assert forall i :: 0 <= i < n ==> es[i].route.Values !! es[n].route.Values;
    }
    assert Fresh(s, es[n].route);
  }

  lemma {:induction false} UpdateAllOwned(s: State, es: seq<Entry>)
    requires Owned(s) && FreshAll(s, es)
    ensures Owned(UpdateAll(s, es))
  {
    if es != [] {
      var n := |es| - 1;
      LastIsFresh(s, es);
      UpdateAllOwned(s, es[..n]);
      UpdateOwned(UpdateAll(s, es[..n]), es[n].key, es[n].route);
    }
  }

  lemma DeleteRouteOwned(s: State, key: Name)
    requires Owned(s)
    ensures Owned(DeleteRoute(s, key))
  {
    var s', prev := DeleteRoute(s, key), Previous(s, key);
    assert forall t | t in prev.Values :: key in s.items && HeldAt(s, key, t);
    forall t ensures Held(s, t) <==> Held(s', t) || t in prev.Values {
      if t in prev.Values {
        assert HeldAt(s, key, t);
      }
      if Held(s', t) {
        var k :| k in s'.items && HeldAt(s', k, t);
        assert HeldAt(s, k, t);
      }
      if Held(s, t) {
        var k :| k in s.items && HeldAt(s, k, t);
        assert k != key ==> HeldAt(s', k, t);
      }
    }
    forall t | Held(s', t) ensures t !in s'.stopping {
      var k :| k in s'.items && HeldAt(s', k, t);
      assert HeldAt(s, k, t);
    }
    assert forall k, t | k in s'.items && HeldAt(s', k, t) :: HeldAt(s, k, t);
  }

  lemma DeleteKindOwned(s: State, kind: DepKind, n: Name, keys: set<Name>)
    requires Owned(s)
    ensures Owned(DeleteKind(s, kind, n, keys))
  {
    var s', users := DeleteKind(s, kind, n, keys), Users(s, kind, n, keys);
    forall k, t | k in s.items
      ensures HeldAt(s', k, t) <==> HeldAt(s, k, t) && !(k in keys && ResourceOf(kind, t.rule) == n)
    {
    }
    forall t ensures (Held(s, t) <==> Held(s', t) || t in users) && !(Held(s', t) && t in users) {
      if t in users {
        var k, r :| k in s.items && k in keys && r in s.items[k] && ResourceOf(kind, r) == n && s.items[k][r] == t;
        assert HeldAt(s, k, t);
        forall k' | k' in s.items ensures !HeldAt(s', k', t) {
          assert HeldAt(s, k', t) ==> k' == k;
        }
      } else {
        if Held(s, t) {
          var k :| k in s.items && HeldAt(s, k, t);
          assert HeldAt(s', k, t);
        }
        if Held(s', t) {
          var k :| k in s'.items && HeldAt(s', k, t);
          assert HeldAt(s, k, t);
        }
      }
    }
  }

  lemma FinishStopOwned(s: State, t: Tunnel)
    requires Owned(s) && t in s.stopping
    ensures Owned(FinishStop(s, t))
  {
    var s' := FinishStop(s, t);
    assert forall k, u | k in s.items :: HeldAt(s', k, u) == HeldAt(s, k, u);
    forall u ensures Held(s', u) <==> Held(s, u) {
      if Held(s, u) { var k :| k in s.items && HeldAt(s, k, u); assert HeldAt(s', k, u); }
      if Held(s', u) { var k :| k in s'.items && HeldAt(s', k, u); assert HeldAt(s, k, u); }
    }
  }

  // ---------------------------------------------------------------- every interleaving

  /** The operations of any number of workers; each holds the router's lock, except for the stops. */
  datatype Action =
    | DoUpdate(es: seq<Entry>)
    | DoDeleteRoute(key: Name)
    | DoDeleteKind(kind: DepKind, n: Name, keys: set<Name>)
    | StopRuns(t: Tunnel)

  ghost predicate Enabled(s: State, a: Action) {
    match a
    case DoUpdate(es) => FreshAll(s, es)
    case DoDeleteRoute(_) => true
    case DoDeleteKind(_, _, _) => true
    case StopRuns(t) => t in s.stopping
  }

  ghost function Step(s: State, a: Action): State
    requires Enabled(s, a)
  {
    match a
    case DoUpdate(es) => UpdateAll(s, es)
    case DoDeleteRoute(key) => DeleteRoute(s, key)
    case DoDeleteKind(kind, n, keys) => DeleteKind(s, kind, n, keys)
    case StopRuns(t) => FinishStop(s, t)
  }

  ghost predicate Runs(s: State, acts: seq<Action>, s': State)
    decreases |acts|
  {
    if acts == [] then s' == s
    else Enabled(s, acts[0]) && Runs(Step(s, acts[0]), acts[1..], s')
  }

  lemma StepOwned(s: State, a: Action)
    requires Owned(s) && Enabled(s, a)
    ensures Owned(Step(s, a))
  {
    match a
    case DoUpdate(es) => UpdateAllOwned(s, es);
    case DoDeleteRoute(key) => DeleteRouteOwned(s, key);
    case DoDeleteKind(kind, n, keys) => DeleteKindOwned(s, kind, n, keys);
    case StopRuns(t) => FinishStopOwned(s, t);
  }

  lemma {:induction false} OwnedRuns(s: State, acts: seq<Action>, s': State)
    requires Owned(s) && Runs(s, acts, s')
    ensures Owned(s')
    decreases |acts|
  {
    if acts != [] {
      StepOwned(s, acts[0]);
      OwnedRuns(Step(s, acts[0]), acts[1..], s');
    }
  }

  /** Ownership holds after every interleaving of updates, deletes and stops of a new router. */
  lemma OwnedAlways(acts: seq<Action>, s: State)
    requires Runs(EMPTY, acts, s)
    ensures Owned(s)
  {
    OwnedRuns(EMPTY, acts, s);
  }

  /** The link was handed to the router once and does not run any more, or never did. */
  predicate Retired(s: State, t: Tunnel) {
    t in s.seen && t !in s.running
  }

  lemma {:induction false} UpdateAllRetires(s: State, es: seq<Entry>, t: Tunnel)
    requires Owned(s) && FreshAll(s, es) && Retired(s, t)
    ensures Retired(UpdateAll(s, es), t)
  {
    if es != [] {
      var n := |es| - 1;
      UpdateAllRetires(s, es[..n], t);
      assert Fresh(s, es[n].route);
      assert t !in es[n].route.Values;
    }
  }

  /** A link that has been stopped never comes back: it never runs again and no route ever holds it. */
  lemma {:induction false} StoppedForGood(s: State, acts: seq<Action>, s': State, t: Tunnel)
    requires Owned(s) && Runs(s, acts, s') && Retired(s, t)
    ensures Retired(s', t) && !Held(s', t)
    decreases |acts|
  {
    if acts != [] {
      StepOwned(s, acts[0]);
      if acts[0].DoUpdate? {
        UpdateAllRetires(s, acts[0].es, t);
      }
      StoppedForGood(Step(s, acts[0]), acts[1..], s', t);
    }
  }

  // ---------------------------------------------------------------- what an update costs

  /** The certificates and options a route holds, rule by rule. */
  function SpecsOf(route: Route): Links {
    map r | r in route :: route[r].spec
  }

  function Specs(s: State): map<Name, Links> {
    map k | k in s.items :: SpecsOf(s.items[k])
  }

  /**
    Minimal reconciliation: after an update the route has exactly the new rules with the new
    certificates and options; a link starts exactly for the rules that are new or changed, and stops
    exactly for those that are gone or changed; every other link, of this or of another route, runs
    or rests as before, and other routes are untouched.
   */
  lemma MinimalReconciliation(s: State, key: Name, next: Route, r: Rule)
    requires Owned(s) && Fresh(s, next)
    ensures var s', was, now := Update(s, key, next), Get(SpecsOf(Previous(s, key)), r), Get(SpecsOf(next), r);
            && Get(SpecsOf(s'.items[key]), r) == now
            && (now.Some? && was == now ==> s'.items[key][r] == Previous(s, key)[r] && next[r] !in s'.running)
            && (now.Some? && was != now ==> s'.items[key][r] == next[r] && next[r] in s'.running && next[r] !in s.running)
            && (was.Some? ==> (Previous(s, key)[r] in s'.running <==> was == now))
    ensures var s' := Update(s, key, next);
            && (forall t :: t !in Previous(s, key).Values && t !in next.Values ==> (t in s'.running <==> t in s.running))
            && (forall k :: k != key ==> Get(s'.items, k) == Get(s.items, k))
            && s'.stopping == s.stopping
  {
    var s', prev := Update(s, key, next), Previous(s, key);
    OwnedIsSeen(s);
    if r in next {
      UpdateHolds(s, key, next, next[r]);
      assert next[r] !in s.running;
      assert next[r] in Started(prev, next) <==> !Kept(prev, next, r);
      if r in prev {
        assert Kept(prev, next, r) <==> prev[r].spec == next[r].spec;
      }
    }
    if r in prev {
      assert HeldAt(s, key, prev[r]) && Held(s, prev[r]);
      assert prev[r] in Stopped(prev, next) <==> !Kept(prev, next, r);
      assert prev[r] !in Started(prev, next);
    }
  }

  /** An update leaves the route with the certificates and options of the new one. */
  lemma UpdateSpecs(s: State, key: Name, next: Route)
    ensures Specs(Update(s, key, next)) == Specs(s)[key := SpecsOf(next)]
  {
    var s', prev := Update(s, key, next), Previous(s, key);
    assert forall r | r in next :: Kept(prev, next, r) ==> prev[r].spec == next[r].spec;
    assert SpecsOf(s'.items[key]) == SpecsOf(next);
  }

  /** Applying a route with the same rules, certificates and options starts and stops nothing. */
  lemma EqualRouteIsFree(s: State, key: Name, next: Route)
    requires Owned(s) && Fresh(s, next) && key in s.items && SpecsOf(next) == SpecsOf(s.items[key])
    ensures var s' := Update(s, key, next); s'.items == s.items && s'.running == s.running && s'.stopping == s.stopping
  {
    var prev := s.items[key];
    assert prev.Keys == SpecsOf(prev).Keys == SpecsOf(next).Keys == next.Keys;
    forall r | r in prev ensures Kept(prev, next, r) {
      assert SpecsOf(prev)[r] == SpecsOf(next)[r];
    }
    assert Merge(prev, next) == prev;
    assert Started(prev, next) == {} && Stopped(prev, next) == {};
  }

  /** New links for a translated route. */
  function Mint(links: Links, id: nat): Route {
    map r | r in links :: Tunnel(id, r, links[r])
  }

  /** Reordering or repeating the rules and paths of an ingress restarts no tunnel. */
  lemma ReorderingRestartsNothing(cfg: Config, c: Caches, s: State, key: Name, ing: Ingress, ing': Ingress, id: nat)
    requires Owned(s) && SamePaths(ing, ing')
    requires key in s.items && SpecsOf(s.items[key]) == Translate(cfg, c, key.namespace, ing)
    requires Fresh(s, Mint(Translate(cfg, c, key.namespace, ing'), id))
    ensures var s' := Update(s, key, Mint(Translate(cfg, c, key.namespace, ing'), id));
            s'.items == s.items && s'.running == s.running
  {
    OrderDoesNotMatter(cfg, c, key.namespace, ing, ing');
    var next := Mint(Translate(cfg, c, key.namespace, ing'), id);
    assert SpecsOf(next) == Translate(cfg, c, key.namespace, ing');
    EqualRouteIsFree(s, key, next);
  }

  // ---------------------------------------------------------------- halt

  /** Once every link awaits its stop, each completed stop leaves it so. */
  lemma {:induction false} StopsAfterHalt(s: State, acts: seq<Action>, s': State)
    requires Runs(s, acts, s') && (forall a <- acts :: a.StopRuns?) && s.running <= s.stopping
    ensures s'.running <= s'.stopping && s'.items == s.items
    decreases |acts|
  {
    if acts != [] {
      assert acts[0] in acts;
      StopsAfterHalt(Step(s, acts[0]), acts[1..], s');
    }
  }

  /**
    After `halt`, in every run of the stops, in any order, that leaves none waiting, nothing runs,
    though the routes are still listed.
   */
  lemma HaltStopsEverything(s: State, acts: seq<Action>, s': State)
    requires Owned(s) && Runs(Halted(s), acts, s') && (forall a <- acts :: a.StopRuns?) && s'.stopping == {}
    ensures s'.running == {} && s'.items == s.items
  {
    forall t | t in s.running ensures t in Halted(s).stopping {
      if Held(s, t) {
        var k :| k in s.items && HeldAt(s, k, t);
        assert s.items[k][t.rule] in LinksOf(s.items, s.items.Keys);
      }
    }
    StopsAfterHalt(Halted(s), acts, s');
  }

  /** Such a run exists: every link that awaits its stop can be stopped. */
  lemma StopsComplete(s: State) returns (acts: seq<Action>, s': State)
    ensures Runs(s, acts, s') && (forall a <- acts :: a.StopRuns?) && s'.stopping == {}
    decreases |s.stopping|
  {
    if s.stopping == {} {
      acts, s' := [], s;
    } else {
      var t :| t in s.stopping;
      assert |s.stopping - {t}| < |s.stopping|;
      var rest;
      rest, s' := StopsComplete(FinishStop(s, t));
      acts := [StopRuns(t)] + rest;
      assert acts[1..] == rest;
    }
  }
}
