/**
  What the router does to one link: over every run of its operations it starts each link at most once
  and stops it at most once, afterwards.  So the life cycle of a link that the router owns is that of
  a link started once.
 */
module RouterLinks {
  import opened Router
  import opened Ownership
  import Cluster
  import LinkProtocol
  import opened LinkSafety
  import LinkTheorems

  function One(b: bool): nat {
    if b then 1 else 0
  }

  /** How often applying the routes starts the link. */
  function StartsIn(s: State, es: seq<Entry>, t: Tunnel): nat {
    if es == [] then 0
    else
      var n := |es| - 1;
      StartsIn(s, es[..n], t) + One(t in Started(Previous(UpdateAll(s, es[..n]), es[n].key), es[n].route))
  }

  /** How often it stops the link. */
  function StopsIn(s: State, es: seq<Entry>, t: Tunnel): nat {
    if es == [] then 0
    else
      var n := |es| - 1;
      StopsIn(s, es[..n], t) + One(t in Stopped(Previous(UpdateAll(s, es[..n]), es[n].key), es[n].route))
  }

  /** How often the operations start the link. */
  ghost function StartsOf(s: State, ops: seq<Action>, t: Tunnel): nat
    decreases |ops|
  {
    if ops == [] || !Enabled(s, ops[0]) then 0
    else (if ops[0].DoUpdate? then StartsIn(s, ops[0].es, t) else 0) + StartsOf(Step(s, ops[0]), ops[1..], t)
  }

  /** How often they stop it. */
  ghost function StopsOf(s: State, ops: seq<Action>, t: Tunnel): nat
    decreases |ops|
  {
    if ops == [] || !Enabled(s, ops[0]) then 0
    else
      (match ops[0] case DoUpdate(es) => StopsIn(s, es, t) case StopRuns(u) => One(u == t) case _ => 0)
      + StopsOf(Step(s, ops[0]), ops[1..], t)
  }

  lemma UpdateBalance(s: State, key: Cluster.Name, next: Route, t: Tunnel)
    requires Owned(s) && Fresh(s, next)
    ensures var s', prev := Update(s, key, next), Previous(s, key);
            && One(t in s.running) + One(t in Started(prev, next)) == One(t in Stopped(prev, next)) + One(t in s'.running)
            && One(t in s.seen) + One(t in Started(prev, next)) <= One(t in s'.seen)
  {
    UpdateHolds(s, key, next, t);
    assert t in Started(Previous(s, key), next) ==> t in next.Values;
  }

  /** Applying routes starts only links not seen before, and running is having been started and not stopped. */
  lemma {:induction false} UpdateAllBalance(s: State, es: seq<Entry>, t: Tunnel)
    requires Owned(s) && FreshAll(s, es)
    ensures var s' := UpdateAll(s, es);
            && One(t in s.running) + StartsIn(s, es, t) == StopsIn(s, es, t) + One(t in s'.running)
            && One(t in s.seen) + StartsIn(s, es, t) <= One(t in s'.seen)
  {
    if es != [] {
      var n := |es| - 1;
      LastIsFresh(s, es);
      UpdateAllBalance(s, es[..n], t);
      UpdateAllOwned(s, es[..n]);
      UpdateBalance(UpdateAll(s, es[..n]), es[n].key, es[n].route, t);
    }
  }

  lemma {:induction false} RunBalance(s: State, ops: seq<Action>, s': State, t: Tunnel)
    requires Owned(s) && Runs(s, ops, s')
    ensures One(t in s.running) + StartsOf(s, ops, t) == StopsOf(s, ops, t) + One(t in s'.running)
    ensures One(t in s.seen) + StartsOf(s, ops, t) <= One(t in s'.seen)
    decreases |ops|
  {
    if ops != [] {
      if ops[0].DoUpdate? {
        UpdateAllBalance(s, ops[0].es, t);
      }
      StepOwned(s, ops[0]);
      RunBalance(Step(s, ops[0]), ops[1..], s', t);
    }
  }

  /**
    In every run of a new router, and so at every point of it, each link has been started at most
    once and stopped no more often than started; and it runs exactly if it was started and not stopped.
   */
  lemma LinksStartOnce(ops: seq<Action>, s: State, t: Tunnel)
    requires Runs(EMPTY, ops, s)
    ensures StopsOf(EMPTY, ops, t) <= StartsOf(EMPTY, ops, t) <= 1
    ensures t in s.running <==> StartsOf(EMPTY, ops, t) == 1 && StopsOf(EMPTY, ops, t) == 0
  {
    RunBalance(EMPTY, ops, s, t);
  }

  // ---------------------------------------------------------------- the link's own life cycle

  function CallsOf(acts: seq<LinkProtocol.Action>): nat {
    if acts == [] then 0 else One(acts[0].CallStart?) + CallsOf(acts[1..])
  }

  lemma PendingStatement(sh: LinkProtocol.Shared, t: nat, th: LinkProtocol.Thread)
    requires LinkProtocol.Ready(th)
    ensures var e := LinkProtocol.Execute(sh, t, th);
            e.sh.starts + Weight(e.th).pending + SpawnedWeight(e.spawned).pending <= sh.starts + Weight(th).pending
  {
  }

  lemma PendingRun(s: LinkProtocol.Link, t: nat)
    requires LinkProtocol.Enabled(s, LinkProtocol.Run(t))
    ensures var s' := LinkProtocol.Step(s, LinkProtocol.Run(t));
            s'.sh.starts + Total(s'.threads).pending <= s.sh.starts + Total(s.threads).pending
  {
    var ts, e := s.threads, LinkProtocol.Execute(s.sh, t, s.threads[t]);
    PendingStatement(s.sh, t, ts[t]);
    TotalPut(ts, t, e.th);
    if e.spawned.Some? {
      TotalSpawn(ts[t := e.th], e.spawned.value);
    } else {
      assert ts[t := e.th] + [] == ts[t := e.th];
    }
  }

  /** A start takes effect at most once per call. */
  lemma PendingKept(s: LinkProtocol.Link, a: LinkProtocol.Action)
    requires LinkProtocol.Enabled(s, a)
    ensures var s' := LinkProtocol.Step(s, a);
            s'.sh.starts + Total(s'.threads).pending <= s.sh.starts + Total(s.threads).pending + One(a.CallStart?)
  {
    var ts, ts' := s.threads, LinkProtocol.Step(s, a).threads;
    match a
    case CallStart => TotalSpawn(ts, LinkProtocol.Starter(LinkProtocol.SCheck));
    case CallStop => TotalSpawn(ts, LinkProtocol.Stopper(LinkProtocol.TCheck));
    case Run(t) => PendingRun(s, t);
    case Receive(u, t) =>
      TotalPut(ts, u, ts'[u]);
      TotalPut(ts[u := ts'[u]], t, ts'[t]);
    case _ => TotalPut(ts, a.t, ts'[a.t]);
  }

  lemma {:induction false} StartsAreCalls(s: LinkProtocol.Link, acts: seq<LinkProtocol.Action>, s': LinkProtocol.Link)
    requires LinkProtocol.Runs(s, acts, s')
    ensures s'.sh.starts + Total(s'.threads).pending <= s.sh.starts + Total(s.threads).pending + CallsOf(acts)
    decreases |acts|
  {
    if acts != [] {
      PendingKept(s, acts[0]);
      StartsAreCalls(LinkProtocol.Step(s, acts[0]), acts[1..], s');
    }
  }

  lemma {:induction false} PendingIsNatural(ws: seq<Tally>)
    requires forall k :: 0 <= k < |ws| ==> ws[k].pending >= 0
    ensures Sum(ws).pending >= 0
  {
    if ws != [] {
      PendingIsNatural(ws[..|ws| - 1]);
    }
  }

  /**
    A link that the router owns, called to start as often as the router starts it: under every
    interleaving its start takes effect at most once, so at most one launch is unfinished or one
    repair in progress at any time.
   */
  lemma OwnedLinkStartsOnce(ops: seq<Action>, r: State, t: Tunnel, acts: seq<LinkProtocol.Action>, s: LinkProtocol.Link)
    requires Runs(EMPTY, ops, r)
    requires LinkProtocol.Runs(LinkProtocol.INIT, acts, s) && CallsOf(acts) == StartsOf(EMPTY, ops, t)
    ensures s.sh.starts <= 1
    ensures forall i, j :: 0 <= i < |s.threads| && 0 <= j < |s.threads| && LinkTheorems.Active(s.threads[i]) && LinkTheorems.Active(s.threads[j]) ==> i == j
  {
    LinksStartOnce(ops, r, t);
    StartsAreCalls(LinkProtocol.INIT, acts, s);
    PendingIsNatural(Weights(s.threads));
    assert LinkProtocol.Reachable(s);
    forall i, j | 0 <= i < |s.threads| && 0 <= j < |s.threads| && LinkTheorems.Active(s.threads[i]) && LinkTheorems.Active(s.threads[j])
      ensures i == j
    {
      LinkTheorems.StartedOnce(s, i, j);
    }
  }
}
