/**
  The worker loop over the rate-limited queue, and its bounded retry.
 */
module Retry {

  function Max(a: int, b: int): int { if a < b then b else a }

  function Requeues(requeues: map<string, nat>, key: string): nat {
    if key in requeues then requeues[key] else 0
  }

  /** How often a queued key is still to be handled, if the keys in `broken` always fail. */
  function Left(key: string, requeues: map<string, nat>, limit: int, broken: set<string>): nat {
    if key in broken then Max(limit - Requeues(requeues, key), 0) + 1 else 1
  }

  function Budget(queue: seq<string>, requeues: map<string, nat>, limit: int, broken: set<string>): nat {
    if queue == [] then 0
    else Budget(queue[..|queue| - 1], requeues, limit, broken) + Left(queue[|queue| - 1], requeues, limit, broken)
  }

  ghost predicate Distinct(queue: seq<string>) {
    forall i, j :: 0 <= i < j < |queue| ==> queue[i] != queue[j]
  }

  lemma {:induction false} BudgetFrame(queue: seq<string>, requeues: map<string, nat>, requeues': map<string, nat>, limit: int, broken: set<string>)
    requires forall k <- queue :: Requeues(requeues, k) == Requeues(requeues', k)
    ensures Budget(queue, requeues, limit, broken) == Budget(queue, requeues', limit, broken)
  {
    if queue != [] {
      BudgetFrame(queue[..|queue| - 1], requeues, requeues', limit, broken);
    }
  }

  lemma {:induction false} BudgetHead(queue: seq<string>, requeues: map<string, nat>, limit: int, broken: set<string>)
    requires queue != []
    ensures Budget(queue, requeues, limit, broken) == Left(queue[0], requeues, limit, broken) + Budget(queue[1..], requeues, limit, broken)
  {
    var n := |queue| - 1;
    if n > 0 {
      BudgetHead(queue[..n], requeues, limit, broken);
      assert queue[..n][1..] == queue[1..][..n - 1];
    } else {
      assert queue[..0] == queue[1..] == [];
    }
  }

  /** Handling the first key uses up one of the attempts that are left. */
  lemma AttemptUsed(queue: seq<string>, requeues: map<string, nat>, limit: int, broken: set<string>)
    requires queue != [] && Distinct(queue)
    ensures var key, tail := queue[0], queue[1..];
            && key !in tail
            && (key in broken && Requeues(requeues, key) < limit ==>
                  Budget(tail + [key], requeues[key := Requeues(requeues, key) + 1], limit, broken) < Budget(queue, requeues, limit, broken))
            && Budget(tail, requeues - {key}, limit, broken) < Budget(queue, requeues, limit, broken)
  {
    var key, tail := queue[0], queue[1..];
    BudgetHead(queue, requeues, limit, broken);
    BudgetFrame(tail, requeues, requeues - {key}, limit, broken);
    BudgetFrame(tail, requeues, requeues[key := Requeues(requeues, key) + 1], limit, broken);
    assert (tail + [key])[..|tail|] == tail;
  }

  /** What a key has been handled plus what it is still to be handled. */
  function Account(handled: multiset<string>, queue: seq<string>, requeues: map<string, nat>, limit: int, broken: set<string>, key: string): nat {
    handled[key] + if key in queue then Left(key, requeues, limit, broken) else 0
  }

  /** The first key fails and has a retry left. */
  predicate Again(queue: seq<string>, requeues: map<string, nat>, limit: int, broken: set<string>)
    requires queue != []
  {
    queue[0] in broken && Requeues(requeues, queue[0]) < limit
  }

  function NextQueue(queue: seq<string>, requeues: map<string, nat>, limit: int, broken: set<string>): seq<string>
    requires queue != []
  {
    if Again(queue, requeues, limit, broken) then queue[1..] + [queue[0]] else queue[1..]
  }

  function NextRequeues(queue: seq<string>, requeues: map<string, nat>, limit: int, broken: set<string>): map<string, nat>
    requires queue != []
  {
    if Again(queue, requeues, limit, broken) then requeues[queue[0] := Requeues(requeues, queue[0]) + 1] else requeues - {queue[0]}
  }

  /** Handling a key moves one attempt from the future to the past, and changes no other account. */
  lemma AccountKept(handled: multiset<string>, queue: seq<string>, requeues: map<string, nat>, limit: int, broken: set<string>, key: string)
    requires queue != [] && Distinct(queue)
    ensures var q, r := NextQueue(queue, requeues, limit, broken), NextRequeues(queue, requeues, limit, broken);
            && Account(handled + multiset{queue[0]}, q, r, limit, broken, key) == Account(handled, queue, requeues, limit, broken, key)
            && (key in q ==> key in queue)
            && (key !in q ==> Requeues(r, key) == if key in queue then 0 else Requeues(requeues, key))
  {
    assert queue[0] !in queue[1..];
    assert key in queue <==> key == queue[0] || key in queue[1..];
  }

  /** The queue with its requeue counts, and the log of handled keys. */
  class Worker {
    var queue: seq<string>
    var requeues: map<string, nat>
    ghost var handled: multiset<string>
    const limit: int

    constructor (limit: int)
      ensures queue == [] && requeues == map[] && handled == multiset{} && this.limit == limit
    {
      this.limit := limit;
      queue, requeues, handled := [], map[], multiset{};
    }

    /** A queued key is not queued twice. */
    method Add(key: string)
      requires Distinct(queue)
      modifies this`queue
      ensures Distinct(queue)
      ensures queue == if key in old(queue) then old(queue) else old(queue) + [key]
    {
      if key !in queue {
        queue := queue + [key];
      }
    }

    /**
      One key is taken, handled, and forgotten or put back; handling fails for the keys in `broken`.
      There is no more work when the queue has been shut down and drained.  What a key has been
      handled plus what it is still to be handled is the same for every key, and less is left to do.
     */
    method ProcessNextItem(broken: set<string>) returns (more: bool)
      requires Distinct(queue)
      modifies this
      ensures Distinct(queue) && (more <==> old(queue) != [])
      ensures more ==> queue == old(NextQueue(queue, requeues, limit, broken))
      ensures more ==> requeues == old(NextRequeues(queue, requeues, limit, broken))
      ensures more ==> handled == old(handled + multiset{queue[0]})
      ensures !more ==> unchanged(this)
      ensures forall key :: Account(handled, queue, requeues, limit, broken, key) == old(Account(handled, queue, requeues, limit, broken, key))
      ensures more ==> Budget(queue, requeues, limit, broken) < old(Budget(queue, requeues, limit, broken))
    {
      if queue == [] {
        return false;
      }
      more := true;
      AttemptUsed(queue, requeues, limit, broken);
      forall key {
        AccountKept(handled, queue, requeues, limit, broken, key);
      }
      var key := queue[0];
      queue := queue[1..];
      handled := handled + multiset{key};
      if key !in broken {
        requeues := requeues - {key};
      } else if Requeues(requeues, key) < limit {
        requeues := requeues[key := Requeues(requeues, key) + 1];
        queue := queue + [key];
      } else {
        requeues := requeues - {key};
      }
    }

    /**
      Bounded retry: the loop ends, a queued key that fails is handled once more than its remaining
      retries, any other queued key once, and every count of a queued key is reset.
     */
    method Work(broken: set<string>)
      requires Distinct(queue)
      modifies this
      ensures queue == []
      ensures forall key :: handled[key] == old(handled[key]) + if key in old(queue) then old(Left(key, requeues, limit, broken)) else 0
      ensures forall key :: Requeues(requeues, key) == if key in old(queue) then 0 else old(Requeues(requeues, key))
    {
      var more := true;
      while more
        invariant Distinct(queue) && (!more ==> queue == [])
        invariant forall key :: Account(handled, queue, requeues, limit, broken, key) == old(Account(handled, queue, requeues, limit, broken, key))
        invariant forall key :: key in queue ==> key in old(queue)
        invariant forall key :: key !in queue ==> Requeues(requeues, key) == if key in old(queue) then 0 else old(Requeues(requeues, key))
        decreases Budget(queue, requeues, limit, broken), more
      {
        if queue != [] {
          forall key {
            AccountKept(handled, queue, requeues, limit, broken, key);
          }
        }
        more := ProcessNextItem(broken);
      }
      forall key ensures handled[key] == old(Account(handled, queue, requeues, limit, broken, key)) {
        assert Account(handled, queue, requeues, limit, broken, key) == old(Account(handled, queue, requeues, limit, broken, key));
      }
    }

    /**
      A key that is added once to an idle worker and always fails is handled once more than the
      requeue limit allows, and then forgotten.
     */
    method AddedOnce(key: string, broken: set<string>)
      requires queue == [] && key !in requeues && key in broken
      modifies this
      ensures queue == [] && Requeues(requeues, key) == 0
      ensures handled[key] == old(handled[key]) + Max(limit, 0) + 1
    {
      Add(key);
      Work(broken);
    }
  }
}
