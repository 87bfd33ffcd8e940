/**
 * The sliding-window rate limiter of the chat backend. Each client id maps to a FIFO queue of
 * request timestamps; a request is admitted while fewer than `maxRequests` timestamps lie
 * inside the window. The wall clock is passed in as an integer `now`, and the lock is not
 * modelled: every operation runs to completion before the next starts.
 */
module RateLimiting {
  import opened Wrappers
  import Seqs
  import Sorting

  type ClientId = seq<char>

  function Max(a: int, b: int): int { if a >= b then a else b }

  /** The `while queue and queue[0] <= cutoff: popleft()` loop, as a value. */
  function Prune(q: seq<int>, cutoff: int): (r: seq<int>)
    ensures |r| <= |q|
    ensures r == [] || r[0] > cutoff
    decreases |q|
  {
    if q != [] && q[0] <= cutoff then Prune(q[1..], cutoff) else q
  }

  /** Pruning only removes from the front, and only timestamps at or before the cutoff. */
  lemma {:induction false} PruneIsSuffix(q: seq<int>, cutoff: int)
    ensures Prune(q, cutoff) == q[|q| - |Prune(q, cutoff)|..]
    ensures forall i :: 0 <= i < |q| - |Prune(q, cutoff)| ==> q[i] <= cutoff
    decreases |q|
  {
    if q != [] && q[0] <= cutoff {
      PruneIsSuffix(q[1..], cutoff);
    }
  }

  predicate Ascending(q: seq<int>) { forall i, j :: 0 <= i < j < |q| ==> q[i] <= q[j] }

  /** No timestamp in `q` lies after `now`. */
  predicate NotAfter(q: seq<int>, now: int) { forall i :: 0 <= i < |q| ==> q[i] <= now }

  /** Front-only pruning of an ascending queue leaves no expired timestamp behind. */
  lemma PruneRemovesAllExpired(q: seq<int>, cutoff: int)
    requires Ascending(q)
    ensures forall t :: t in Prune(q, cutoff) ==> t > cutoff
  {
    var r := Prune(q, cutoff);
    PruneIsSuffix(q, cutoff);
    forall t | t in r ensures t > cutoff {
      var i :| 0 <= i < |r| && r[i] == t;
      assert r[0] == q[|q| - |r|] && r[i] == q[|q| - |r| + i];
    }
  }

  /** What `is_allowed` reports. */
  datatype RateLimitInfo = RateLimitInfo(allowed: bool, remainingRequests: int, resetTime: int, retryAfter: Option<int>)

  /** The queue after a request at `now` meets the already pruned queue `pruned`. */
  function Admitted(pruned: seq<int>, now: int, maxRequests: int): seq<int>
  {
    if |pruned| < maxRequests then pruned + [now] else pruned
  }

  /** The report for a request at `now` against the already pruned queue `pruned`. */
  function Report(pruned: seq<int>, now: int, maxRequests: int, window: int): RateLimitInfo
  {
    var allowed := |pruned| < maxRequests;
    var q := Admitted(pruned, now, maxRequests);
    RateLimitInfo(
      allowed,
      Max(0, maxRequests - |pruned|) - (if allowed then 1 else 0),
      if q != [] then q[0] + window else now + window,
      if !allowed && q != [] then Some(Max(1, q[0] + window - now)) else None)
  }

  /** A request is admitted exactly when the pruned queue is below the limit; then `now` joins at the back. */
  lemma AdmissionRule(pruned: seq<int>, now: int, maxRequests: int, window: int)
    ensures Report(pruned, now, maxRequests, window).allowed <==> |pruned| < maxRequests
    ensures |pruned| < maxRequests ==> Admitted(pruned, now, maxRequests) == pruned + [now]
    ensures |pruned| >= maxRequests ==> Admitted(pruned, now, maxRequests) == pruned
  {
  }

  /** The remaining count never goes negative and counts down the admitted request. */
  lemma RemainingNeverNegative(pruned: seq<int>, now: int, maxRequests: int, window: int)
    ensures Report(pruned, now, maxRequests, window).remainingRequests >= 0
    ensures Report(pruned, now, maxRequests, window).allowed ==>
      Report(pruned, now, maxRequests, window).remainingRequests == maxRequests - |pruned| - 1
  {
  }

  /** No retry hint on admission; on denial of a non-empty queue it is the oldest entry's expiry, at least 1. */
  lemma RetryAfterRule(pruned: seq<int>, now: int, maxRequests: int, window: int)
    ensures Report(pruned, now, maxRequests, window).allowed ==> Report(pruned, now, maxRequests, window).retryAfter == None
    ensures !Report(pruned, now, maxRequests, window).allowed && pruned != [] ==>
      Report(pruned, now, maxRequests, window).retryAfter == Some(Max(1, pruned[0] + window - now))
    ensures !Report(pruned, now, maxRequests, window).allowed && pruned != [] ==>
      Report(pruned, now, maxRequests, window).retryAfter.value >= 1
  {
  }

  lemma PruneKeepsOrder(q: seq<int>, cutoff: int, now: int)
    requires Ascending(q) && NotAfter(q, now)
    ensures Ascending(Prune(q, cutoff)) && NotAfter(Prune(q, cutoff), now)
  {
    var p := Prune(q, cutoff);
    var off := |q| - |p|;
    PruneIsSuffix(q, cutoff);
    forall i, j | 0 <= i < j < |p| ensures p[i] <= p[j] {
      assert p[i] == q[off + i] && p[j] == q[off + j];
    }
    forall i | 0 <= i < |p| ensures p[i] <= now {
      assert p[i] == q[off + i];
    }
  }

  /** With a clock that never goes back, the queue stays ascending and bounded by `now`. */
  lemma AdmissionKeepsOrder(q: seq<int>, now: int, maxRequests: int, window: int)
    requires Ascending(q) && NotAfter(q, now)
    ensures Ascending(Admitted(Prune(q, now - window), now, maxRequests))
    ensures NotAfter(Admitted(Prune(q, now - window), now, maxRequests), now)
  {
    var p := Prune(q, now - window);
    PruneKeepsOrder(q, now - window, now);
    if |p| < maxRequests {
      var a := p + [now];
      forall i, j | 0 <= i < j < |a| ensures a[i] <= a[j] {
        if j < |p| { assert a[i] == p[i] && a[j] == p[j]; } else { assert a[i] == p[i]; }
      }
      assert forall i :: 0 <= i < |p| ==> a[i] == p[i];
    }
  }

  /** The queue never grows beyond the limit. */
  lemma AdmissionBounded(pruned: seq<int>, now: int, maxRequests: int)
    requires |pruned| <= Max(0, maxRequests)
    ensures |Admitted(pruned, now, maxRequests)| <= Max(0, maxRequests)
  {
  }

  /** The pruning loop of `is_allowed`, `get_client_stats`, `get_global_stats` and `cleanup_expired`. */
  method PruneQueue(q: seq<int>, cutoff: int) returns (r: seq<int>)
    ensures r == Prune(q, cutoff)
    ensures r == [] || r[0] > cutoff
  {
    r := q;
    while r != [] && r[0] <= cutoff
      invariant Prune(r, cutoff) == Prune(q, cutoff)
      decreases |r|
    {
      r := r[1..];
    }
  }

  /** Every queue pruned, and clients whose queue became empty dropped. */
  function PruneAll(m: map<ClientId, seq<int>>, cutoff: int): (r: map<ClientId, seq<int>>)
    ensures forall c :: c in r ==> r[c] != []
  {
    map c | c in m && Prune(m[c], cutoff) != [] :: Prune(m[c], cutoff)
  }

  /** The number of timestamps the clients `ks` keep after pruning. */
  function PrunedTotal(m: map<ClientId, seq<int>>, ks: seq<ClientId>, cutoff: int): nat
    requires forall k :: k in ks ==> k in m
  {
    if ks == [] then 0 else PrunedTotal(m, ks[..|ks| - 1], cutoff) + |Prune(m[ks[|ks| - 1]], cutoff)|
  }

  /** What a sweep over the clients `ks`, in that order, keeps: their non-empty pruned queues. */
  function SweepOf(m: map<ClientId, seq<int>>, ks: seq<ClientId>, cutoff: int): map<ClientId, seq<int>>
    requires forall k :: k in ks ==> k in m
  {
    if ks == [] then map[]
    else
      var c := ks[|ks| - 1];
      var kept := SweepOf(m, ks[..|ks| - 1], cutoff);
      if Prune(m[c], cutoff) != [] then kept[c := Prune(m[c], cutoff)] else kept
  }

  /** How many of the clients `ks` a sweep drops because their queue pruned to nothing. */
  function DroppedOf(m: map<ClientId, seq<int>>, ks: seq<ClientId>, cutoff: int): nat
    requires forall k :: k in ks ==> k in m
  {
    if ks == [] then 0
    else DroppedOf(m, ks[..|ks| - 1], cutoff) + (if Prune(m[ks[|ks| - 1]], cutoff) == [] then 1 else 0)
  }

  /** A sweep keeps exactly the visited clients whose pruned queue is non-empty, with that queue. */
  lemma {:induction false} SweepOfKeeps(m: map<ClientId, seq<int>>, ks: seq<ClientId>, cutoff: int)
    requires forall k :: k in ks ==> k in m
    ensures forall c :: c in SweepOf(m, ks, cutoff) <==> c in ks && Prune(m[c], cutoff) != []
    ensures forall c :: c in SweepOf(m, ks, cutoff) ==> SweepOf(m, ks, cutoff)[c] == Prune(m[c], cutoff)
    decreases |ks|
  {
    if ks != [] {
      var init := ks[..|ks| - 1];
      SweepOfKeeps(m, init, cutoff);
      assert ks == init + [ks[|ks| - 1]];
    }
  }

  /** Over distinct clients, every visited client is either kept or dropped, never both. */
  lemma {:induction false} SweepOfCounts(m: map<ClientId, seq<int>>, ks: seq<ClientId>, cutoff: int)
    requires forall k :: k in ks ==> k in m
    requires Seqs.Distinct(ks)
    ensures |SweepOf(m, ks, cutoff)| + DroppedOf(m, ks, cutoff) == |ks|
    decreases |ks|
  {
    if ks != [] {
      var init := ks[..|ks| - 1];
      var c := ks[|ks| - 1];
      SweepOfCounts(m, init, cutoff);
      SweepOfKeeps(m, init, cutoff);
      assert c !in init;
      assert c !in SweepOf(m, init, cutoff);
    }
  }

  /** A sweep over every client, each once, is `PruneAll` and drops the rest. */
  lemma SweepOfAll(m: map<ClientId, seq<int>>, keys: seq<ClientId>, cutoff: int)
    requires Seqs.Distinct(keys) && forall c :: c in m <==> c in keys
    ensures SweepOf(m, keys, cutoff) == PruneAll(m, cutoff)
    ensures DroppedOf(m, keys, cutoff) == |m| - |PruneAll(m, cutoff)|
  {
    SweepOfKeeps(m, keys, cutoff);
    SweepOfCounts(m, keys, cutoff);
    Seqs.DistinctCardinality(keys);
    assert m.Keys == set c | c in keys;
  }

  /** No queue of `m` holds more than `bound` timestamps. */
  predicate QueuesBounded(m: map<ClientId, seq<int>>, bound: int) { forall c :: c in m ==> |m[c]| <= bound }

  /** Pruning never lengthens a queue, so a bound on every queue survives `PruneAll`. */
  lemma PruneAllBounded(m: map<ClientId, seq<int>>, cutoff: int, bound: int)
    requires QueuesBounded(m, bound)
    ensures QueuesBounded(PruneAll(m, cutoff), bound)
  {
  }

  /** The order in which a sweep visits the clients: ascending, each once. */
  function ClientOrder(m: map<ClientId, seq<int>>): (keys: seq<ClientId>)
    ensures Seqs.Distinct(keys) && forall c :: c in m <==> c in keys
  {
    Sorting.SortedSet(m.Keys)
  }

  /**
   * One pass over all clients, in the order `keys`: returns the pruned map without empty
   * queues, the number of clients dropped and the number of timestamps left.
   */
  method Sweep(m: map<ClientId, seq<int>>, cutoff: int, keys: seq<ClientId>)
    returns (kept: map<ClientId, seq<int>>, dropped: nat, active: nat)
    requires Seqs.Distinct(keys) && forall c :: c in m <==> c in keys
    ensures kept == PruneAll(m, cutoff)
    ensures dropped == |m| - |kept|
    ensures active == PrunedTotal(m, keys, cutoff)
  {
    kept, dropped, active := map[], 0, 0;
    var i := 0;
    while i < |keys|
      invariant 0 <= i <= |keys|
      invariant kept == SweepOf(m, keys[..i], cutoff)
      invariant dropped == DroppedOf(m, keys[..i], cutoff)
      invariant active == PrunedTotal(m, keys[..i], cutoff)
    {
      SweepStep(m, keys, i, cutoff);
      var q := PruneQueue(m[keys[i]], cutoff);
      if q != [] {
        kept := kept[keys[i] := q];
      } else {
        dropped := dropped + 1;
      }
      active := active + |q|;
      i := i + 1;
    }
    assert keys[..i] == keys;
    SweepOfAll(m, keys, cutoff);
  }

  /** Visiting one more client. */
  lemma SweepStep(m: map<ClientId, seq<int>>, keys: seq<ClientId>, i: nat, cutoff: int)
    requires i < |keys| && forall k :: k in keys ==> k in m
    ensures var q := Prune(m[keys[i]], cutoff);
            && SweepOf(m, keys[..i + 1], cutoff) == (if q != [] then SweepOf(m, keys[..i], cutoff)[keys[i] := q] else SweepOf(m, keys[..i], cutoff))
            && DroppedOf(m, keys[..i + 1], cutoff) == DroppedOf(m, keys[..i], cutoff) + (if q == [] then 1 else 0)
            && PrunedTotal(m, keys[..i + 1], cutoff) == PrunedTotal(m, keys[..i], cutoff) + |q|
  {
    assert keys[..i + 1][..i] == keys[..i];
  }

  /** The per-client numbers reported by `get_client_stats`. */
  datatype ClientStats = ClientStats(
    clientId: ClientId, currentRequests: nat, maxRequests: int, remainingRequests: nat,
    windowSeconds: int, oldestRequestAge: int)

  /** The totals reported by `get_global_stats`. */
  datatype GlobalStats = GlobalStats(
    totalActiveClients: nat, totalActiveRequests: nat, maxRequestsPerClient: int, windowSeconds: int, timestamp: int)

  class RateLimiter {
    const maxRequests: int
    const windowSeconds: int
    /** The `defaultdict(deque)`: a missing client reads as an empty queue and is created on access. */
    var clients: map<ClientId, seq<int>>

    /** No queue ever holds more than `maxRequests` timestamps. */
    ghost predicate Valid()
      reads this
    {
      QueuesBounded(clients, Max(0, maxRequests))
    }

    function QueueOf(client: ClientId): seq<int>
      reads this
    {
      if client in clients then clients[client] else []
    }

    constructor (requestsPerMinute: int := 10, windowSeconds: int := 60)
      ensures maxRequests == requestsPerMinute && this.windowSeconds == windowSeconds
      ensures clients == map[]
      ensures Valid()
    {
      maxRequests := requestsPerMinute;
      this.windowSeconds := windowSeconds;
      clients := map[];
    }

    /** `is_allowed`: prune the client's queue, admit iff below the limit, report. */
    method IsAllowed(client: ClientId, now: int) returns (info: RateLimitInfo)
      requires Valid()
      modifies this
      ensures Valid()
      ensures var pruned := Prune(old(QueueOf(client)), now - windowSeconds);
        clients == old(clients)[client := Admitted(pruned, now, maxRequests)] &&
        info == Report(pruned, now, maxRequests, windowSeconds)
    {
      var q := PruneQueue(QueueOf(client), now - windowSeconds);
      var allowed := |q| < maxRequests;
      var remaining := Max(0, maxRequests - |q|);
      if allowed {
        q := q + [now];
        remaining := remaining - 1;
      }
      var resetTime := now + windowSeconds;
      if q != [] {
        resetTime := q[0] + windowSeconds;
      }
      var retryAfter := None;
      if !allowed && q != [] {
        retryAfter := Some(Max(1, q[0] + windowSeconds - now));
      }
      clients := clients[client := q];
      info := RateLimitInfo(allowed, remaining, resetTime, retryAfter);
    }

    /** `get_client_stats`: prunes (and thereby creates) the client's queue and reports on it. */
    method GetClientStats(client: ClientId, now: int) returns (stats: ClientStats)
      requires Valid()
      modifies this
      ensures Valid()
      ensures var pruned := Prune(old(QueueOf(client)), now - windowSeconds);
        clients == old(clients)[client := pruned] &&
        stats == ClientStats(client, |pruned|, maxRequests, Max(0, maxRequests - |pruned|), windowSeconds,
                             if pruned != [] then now - pruned[0] else 0)
    {
      var q := PruneQueue(QueueOf(client), now - windowSeconds);
      clients := clients[client := q];
      stats := ClientStats(client, |q|, maxRequests, Max(0, maxRequests - |q|), windowSeconds,
                           if q != [] then now - q[0] else 0);
    }

    /** `get_global_stats`: prunes every queue, drops empty ones and counts what is left. */
    method GetGlobalStats(now: int) returns (stats: GlobalStats)
      requires Valid()
      modifies this
      ensures Valid()
      ensures clients == PruneAll(old(clients), now - windowSeconds)
      ensures stats.totalActiveClients == |clients|
      ensures stats.totalActiveRequests == PrunedTotal(old(clients), ClientOrder(old(clients)), now - windowSeconds)
      ensures stats.maxRequestsPerClient == maxRequests && stats.windowSeconds == windowSeconds && stats.timestamp == now
    {
      var m, cutoff := clients, now - windowSeconds;
      var keys := ClientOrder(m);
      PruneAllBounded(m, cutoff, Max(0, maxRequests));
      var kept, _, active := Sweep(m, cutoff, keys);
      clients := kept;
      stats := GlobalStats(|kept|, active, maxRequests, windowSeconds, now);
    }

    /** `reset_client`: true iff the client had an entry; afterwards it has none. */
    method ResetClient(client: ClientId) returns (existed: bool)
      requires Valid()
      modifies this
      ensures Valid()
      ensures existed <==> client in old(clients)
      ensures clients == old(clients) - {client}
    {
      existed := client in clients;
      if existed {
        clients := clients - {client};
      }
    }

    /** `cleanup_expired`: prunes every queue, drops clients left empty and returns how many were dropped. */
    method CleanupExpired(now: int) returns (removed: nat)
      requires Valid()
      modifies this
      ensures Valid()
      ensures clients == PruneAll(old(clients), now - windowSeconds)
      ensures removed == |old(clients)| - |clients|
    {
      var m, cutoff := clients, now - windowSeconds;
      var keys := ClientOrder(m);
      PruneAllBounded(m, cutoff, Max(0, maxRequests));
      var kept, dropped, _ := Sweep(m, cutoff, keys);
      clients := kept;
      removed := dropped;
    }
  }
}
