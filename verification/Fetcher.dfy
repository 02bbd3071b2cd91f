/** The fetch layer: a first-in first-out semaphore, bounded retries and a content cache. */
module Fetcher {
  import opened Arithmetic
  import opened Wrappers
  import opened Bytes
  import opened Reader

  // ----- the semaphore -----

  type Task = nat

  /** `started` and `finished` are history; the source keeps only the counter and the queue. */
  datatype Pool = Pool(active: int, queue: seq<Task>, started: seq<Task>, finished: seq<Task>)

  datatype Event = Submitted(task: Task) | Settled(task: Task)

  const EMPTY_POOL: Pool := Pool(0, [], [], [])

  function Submit(p: Pool, limit: int, t: Task): Pool {
    if p.active < limit then p.(active := p.active + 1, started := p.started + [t])
    else p.(queue := p.queue + [t])
  }

  /** A running task settles; the oldest waiting one takes its place. */
  function Settle(p: Pool, t: Task): Pool {
    var freed := p.(active := p.active - 1, finished := p.finished + [t]);
    if p.queue == [] then freed
    else freed.(active := p.active, queue := p.queue[1..], started := p.started + [p.queue[0]])
  }

  predicate Running(p: Pool, t: Task) {
    multiset(p.finished)[t] < multiset(p.started)[t]
  }

  function Pools(limit: int, events: seq<Event>): Pool {
    if events == [] then EMPTY_POOL
    else
      var p := Pools(limit, events[..|events| - 1]);
      match events[|events| - 1]
      case Submitted(t) => Submit(p, limit, t)
      case Settled(t) => Settle(p, t)
  }

  /** Only running tasks settle. */
  predicate Possible(limit: int, events: seq<Event>) {
    forall k | 0 <= k < |events| ::
      events[k].Settled? ==> Running(Pools(limit, events[..k]), events[k].task)
  }

  function Submissions(events: seq<Event>): seq<Task> {
    if events == [] then []
    else
      Submissions(events[..|events| - 1]) +
      match events[|events| - 1] case Submitted(t) => [t] case Settled(_) => []
  }

  lemma PossiblePrefix(limit: int, events: seq<Event>)
    requires events != [] && Possible(limit, events)
    ensures Possible(limit, events[..|events| - 1])
  {
    var init := events[..|events| - 1];
    forall k | 0 <= k < |init| && init[k].Settled?
      ensures Running(Pools(limit, init[..k]), init[k].task)
    {
      assert init[..k] == events[..k] && init[k] == events[k];
    }
  }

  predicate Orderly(p: Pool, limit: int, submitted: seq<Task>) {
    && 0 <= p.active <= limit
    && p.active == |p.started| - |p.finished|
    && (p.queue != [] ==> p.active == limit)
    && p.started + p.queue == submitted
    && multiset(p.finished) <= multiset(p.started)
  }

  lemma SubmitKeepsOrder(p: Pool, limit: int, submitted: seq<Task>, t: Task)
    requires limit >= 1 && Orderly(p, limit, submitted)
    ensures Orderly(Submit(p, limit, t), limit, submitted + [t])
  {
    if p.active < limit {
      assert p.queue == [] && p.started + [t] + p.queue == p.started + p.queue + [t];
    } else {
      assert p.started + (p.queue + [t]) == p.started + p.queue + [t];
    }
  }

  lemma SettleKeepsOrder(p: Pool, limit: int, submitted: seq<Task>, t: Task)
    requires limit >= 1 && Orderly(p, limit, submitted) && Running(p, t)
    ensures Orderly(Settle(p, t), limit, submitted)
  {
    var next := Settle(p, t);
    RunningRoom(p, t);
    if p.queue != [] {
      assert p.queue == [p.queue[0]] + p.queue[1..];
      assert next.started + next.queue == p.started + p.queue;
    }
  }

  lemma RunningRoom(p: Pool, t: Task)
    requires Running(p, t) && multiset(p.finished) <= multiset(p.started)
    ensures multiset(p.finished + [t]) <= multiset(p.started)
    ensures |p.finished| < |p.started|
  {
    assert multiset(p.finished + [t]) == multiset(p.finished) + multiset{t};
    var rest := multiset(p.started) - multiset(p.finished + [t]);
    assert multiset(p.started) == multiset(p.finished + [t]) + rest;
    assert |multiset(p.started)| == |p.finished| + 1 + |rest|;
  }

  /**
   Over every interleaving of submissions and completions at most `limit` tasks run, a task waits
   only while the pool is full, and tasks start in the order they were submitted, each once.
   */
  lemma {:induction false} EveryRunIsOrderly(limit: int, events: seq<Event>)
    requires limit >= 1 && Possible(limit, events)
    ensures Orderly(Pools(limit, events), limit, Submissions(events))
  {
    hide Orderly;
    if events == [] {
      assert Orderly(EMPTY_POOL, limit, []) by { EmptyIsOrderly(limit); }
    } else {
      var n := |events| - 1;
      PossiblePrefix(limit, events);
      EveryRunIsOrderly(limit, events[..n]);
      var p := Pools(limit, events[..n]);
      match events[n] {
        case Submitted(t) =>
          SubmitKeepsOrder(p, limit, Submissions(events[..n]), t);
        case Settled(t) =>
          SettleKeepsOrder(p, limit, Submissions(events[..n]), t);
          assert Submissions(events) == Submissions(events[..n]);
      }
    }
  }

  lemma EmptyIsOrderly(limit: int)
    requires limit >= 1
    ensures Orderly(EMPTY_POOL, limit, [])
  {
  }

  /** No task is stranded: once every started task has finished, every submitted one had started. */
  lemma QuietPoolIsDone(limit: int, events: seq<Event>)
    requires limit >= 1 && Possible(limit, events)
    requires |Pools(limit, events).finished| == |Pools(limit, events).started|
    ensures Pools(limit, events).started == Submissions(events)
  {
    hide Pools, Submissions, Possible;
    EveryRunIsOrderly(limit, events);
    var p := Pools(limit, events);
    assert p.started + [] == p.started;
  }

  /** A limit of zero or less strands everything, so `limit >= 1` is exactly what is needed. */
  lemma {:induction false} NonPositiveLimitStrands(limit: int, events: seq<Event>)
    requires limit <= 0 && Possible(limit, events)
    ensures Pools(limit, events) == Pool(0, Submissions(events), [], [])
  {
    if events == [] {
    } else {
      var n := |events| - 1;
      PossiblePrefix(limit, events);
      NonPositiveLimitStrands(limit, events[..n]);
      var p := Pools(limit, events[..n]);
      assert events[n].Settled? ==> Running(p, events[n].task);
      assert Submissions(events) == Submissions(events[..n]) + if events[n].Submitted? then [events[n].task] else [];
    }
  }

  /** The semaphore object: a counter and a queue of waiting starts. */
  class Limiter {
    const limit: int
    var active: int
    var queue: seq<Task>
    ghost var started: seq<Task>
    ghost var finished: seq<Task>

    ghost function State(): Pool
      reads this
    {
      Pool(active, queue, started, finished)
    }

    constructor (limit: int)
      ensures this.limit == limit && State() == EMPTY_POOL
    {
      this.limit := limit;
      active, queue := 0, [];
      started, finished := [], [];
    }

    method StartTask(t: Task)
      modifies this`active, this`started
      ensures active == old(active) + 1 && started == old(started) + [t]
    {
      active := active + 1;
      started := started + [t];
    }

    method Enqueue(t: Task)
      modifies this
      ensures State() == Submit(old(State()), limit, t)
    {
      if active < limit {
        StartTask(t);
      } else {
        queue := queue + [t];
      }
    }

    method Next(ghost t: Task)
      modifies this
      ensures State() == Settle(old(State()), t)
    {
      finished := finished + [t];
      active := active - 1;
      if |queue| > 0 {
        var run := queue[0];
        queue := queue[1..];
        StartTask(run);
      }
    }
  }

  // ----- retries and cache -----

  type Gateway = nat -> Result<File, ReadError>

  /**
   The first successful attempt within the budget decides; otherwise the last error does. `calls`
   is the number of requests made.
   */
  method FetchWithRetry(attemptOnce: Gateway, maxRetries: int)
    returns (r: Result<File, ReadError>, calls: nat)
    ensures r.Ok? <==> exists k | 0 <= k <= maxRetries :: attemptOnce(k).Ok?
    ensures r.Ok? ==> 0 < calls <= maxRetries + 1 && r == attemptOnce(calls - 1)
                      && forall k | 0 <= k < calls - 1 :: attemptOnce(k).Err?
    ensures r.Err? && maxRetries >= 0 ==> calls == maxRetries + 1 && r == attemptOnce(maxRetries)
    ensures maxRetries < 0 ==> calls == 0 && r == Err(FetchFailed)
  {
    var lastErr := FetchFailed;
    var attempt := 0;
    while attempt <= maxRetries
      invariant 0 <= attempt && (maxRetries >= 0 ==> attempt <= maxRetries + 1)
      invariant maxRetries < 0 ==> attempt == 0
      invariant forall k | 0 <= k < attempt :: attemptOnce(k).Err?
      invariant lastErr == if attempt == 0 then FetchFailed else attemptOnce(attempt - 1).error
    {
      var reply := attemptOnce(attempt);
      if reply.Ok? {
        return reply, attempt + 1;
      }
      lastErr := reply.error;
      attempt := attempt + 1;
    }
    r, calls := Err(lastErr), attempt;
  }

  type Cache = map<Cid, File>

  /** Every cached file is the one its identifier names. */
  ghost predicate CacheHonest(cache: Option<Cache>, content: Cid -> File) {
    cache.Some? ==> forall cid | cid in cache.value :: cache.value[cid] == content(cid)
  }

  predicate Cached(cache: Option<Cache>, cid: Cid) {
    cache.Some? && cid in cache.value
  }

  /** Cache first, if there is one, then the gateway; a fetched file is cached. */
  method FetchCid(
      cache: Option<Cache>, cid: Cid, attemptOnce: Gateway, maxRetries: int, ghost content: Cid -> File)
    returns (r: Result<File, ReadError>, cache': Option<Cache>, calls: nat)
    requires CacheHonest(cache, content)
    requires forall k :: attemptOnce(k).Ok? ==> attemptOnce(k).value == content(cid)
    ensures CacheHonest(cache', content) && cache'.Some? == cache.Some?
    ensures r.Ok? ==> r.value == content(cid)
    ensures r.Ok? && cache.Some? ==> cache' == Some(cache.value[cid := content(cid)])
    ensures r.Err? ==> cache' == cache && !Cached(cache, cid)
    ensures r.Ok? <==> Cached(cache, cid) || exists k | 0 <= k <= maxRetries :: attemptOnce(k).Ok?
    ensures Cached(cache, cid) ==> calls == 0
  {
    if cache.Some? && cid in cache.value {
      assert cache.value[cid := cache.value[cid]] == cache.value;
      return Ok(cache.value[cid]), cache, 0;
    }
    r, calls := FetchWithRetry(attemptOnce, maxRetries);
    cache' := cache;
    if r.Ok? && cache.Some? {
      cache' := Some(cache.value[cid := r.value]);
    }
  }

  /**
   The fetcher with its two pools. A call that misses the cache is queued in the pool of its priority;
   once it runs it fetches, frees its place and caches the file.
   */
  class GatewayFetcher {
    const maxRetries: int
    const bloomLimit: Limiter
    const indexLimit: Limiter
    var cache: Option<Cache>

    ghost predicate Valid()
    {
      bloomLimit != indexLimit
    }

    constructor (concurrency: int, priorityConcurrency: int, maxRetries: int, cache: Option<Cache>)
      ensures Valid() && fresh(bloomLimit) && fresh(indexLimit)
      ensures bloomLimit.limit == concurrency && indexLimit.limit == priorityConcurrency
      ensures bloomLimit.State() == EMPTY_POOL && indexLimit.State() == EMPTY_POOL
      ensures this.maxRetries == maxRetries && this.cache == cache
    {
      this.maxRetries, this.cache := maxRetries, cache;
      bloomLimit := new Limiter(concurrency);
      indexLimit := new Limiter(priorityConcurrency);
    }

    /** The pool of a priority, and the other one. */
    function Pool(priority: bool): Limiter {
      if priority then indexLimit else bloomLimit
    }

    /** A cached file is handed out at once and enters no pool; a miss enters its own pool only. */
    method Request(cid: Cid, priority: bool, task: Task) returns (hit: Option<File>)
      requires Valid()
      modifies Pool(priority)
      ensures hit.Some? <==> Cached(cache, cid)
      ensures hit.Some? ==> hit.value == cache.value[cid]
                            && Pool(priority).State() == old(Pool(priority).State())
      ensures hit.None? ==>
                Pool(priority).State() == Submit(old(Pool(priority).State()), Pool(priority).limit, task)
      ensures Pool(!priority).State() == old(Pool(!priority).State())
      ensures priority ==> bloomLimit.State() == old(bloomLimit.State())
      ensures !priority ==> indexLimit.State() == old(indexLimit.State())
    {
      if cache.Some? && cid in cache.value {
        return Some(cache.value[cid]);
      }
      var limiter := Pool(priority);
      limiter.Enqueue(task);
      return None;
    }

    /** A running fetch ends: its place goes to the oldest waiting call of its pool, whatever came back. */
    method Finish(cid: Cid, priority: bool, task: Task, attemptOnce: Gateway, ghost content: Cid -> File)
      returns (r: Result<File, ReadError>, calls: nat)
      requires Valid() && Running(Pool(priority).State(), task)
      requires CacheHonest(cache, content)
      requires forall k :: attemptOnce(k).Ok? ==> attemptOnce(k).value == content(cid)
      modifies this`cache, Pool(priority)
      ensures Pool(priority).State() == Settle(old(Pool(priority).State()), task)
      ensures Pool(!priority).State() == old(Pool(!priority).State())
      ensures priority ==> bloomLimit.State() == old(bloomLimit.State())
      ensures !priority ==> indexLimit.State() == old(indexLimit.State())
      ensures r.Ok? <==> exists k | 0 <= k <= maxRetries :: attemptOnce(k).Ok?
      ensures r.Ok? ==> r.value == content(cid)
      ensures cache == if r.Ok? && old(cache).Some? then Some(old(cache).value[cid := content(cid)]) else old(cache)
      ensures CacheHonest(cache, content) && calls <= Max(0, maxRetries + 1)
    {
      r, calls := FetchWithRetry(attemptOnce, maxRetries);
      var limiter := Pool(priority);
      limiter.Next(task);
      if r.Ok? && cache.Some? {
        cache := Some(cache.value[cid := r.value]);
      }
    }
  }
}
