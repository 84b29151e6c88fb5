/** The per-request rate limiter registry of `pkg/internal/ratelimiter/encapsulating.go`: requests with the same key
    share a bucket, whose limiter counts their waits. */
module RateLimiting {

  type Request = string

  type Failures = map<Request, nat>

  function Count(f: Failures, req: Request): nat {
    if req in f then f[req] else 0
  }

  /** The delays that requests must agree on to share a limiter. */
  datatype Delays = Delays(baseDelay: int, maxDelay: int)

  function Doubled(delay: int, n: nat): int {
    if n == 0 then delay else 2 * Doubled(delay, n - 1)
  }

  /** The delay before the retry that follows n failures. */
  function Backoff(d: Delays, n: nat): int {
    if Doubled(d.baseDelay, n) > d.maxDelay then d.maxDelay else Doubled(d.baseDelay, n)
  }

  /** The library's exponential failure limiter. */
  class RateLimiter {
    const delays: Delays
    var failures: Failures

    constructor (delays: Delays)
      ensures this.delays == delays && failures == map[]
    {
      this.delays := delays;
      failures := map[];
    }

    method When(req: Request) returns (delay: int)
      modifies this
      ensures delay == Backoff(delays, Count(old(failures), req))
      ensures failures == old(failures)[req := Count(old(failures), req) + 1]
    {
      delay := Backoff(delays, Count(failures, req));
      failures := failures[req := Count(failures, req) + 1];
    }

    method Forget(req: Request)
      modifies this
      ensures failures == old(failures) - {req}
    {
      failures := failures - {req};
    }
  }

  datatype Bucket = Bucket(rateLimiter: RateLimiter, requests: set<Request>)

  // ------------------------------------------------------ the registry as values

  /** A request is in a key's bucket exactly when it maps to the key, and no bucket is empty. */
  ghost predicate Registered<K(!new)>(inner: map<Request, K>, buckets: map<K, Bucket>) {
    && (forall r <- inner :: inner[r] in buckets && r in buckets[inner[r]].requests)
    && (forall k <- buckets :: buckets[k].requests != {})
    && (forall k, r | k in buckets && r in buckets[k].requests :: r in inner && inner[r] == k)
  }

  /** No two keys share a limiter, and none uses the default one. */
  ghost predicate Unshared<K(!new)>(buckets: map<K, Bucket>, default: RateLimiter) {
    && (forall k <- buckets :: buckets[k].rateLimiter != default)
    && (forall k <- buckets, l <- buckets | k != l :: buckets[k].rateLimiter != buckets[l].rateLimiter)
  }

  /** A limiter holds state for members of its bucket only, and counts a member's waits. */
  ghost predicate Counted<K(!new)>(buckets: map<K, Bucket>, failures: map<K, Failures>, waits: map<Request, nat>) {
    && failures.Keys == buckets.Keys
    && (forall k <- buckets :: failures[k].Keys <= buckets[k].requests)
    && (forall k, r | k in buckets && r in buckets[k].requests :: r in waits && Count(failures[k], r) == waits[r])
  }

  ghost predicate Within<K(!new)>(buckets: map<K, Bucket>, limiters: set<RateLimiter>) {
    forall k <- buckets :: buckets[k].rateLimiter in limiters
  }

  /** The limiter offered is one that a new key would have to itself. */
  ghost predicate Separate<K(!new)>(buckets: map<K, Bucket>, key: K, rl: RateLimiter, default: RateLimiter) {
    key in buckets || (rl != default && forall k <- buckets :: buckets[k].rateLimiter != rl)
  }

  function Joined<K>(buckets: map<K, Bucket>, key: K, rl: RateLimiter, req: Request): map<K, Bucket> {
    if key in buckets then buckets[key := buckets[key].(requests := buckets[key].requests + {req})]
    else buckets[key := Bucket(rl, {req})]
  }

  function Left<K>(buckets: map<K, Bucket>, key: K, req: Request): map<K, Bucket>
    requires key in buckets
  {
    var rest := buckets[key].requests - {req};
    if rest == {} then buckets - {key} else buckets[key := buckets[key].(requests := rest)]
  }

  function Added<K>(inner: map<Request, K>, buckets: map<K, Bucket>, key: K, rl: RateLimiter, req: Request)
    : map<K, Bucket>
    requires req in inner ==> inner[req] in buckets
  {
    var joined := Joined(buckets, key, rl, req);
    if req in inner && inner[req] != key then Left(joined, inner[req], req) else joined
  }

  function Removed<K>(inner: map<Request, K>, buckets: map<K, Bucket>, req: Request): map<K, Bucket>
    requires req in inner ==> inner[req] in buckets
  {
    if req in inner then Left(buckets, inner[req], req) else buckets
  }

  lemma AddedRegistered<K(!new)>(inner: map<Request, K>, buckets: map<K, Bucket>, key: K, rl: RateLimiter, req: Request)
    requires Registered(inner, buckets)
    ensures Registered(inner[req := key], Added(inner, buckets, key, rl, req))
  {
    var inner', added := inner[req := key], Added(inner, buckets, key, rl, req);
    assert req in added[key].requests;
    forall r <- inner'
      ensures inner'[r] in added && r in added[inner'[r]].requests
    {
      assert r != req ==> r in buckets[inner[r]].requests - {req};
    }
    forall k <- added
      ensures added[k].requests != {}
    {}
  }

  /** Adding and removing moves requests about; limiters stay with their keys. */
  lemma AddedLimiters<K(!new)>(inner: map<Request, K>, buckets: map<K, Bucket>, key: K, rl: RateLimiter, req: Request)
    requires req in inner ==> inner[req] in buckets
    ensures forall k <- Added(inner, buckets, key, rl, req) ::
      if k in buckets then Added(inner, buckets, key, rl, req)[k].rateLimiter == buckets[k].rateLimiter
      else k == key && Added(inner, buckets, key, rl, req)[k].rateLimiter == rl
  {}

  /** What is done to the limiter of one request is seen under no other key. */
  lemma UnsharedFacts<K(!new)>(inner: map<Request, K>, buckets: map<K, Bucket>, default: RateLimiter, req: Request)
    ensures Unshared(buckets, default) ==> forall k <- buckets :: buckets[k].rateLimiter != default
    ensures Unshared(buckets, default) && req in inner && inner[req] in buckets ==>
      forall k <- buckets | k != inner[req] :: buckets[k].rateLimiter != buckets[inner[req]].rateLimiter
  {}

  lemma RemovedRegistered<K(!new)>(inner: map<Request, K>, buckets: map<K, Bucket>, req: Request)
    requires Registered(inner, buckets)
    ensures Registered(inner - {req}, Removed(inner, buckets, req))
    ensures forall k <- Removed(inner, buckets, req) :: req !in Removed(inner, buckets, req)[k].requests
  {}

  lemma AddedWithin<K(!new)>(inner: map<Request, K>, buckets: map<K, Bucket>, key: K, rl: RateLimiter, req: Request,
                             limiters: set<RateLimiter>, default: RateLimiter)
    requires Registered(inner, buckets) && Within(buckets, limiters)
    ensures Within(buckets, limiters + {rl}) && Within(Added(inner, buckets, key, rl, req), limiters + {rl})
    ensures default in limiters && (key in buckets || rl !in limiters) ==> Separate(buckets, key, rl, default)
  {}

  lemma AddedUnshared<K(!new)>(inner: map<Request, K>, buckets: map<K, Bucket>, key: K, rl: RateLimiter, req: Request,
                               default: RateLimiter)
    requires Registered(inner, buckets) && Unshared(buckets, default)
    requires Separate(buckets, key, rl, default)
    ensures Unshared(Added(inner, buckets, key, rl, req), default)
  {}

  lemma RemovedUnshared<K(!new)>(inner: map<Request, K>, buckets: map<K, Bucket>, req: Request, default: RateLimiter)
    requires Registered(inner, buckets) && Unshared(buckets, default)
    ensures Unshared(Removed(inner, buckets, req), default)
  {}

  /** The counts after an Add: a new key knows nothing, and the request's old key forgets it. */
  ghost predicate Carried<K(!new)>(inner: map<Request, K>, buckets: map<K, Bucket>, key: K, req: Request,
                                   before: map<K, Failures>, after: map<K, Failures>)
    requires before.Keys == buckets.Keys
  {
    forall k <- after :: after[k] ==
      (if k !in buckets then map[]
       else if req in inner && inner[req] == k && k != key then before[k] - {req}
       else before[k])
  }

  /** Only the added request moves between buckets. */
  lemma AddedMembers<K(!new)>(inner: map<Request, K>, buckets: map<K, Bucket>, key: K, rl: RateLimiter, req: Request)
    requires Registered(inner, buckets)
    ensures var after := Added(inner, buckets, key, rl, req);
      forall k, r | k in after && r in after[k].requests ::
        if r == req then k == key else k in buckets && r in buckets[k].requests
    ensures forall k | k in buckets && k in Added(inner, buckets, key, rl, req) ::
      if req in inner && inner[req] == k && k != key
      then buckets[k].requests - {req} <= Added(inner, buckets, key, rl, req)[k].requests
      else buckets[k].requests <= Added(inner, buckets, key, rl, req)[k].requests
  {}

  /** The counts after a request has left its old key for a key that is new or knows nothing of it. */
  lemma AddedCounted<K(!new)>(inner: map<Request, K>, buckets: map<K, Bucket>, key: K, rl: RateLimiter, req: Request,
                              before: map<K, Failures>, waits: map<Request, nat>, after: map<K, Failures>)
    requires Registered(inner, buckets) && Counted(buckets, before, waits)
    requires after.Keys == Added(inner, buckets, key, rl, req).Keys
    requires Carried(inner, buckets, key, req, before, after)
    ensures Counted(Added(inner, buckets, key, rl, req), after,
                    if req in inner && inner[req] == key then waits else waits[req := 0])
  {
    hide Added;
    AddedMembers(inner, buckets, key, rl, req);
    var added := Added(inner, buckets, key, rl, req);
    var waits' := if req in inner && inner[req] == key then waits else waits[req := 0];
    forall k, r | k in added && r in added[k].requests
      ensures r in waits' && Count(after[k], r) == waits'[r]
    {
      if r == req {
        assert k in buckets && !(req in inner && inner[req] == key) ==> req !in before[k];
      }
    }
  }

  /** The counts after a request has left its key: only its own is gone. */
  ghost predicate Forgotten<K(!new)>(inner: map<Request, K>, req: Request, before: map<K, Failures>,
                                     after: map<K, Failures>)
  {
    forall k <- after ::
      k in before && after[k] == (if req in inner && inner[req] == k then before[k] - {req} else before[k])
  }

  lemma RemovedCounted<K(!new)>(inner: map<Request, K>, buckets: map<K, Bucket>, req: Request,
                                before: map<K, Failures>, waits: map<Request, nat>, after: map<K, Failures>)
    requires Registered(inner, buckets) && Counted(buckets, before, waits)
    requires after.Keys == Removed(inner, buckets, req).Keys && Forgotten(inner, req, before, after)
    ensures Counted(Removed(inner, buckets, req), after, waits - {req})
  {}

  lemma MemberCounted<K(!new)>(inner: map<Request, K>, buckets: map<K, Bucket>, req: Request,
                               failures: map<K, Failures>, waits: map<Request, nat>)
    requires Registered(inner, buckets) && Counted(buckets, failures, waits) && req in inner
    ensures req in waits && inner[req] in failures && Count(failures[inner[req]], req) == waits[req]
  {}

  /** Only the limiter of the request's own key, if it has one, counts differently. */
  ghost predicate Touched<K(!new)>(inner: map<Request, K>, req: Request, before: map<K, Failures>,
                                   after: map<K, Failures>, own: Failures)
  {
    after == if req in inner then before[inner[req] := own] else before
  }

  /** A wait or a reset of one request, seen by the limiter of its key alone. */
  lemma CountedAfter<K(!new)>(inner: map<Request, K>, buckets: map<K, Bucket>, req: Request,
                              before: map<K, Failures>, waits: map<Request, nat>,
                              after: map<K, Failures>, own: Failures, n: nat)
    requires Registered(inner, buckets) && Counted(buckets, before, waits)
    requires Touched(inner, req, before, after, own)
    requires req in inner ==> inner[req] in before && OneCount(before[inner[req]], own, req, n)
    ensures Counted(buckets, after, if req in inner then waits[req := n] else waits)
  {
    hide OneCount, Count, Registered;
    if req in inner {
      OneCountFacts(before[inner[req]], own, req, n);
      MembersKeyed(inner, buckets);
      assert after.Keys == before.Keys;
      forall k <- buckets
        ensures after[k] == if k == inner[req] then own else before[k]
      {}
    }
  }

  lemma MembersKeyed<K(!new)>(inner: map<Request, K>, buckets: map<K, Bucket>)
    requires Registered(inner, buckets)
    ensures forall k, r | k in buckets && r in buckets[k].requests :: r in inner && inner[r] == k
    ensures forall r <- inner :: inner[r] in buckets && r in buckets[inner[r]].requests
  {}

  /** The failures after one request's count has become n. */
  ghost predicate OneCount(f: Failures, own: Failures, req: Request, n: nat) {
    own == f[req := n] || (own == f - {req} && n == 0)
  }

  lemma OneCountFacts(f: Failures, own: Failures, req: Request, n: nat)
    requires OneCount(f, own, req, n)
    ensures own.Keys <= f.Keys + {req} && Count(own, req) == n
    ensures forall r | r != req :: Count(own, r) == Count(f, r)
  {}

  // -------------------------------------------------------------- the registry

  class EncapsulatingRateLimiter<K(==,!new)> {
    const defaultRateLimiter: RateLimiter
    var inner: map<Request, K>
    var rateLimiters: map<K, Bucket>

    /** Whether every key so far came with a limiter of its own that had counted nothing. */
    ghost var exclusive: bool
    /** For each overridden request, its When calls since its last Forget or since it got its key. */
    ghost var waits: map<Request, nat>

    /** Every limiter the registry was ever given. */
    ghost var limiters: set<RateLimiter>

    ghost predicate Valid()
      reads this, limiters
    {
      && defaultRateLimiter in limiters
      && Registered(inner, rateLimiters)
      && Within(rateLimiters, limiters)
      && waits.Keys == inner.Keys
      && (exclusive ==> Tracks())
    }

    ghost function FailuresByKey(): (f: map<K, Failures>)
      requires Within(rateLimiters, limiters)
      reads this`rateLimiters, this`limiters, limiters
      ensures f.Keys == rateLimiters.Keys
    {
      map k | k in rateLimiters :: rateLimiters[k].rateLimiter.failures
    }

    constructor (defaultRateLimiter: RateLimiter)
      ensures Valid() && exclusive && this.defaultRateLimiter == defaultRateLimiter
      ensures inner == map[] && rateLimiters == map[] && waits == map[] && limiters == {defaultRateLimiter}
    {
      this.defaultRateLimiter := defaultRateLimiter;
      inner, rateLimiters := map[], map[];
      exclusive, waits, limiters := true, map[], {defaultRateLimiter};
    }

    /** Associates the request with the key; the limiter is taken only when the key is new. */
    method Add(key: K, rl: RateLimiter, req: Request)
      requires Valid()
      modifies this, limiters
      ensures Valid()
      ensures exclusive == (old(exclusive) && old(key in rateLimiters || (rl !in limiters && rl.failures == map[])))
      ensures inner == old(inner)[req := key] && limiters == old(limiters) + {rl}
      ensures rateLimiters == Added(old(inner), old(rateLimiters), key, rl, req)
      ensures waits == if old(req in inner && inner[req] == key) then old(waits) else old(waits)[req := 0]
      ensures old(exclusive) ==> defaultRateLimiter.failures == old(defaultRateLimiter.failures)
    {
      hide Registered, Counted, Added, Unshared, FailuresByKey, Within, Separate, Tracks;
      RegisteredFacts(inner, rateLimiters);
      DefaultApart(req);
      AddedRegistered(inner, rateLimiters, key, rl, req);
      AddedWithin(inner, rateLimiters, key, rl, req, limiters, defaultRateLimiter);
      LimiterWithin(inner, rateLimiters, req, limiters);
      exclusive := exclusive && (key in rateLimiters || (rl !in limiters && rl.failures == map[]));
      Admit(rl);
      Tracked(key, rl, req);
    }

    lemma Facts()
      requires Valid()
      ensures defaultRateLimiter in limiters && waits.Keys == inner.Keys
      ensures forall req: Request :: RateLimiterFor(req) in limiters
    {}

    /** What is in no bucket, no limiter but the default one knows. */
    lemma NoTrace(req: Request)
      requires Valid() && exclusive && req !in inner
      ensures forall k <- rateLimiters ::
        req !in rateLimiters[k].requests && req !in rateLimiters[k].rateLimiter.failures
    {
      forall k <- rateLimiters
        ensures req !in rateLimiters[k].rateLimiter.failures
      {
        assert FailuresByKey()[k] == rateLimiters[k].rateLimiter.failures;
      }
    }

    lemma DefaultApart(req: Request)
      requires Valid()
      ensures req in inner ==> inner[req] in rateLimiters
      ensures exclusive && req in inner ==> rateLimiters[inner[req]].rateLimiter != defaultRateLimiter
    {}

    ghost method Admit(rl: RateLimiter)
      requires Within(rateLimiters, limiters)
      modifies this`limiters
      ensures limiters == old(limiters) + {rl}
      ensures Within(rateLimiters, limiters) && Tracks() == old(Tracks())
    {
      ghost var before := FailuresByKey();
      limiters := limiters + {rl};
      assert before == FailuresByKey();
    }

    /** Whether no two keys share a limiter and every member's waits are counted by its own. */
    ghost predicate Tracks()
      requires Within(rateLimiters, limiters)
      reads this`rateLimiters, this`limiters, this`waits, limiters
    {
      Unshared(rateLimiters, defaultRateLimiter) && Counted(rateLimiters, FailuresByKey(), waits)
    }

    /** Associating with limiters of their own moves no count but the request's. */
    method Tracked(key: K, rl: RateLimiter, req: Request)
      requires Registered(inner, rateLimiters)
      requires req in inner ==> inner[req] in rateLimiters
      requires rl in limiters && Within(rateLimiters, limiters)
      modifies this`inner, this`rateLimiters, this`waits
      modifies if req in inner && inner[req] in rateLimiters then {rateLimiters[inner[req]].rateLimiter} else {}
      ensures inner == old(inner)[req := key]
      ensures rateLimiters == Added(old(inner), old(rateLimiters), key, rl, req)
      ensures waits == if old(req in inner && inner[req] == key) then old(waits) else old(waits)[req := 0]
      ensures Within(rateLimiters, limiters)
      ensures old(Tracks() && Separate(rateLimiters, key, rl, defaultRateLimiter) &&
                  (key in rateLimiters || rl.failures == map[])) ==>
        Tracks()
    {
      hide Registered, Counted, Added, Unshared, FailuresByKey, Carried, Within;
      ghost var inner0, buckets0, before, waits0 := inner, rateLimiters, FailuresByKey(), waits;
      ghost var tracks := Tracks() && Separate(rateLimiters, key, rl, defaultRateLimiter) &&
                          (key in rateLimiters || rl.failures == map[]);
      if tracks {
        AddedUnshared(inner, rateLimiters, key, rl, req, defaultRateLimiter);
      }
      waits := if req in inner && inner[req] == key then waits else waits[req := 0];
      Carry(key, rl, req);
      if tracks {
        AddedCounted(inner0, buckets0, key, rl, req, before, waits0, FailuresByKey());
      }
    }

    /** The counts of every key but the request's old one are carried over as they are. */
    method Carry(key: K, rl: RateLimiter, req: Request)
      requires req in inner ==> inner[req] in rateLimiters
      requires rl in limiters && Within(rateLimiters, limiters)
      modifies this`inner, this`rateLimiters
      modifies if req in inner && inner[req] in rateLimiters then {rateLimiters[inner[req]].rateLimiter} else {}
      ensures inner == old(inner)[req := key]
      ensures rateLimiters == Added(old(inner), old(rateLimiters), key, rl, req)
      ensures Within(rateLimiters, limiters)
      ensures old(Unshared(rateLimiters, defaultRateLimiter) && Separate(rateLimiters, key, rl, defaultRateLimiter) &&
                  (key in rateLimiters || rl.failures == map[])) ==>
        Carried(old(inner), old(rateLimiters), key, req, old(FailuresByKey()), FailuresByKey())
    {
      hide Added, Unshared;
      AddedLimiters(inner, rateLimiters, key, rl, req);
      UnsharedFacts(inner, rateLimiters, defaultRateLimiter, req);
      Associate(key, rl, req);
    }

    /** The body of Add: the request joins the key's bucket before it leaves its old one. */
    method Associate(key: K, rl: RateLimiter, req: Request)
      requires req in inner ==> inner[req] in rateLimiters
      modifies this`inner, this`rateLimiters
      modifies if req in inner && inner[req] in rateLimiters then {rateLimiters[inner[req]].rateLimiter} else {}
      ensures inner == old(inner)[req := key]
      ensures rateLimiters == Added(old(inner), old(rateLimiters), key, rl, req)
      ensures old(req in inner) ==>
        var old' := old(rateLimiters[inner[req]].rateLimiter);
        old'.failures == if old(inner[req] == key) then old(rateLimiters[inner[req]].rateLimiter.failures)
                         else old(rateLimiters[inner[req]].rateLimiter.failures) - {req}
    {
      if key !in rateLimiters {
        rateLimiters := rateLimiters[key := Bucket(rl, {req})];
      } else {
        rateLimiters := rateLimiters[key := rateLimiters[key].(requests := rateLimiters[key].requests + {req})];
      }
      if req in inner && inner[req] != key {
        Cleanup(req);
      }
      inner := inner[req := key];
    }

    method Remove(req: Request)
      requires Valid()
      modifies this, limiters
      ensures Valid() && exclusive == old(exclusive) && limiters == old(limiters)
      ensures inner == old(inner) - {req} && waits == old(waits) - {req}
      ensures rateLimiters == Removed(old(inner), old(rateLimiters), req)
      ensures old(exclusive) ==> defaultRateLimiter.failures == old(defaultRateLimiter.failures)
    {
      hide Registered, Counted, Removed, Unshared, FailuresByKey, Forgotten, Within;
      RegisteredFacts(inner, rateLimiters);
      DefaultApart(req);
      RemovedRegistered(inner, rateLimiters, req);
      ghost var inner0, buckets0, before, waits0 := inner, rateLimiters, FailuresByKey(), waits;
      if exclusive {
        RemovedUnshared(inner, rateLimiters, req, defaultRateLimiter);
      }
      LimiterWithin(inner, rateLimiters, req, limiters);
      waits := waits - {req};
      Cleanup(req);
      if exclusive {
        RemovedCounted(inner0, buckets0, req, before, waits0, FailuresByKey());
      }
    }

    /** The limiter of the request's key, or the default one. */
    function RateLimiterFor(req: Request): RateLimiter
      reads this`inner, this`rateLimiters
    {
      if req in inner && inner[req] in rateLimiters then rateLimiters[inner[req]].rateLimiter else defaultRateLimiter
    }

    /** The limiter in charge of the request counts one more wait. */
    method DelegateWhen(req: Request) returns (delay: int)
      requires RateLimiterFor(req) in limiters && Within(rateLimiters, limiters)
      requires req in inner ==> inner[req] in rateLimiters
      modifies RateLimiterFor(req)
      ensures delay == Backoff(RateLimiterFor(req).delays, Count(old(RateLimiterFor(req).failures), req))
      ensures RateLimiterFor(req).failures ==
        old(RateLimiterFor(req).failures)[req := Count(old(RateLimiterFor(req).failures), req) + 1]
      ensures Unshared(rateLimiters, defaultRateLimiter) ==>
        Touched(inner, req, old(FailuresByKey()), FailuresByKey(), RateLimiterFor(req).failures)
    {
      hide Unshared;
      UnsharedFacts(inner, rateLimiters, defaultRateLimiter, req);
      delay := RateLimiterFor(req).When(req);
    }

    method DelegateForget(req: Request)
      requires RateLimiterFor(req) in limiters && Within(rateLimiters, limiters)
      requires req in inner ==> inner[req] in rateLimiters
      modifies RateLimiterFor(req)
      ensures RateLimiterFor(req).failures == old(RateLimiterFor(req).failures) - {req}
      ensures Unshared(rateLimiters, defaultRateLimiter) ==>
        Touched(inner, req, old(FailuresByKey()), FailuresByKey(), RateLimiterFor(req).failures)
    {
      hide Unshared;
      UnsharedFacts(inner, rateLimiters, defaultRateLimiter, req);
      RateLimiterFor(req).Forget(req);
    }

    /** Delegated to the limiter in charge: an overridden request waits by its own count alone. */
    method When(req: Request) returns (delay: int)
      requires Valid()
      modifies this`waits, RateLimiterFor(req)
      ensures Valid() && exclusive == old(exclusive)
      ensures delay == Backoff(RateLimiterFor(req).delays, Count(old(RateLimiterFor(req).failures), req))
      ensures exclusive && req in inner ==> delay == Backoff(RateLimiterFor(req).delays, old(waits)[req])
      ensures RateLimiterFor(req).failures ==
        old(RateLimiterFor(req).failures)[req := Count(old(RateLimiterFor(req).failures), req) + 1]
      ensures waits == if req in inner then old(waits)[req := old(waits)[req] + 1] else old(waits)
      ensures exclusive && req in inner ==> defaultRateLimiter.failures == old(defaultRateLimiter.failures)
    {
      hide Registered, Counted, Unshared, FailuresByKey, Touched, Within, Backoff;
      Facts();
      DefaultApart(req);
      ghost var before := FailuresByKey();
      if exclusive && req in inner {
        OwnFailures(req);
        MemberCounted(inner, rateLimiters, req, before, waits);
      }
      delay := DelegateWhen(req);
      if exclusive {
        CountedAfter(inner, rateLimiters, req, before, waits, FailuresByKey(), RateLimiterFor(req).failures,
                     if req in waits then waits[req] + 1 else 0);
      }
      waits := if req in inner then waits[req := waits[req] + 1] else waits;
    }

    method Forget(req: Request)
      requires Valid()
      modifies this`waits, RateLimiterFor(req)
      ensures Valid() && exclusive == old(exclusive)
      ensures RateLimiterFor(req).failures == old(RateLimiterFor(req).failures) - {req}
      ensures waits == if req in inner then old(waits)[req := 0] else old(waits)
      ensures exclusive && req in inner ==> defaultRateLimiter.failures == old(defaultRateLimiter.failures)
    {
      hide Registered, Counted, Unshared, FailuresByKey, Touched, Within;
      Facts();
      DefaultApart(req);
      ghost var before := FailuresByKey();
      if exclusive && req in inner {
        OwnFailures(req);
      }
      DelegateForget(req);
      if exclusive {
        CountedAfter(inner, rateLimiters, req, before, waits, FailuresByKey(), RateLimiterFor(req).failures, 0);
      }
      waits := if req in inner then waits[req := 0] else waits;
    }

    lemma OwnFailures(req: Request)
      requires Valid() && req in inner
      ensures Within(rateLimiters, limiters)
      ensures inner[req] in FailuresByKey() && FailuresByKey()[inner[req]] == RateLimiterFor(req).failures
    {}

    /** For an overridden request this is exactly its waits, as long as every new key brings its own limiter. */
    method NumRequeues(req: Request) returns (n: nat)
      requires Valid()
      ensures n == Count(RateLimiterFor(req).failures, req)
      ensures exclusive && req in inner ==> n == waits[req]
    {
      n := Count(RateLimiterFor(req).failures, req);
    }

    /** Takes the request out of its bucket, forgets it there, and drops the bucket when it is empty. */
    method Cleanup(req: Request)
      requires req in inner ==> inner[req] in rateLimiters
      modifies this`inner, this`rateLimiters
      modifies if req in inner && inner[req] in rateLimiters then {rateLimiters[inner[req]].rateLimiter} else {}
      ensures inner == old(inner) - {req}
      ensures rateLimiters == Removed(old(inner), old(rateLimiters), req)
      ensures old(req in inner) ==>
        var rl := old(rateLimiters[inner[req]].rateLimiter);
        rl.failures == old(rateLimiters[inner[req]].rateLimiter.failures) - {req}
      ensures old(Within(rateLimiters, limiters)) ==> Within(rateLimiters, limiters)
      ensures old(Within(rateLimiters, limiters) && Unshared(rateLimiters, defaultRateLimiter)) ==>
        Forgotten(old(inner), req, old(FailuresByKey()), FailuresByKey())
    {
      if req !in inner {
        return;
      }
      var key := inner[req];
      inner := inner - {req};
      var bucket := rateLimiters[key];
      rateLimiters := rateLimiters[key := bucket.(requests := bucket.requests - {req})];
      bucket.rateLimiter.Forget(req);
      if bucket.requests - {req} == {} {
        rateLimiters := rateLimiters - {key};
      }
    }
  }

  lemma LimiterWithin<K(!new)>(inner: map<Request, K>, buckets: map<K, Bucket>, req: Request,
                               limiters: set<RateLimiter>)
    requires Within(buckets, limiters)
    ensures req in inner && inner[req] in buckets ==> buckets[inner[req]].rateLimiter in limiters
  {}

  lemma RegisteredFacts<K(!new)>(inner: map<Request, K>, buckets: map<K, Bucket>)
    requires Registered(inner, buckets)
    ensures forall r <- inner :: inner[r] in buckets
  {}
}
