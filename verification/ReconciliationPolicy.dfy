/** How reconciles and deletions drive the rate limiter registry: the key computed from a policy
    (`pkg/reconciler/reconciliationpolicy/reconciler.go`), the clean-up of the finalizer (`finalizer.go`), and
    what a whole history of them leaves a request's retry count at. */
module ReconciliationPolicy {
  import opened RateLimiting
  import opened Wrappers

  datatype Override = Override(baseDelay: Option<int>, maxDelay: Option<int>)

  datatype Lookup = Present | NotFound | Failed

  /** What the policy source says: an error, no policy, or one with or without a rate limiter. */
  datatype Source = SourceFailed | NoPolicy | Policy(exponentialFailureRateLimiter: Option<Override>)

  function KeyOf(o: Override, defaults: Delays): Delays {
    Delays(if o.baseDelay.Some? then o.baseDelay.value else defaults.baseDelay,
           if o.maxDelay.Some? then o.maxDelay.value else defaults.maxDelay)
  }

  // ------------------------------------------------ the registry as a simple map

  /** A request's override, if any, with the waits it has had under it. */
  datatype Entry = Entry(key: Delays, waits: nat)

  /** Overrides by request, and what the default limiter has counted. */
  datatype Overrides = Overrides(entries: map<Request, Entry>, unkeyed: Failures)

  function Keyed(o: Overrides, req: Request, key: Delays): Overrides {
    if req in o.entries && o.entries[req].key == key then o
    else o.(entries := o.entries[req := Entry(key, 0)])
  }

  function Dropped(o: Overrides, req: Request): Overrides {
    o.(entries := o.entries - {req})
  }

  function Waited(o: Overrides, req: Request): Overrides {
    if req in o.entries then o.(entries := o.entries[req := o.entries[req].(waits := o.entries[req].waits + 1)])
    else o.(unkeyed := o.unkeyed[req := Count(o.unkeyed, req) + 1])
  }

  function Reset(o: Overrides, req: Request): Overrides {
    if req in o.entries then o.(entries := o.entries[req := o.entries[req].(waits := 0)])
    else o.(unkeyed := o.unkeyed - {req})
  }

  function Requeues(o: Overrides, req: Request): nat {
    if req in o.entries then o.entries[req].waits else Count(o.unkeyed, req)
  }

  /** What the request has to wait next: its own delay or the default one, doubled once for each wait. */
  function NextDelay(o: Overrides, defaults: Delays, req: Request): int {
    Backoff(if req in o.entries then o.entries[req].key else defaults, Requeues(o, req))
  }

  // ------------------------------------------------------------ the two controllers

  /** Every limiter has the delays of the key it is registered under. */
  ghost predicate OwnDelays(buckets: map<Delays, Bucket>) {
    forall k <- buckets :: buckets[k].rateLimiter.delays == k
  }

  lemma AddedOwnDelays(inner: map<Request, Delays>, buckets: map<Delays, Bucket>, key: Delays, rl: RateLimiter,
                       req: Request)
    requires OwnDelays(buckets) && rl.delays == key && (req in inner ==> inner[req] in buckets)
    ensures OwnDelays(Added(inner, buckets, key, rl, req))
  {}

  lemma RemovedOwnDelays(inner: map<Request, Delays>, buckets: map<Delays, Bucket>, req: Request)
    requires OwnDelays(buckets) && (req in inner ==> inner[req] in buckets)
    ensures OwnDelays(Removed(inner, buckets, req))
  {}

  /** The registry with the delays a policy may leave out. */
  class ExponentialFailureRateLimiter {
    const registry: EncapsulatingRateLimiter<Delays>
    const defaults: Delays

    constructor (defaultBaseDelay: int, defaultMaxDelay: int)
      ensures Valid() && fresh(registry) && fresh(registry.limiters)
      ensures Abstract() == Overrides(map[], map[])
      ensures defaults == Delays(defaultBaseDelay, defaultMaxDelay)
    {
      var rl := new RateLimiter(Delays(defaultBaseDelay, defaultMaxDelay));
      registry := new EncapsulatingRateLimiter<Delays>(rl);
      defaults := Delays(defaultBaseDelay, defaultMaxDelay);
    }

    ghost predicate Valid()
      reads registry, registry.limiters
    {
      && registry.Valid() && registry.exclusive
      && registry.defaultRateLimiter.delays == defaults && OwnDelays(registry.rateLimiters)
    }

    ghost function Abstract(): Overrides
      requires Valid()
      reads registry, registry.limiters
    {
      Overrides(map r | r in registry.inner :: Entry(registry.inner[r], registry.waits[r]),
                registry.defaultRateLimiter.failures)
    }

    /** The rate limiter part of a reconcile. */
    method SetRateLimiter(req: Request, hasSource: bool, lookup: Lookup, source: Source) returns (failed: bool)
      requires Valid()
      modifies registry, registry.limiters
      ensures Valid() && fresh(registry.limiters - old(registry.limiters))
      ensures failed == (hasSource && (lookup.Failed? || (lookup.Present? && source.SourceFailed?)))
      ensures Abstract() ==
        if !hasSource || !lookup.Present? || source.SourceFailed? then old(Abstract())
        else if source.Policy? && source.exponentialFailureRateLimiter.Some?
        then Keyed(old(Abstract()), req, KeyOf(source.exponentialFailureRateLimiter.value, defaults))
        else Dropped(old(Abstract()), req)
    {
      hide RateLimiting.Registered, RateLimiting.Counted, RateLimiting.Unshared, RateLimiting.Added,
        RateLimiting.Removed;
      hide EncapsulatingRateLimiter.Valid;
      registry.Facts();
      if !hasSource {
        return false;
      }
      if !lookup.Present? {
        return lookup.Failed?;
      }
      if source.SourceFailed? {
        return true;
      }
      if source.NoPolicy? || source.exponentialFailureRateLimiter.None? {
        registry.DefaultApart(req);
        RemovedOwnDelays(registry.inner, registry.rateLimiters, req);
        registry.Remove(req);
        return false;
      }
      Configure(req, source.exponentialFailureRateLimiter.value);
      failed := false;
    }

    /** The key from the policy and the defaults, with a limiter of its own in case the key is new. */
    method Configure(req: Request, o: Override)
      requires Valid()
      modifies registry, registry.limiters
      ensures Valid() && fresh(registry.limiters - old(registry.limiters))
      ensures Abstract() == Keyed(old(Abstract()), req, KeyOf(o, defaults))
    {
      hide RateLimiting.Registered, RateLimiting.Counted, RateLimiting.Unshared, RateLimiting.Added,
        RateLimiting.Removed;
      hide EncapsulatingRateLimiter.Valid;
      registry.Facts();
      var baseDelay := if o.baseDelay.Some? then o.baseDelay.value else defaults.baseDelay;
      var maxDelay := if o.maxDelay.Some? then o.maxDelay.value else defaults.maxDelay;
      var rl := new RateLimiter(Delays(baseDelay, maxDelay));
      registry.DefaultApart(req);
      AddedOwnDelays(registry.inner, registry.rateLimiters, Delays(baseDelay, maxDelay), rl, req);
      registry.Add(Delays(baseDelay, maxDelay), rl, req);
    }

    /** The finalizer: a successful removal leaves no trace of the request, a failed one leaves all of it. */
    method RemoveFinalizer(req: Request, innerFails: bool) returns (failed: bool)
      requires Valid()
      modifies registry, registry.limiters
      ensures Valid() && registry.limiters == old(registry.limiters)
      ensures failed == innerFails
      ensures Abstract() == if innerFails then old(Abstract()) else Dropped(old(Abstract()), req)
      ensures !innerFails ==>
        req !in registry.inner && forall k <- registry.rateLimiters :: req !in registry.rateLimiters[k].requests
      ensures !innerFails ==>
        forall k <- registry.rateLimiters :: req !in registry.rateLimiters[k].rateLimiter.failures
    {
      hide RateLimiting.Registered, RateLimiting.Counted, RateLimiting.Unshared, RateLimiting.Added,
        RateLimiting.Removed;
      hide EncapsulatingRateLimiter.Valid;
      registry.Facts();
      if innerFails {
        return true;
      }
      registry.DefaultApart(req);
      RemovedOwnDelays(registry.inner, registry.rateLimiters, req);
      registry.Remove(req);
      registry.NoTrace(req);
      failed := false;
    }

    /** A request with an override waits by the delays of its policy, any other by the default ones. */
    method When(req: Request) returns (delay: int)
      requires Valid()
      modifies registry, registry.limiters
      ensures Valid() && registry.limiters == old(registry.limiters)
      ensures delay == NextDelay(old(Abstract()), defaults, req)
      ensures Abstract() == Waited(old(Abstract()), req)
    {
      hide RateLimiting.Registered, RateLimiting.Counted, RateLimiting.Unshared, RateLimiting.Added,
        RateLimiting.Removed;
      hide EncapsulatingRateLimiter.Valid;
      hide Backoff, OwnDelays;
      registry.Facts();
      registry.DefaultApart(req);
      LimiterDelays(req);
      delay := registry.When(req);
    }

    lemma LimiterDelays(req: Request)
      requires Valid()
      ensures registry.RateLimiterFor(req).delays == if req in registry.inner then registry.inner[req] else defaults
    {
      registry.DefaultApart(req);
    }

    method Forget(req: Request)
      requires Valid()
      modifies registry, registry.limiters
      ensures Valid() && registry.limiters == old(registry.limiters)
      ensures Abstract() == Reset(old(Abstract()), req)
    {
      hide RateLimiting.Registered, RateLimiting.Counted, RateLimiting.Unshared, RateLimiting.Added,
        RateLimiting.Removed;
      hide EncapsulatingRateLimiter.Valid;
      registry.Facts();
      registry.Forget(req);
    }

    method NumRequeues(req: Request) returns (n: nat)
      requires Valid()
      ensures n == Requeues(Abstract(), req)
    {
      n := registry.NumRequeues(req);
    }
  }

  // ------------------------------------------------------------------ whole runs

  datatype Event =
    | Reconciled(req: Request, hasSource: bool, lookup: Lookup, source: Source)
    | FinalizerRemoved(req: Request, innerFails: bool)
    | Requeued(req: Request)
    | Forgotten(req: Request)

  /** The key a reconcile gives the request; None when it leaves things as they are or drops the override. */
  function GivenKey(e: Event, defaults: Delays): Option<Delays> {
    if e.Reconciled? && e.hasSource && e.lookup.Present? && e.source.Policy? &&
      e.source.exponentialFailureRateLimiter.Some?
    then Some(KeyOf(e.source.exponentialFailureRateLimiter.value, defaults))
    else None
  }

  /** Whether the event takes the request's override away. */
  predicate Drops(e: Event) {
    if e.Reconciled? then
      e.hasSource && e.lookup.Present? && !e.source.SourceFailed? &&
      !(e.source.Policy? && e.source.exponentialFailureRateLimiter.Some?)
    else
      e.FinalizerRemoved? && !e.innerFails
  }

  function Step(o: Overrides, e: Event, defaults: Delays): Overrides {
    if e.Requeued? then Waited(o, e.req)
    else if e.Forgotten? then Reset(o, e.req)
    else if Drops(e) then Dropped(o, e.req)
    else if GivenKey(e, defaults).Some? then Keyed(o, e.req, GivenKey(e, defaults).value)
    else o
  }

  function Replay(h: seq<Event>, defaults: Delays): Overrides {
    if h == [] then Overrides(map[], map[])
    else Step(Replay(h[..|h| - 1], defaults), h[|h| - 1], defaults)
  }

  /** After any history, the bucketed registry holds what a plain map of overrides would. */
  method Run(h: seq<Event>, baseDelay: int, maxDelay: int) returns (rl: ExponentialFailureRateLimiter)
    ensures rl.Valid() && rl.Abstract() == Replay(h, Delays(baseDelay, maxDelay))
  {
    hide EncapsulatingRateLimiter.Valid, ExponentialFailureRateLimiter.Valid, ExponentialFailureRateLimiter.Abstract;
    rl := new ExponentialFailureRateLimiter(baseDelay, maxDelay);
    for i := 0 to |h|
      invariant rl.Valid() && fresh(rl.registry) && fresh(rl.registry.limiters)
      invariant rl.defaults == Delays(baseDelay, maxDelay)
      invariant rl.Abstract() == Replay(h[..i], rl.defaults)
    {
      assert h[..i + 1][..i] == h[..i];
      match h[i] {
        case Reconciled(req, hasSource, lookup, source) =>
          var _ := rl.SetRateLimiter(req, hasSource, lookup, source);
        case FinalizerRemoved(req, innerFails) =>
          var _ := rl.RemoveFinalizer(req, innerFails);
        case Requeued(req) =>
          var _ := rl.When(req);
        case Forgotten(req) => rl.Forget(req);
      }
    }
    assert h[..|h|] == h;
  }

  /** The request's count starts anew: it is forgotten, or gets a key it did not have. */
  predicate Restarts(h: seq<Event>, j: nat, req: Request, defaults: Delays)
    requires j < |h|
  {
    var before := Replay(h[..j], defaults).entries;
    h[j].req == req &&
    (h[j].Forgotten? || Drops(h[j]) ||
     (GivenKey(h[j], defaults).Some? && !(req in before && before[req].key == GivenKey(h[j], defaults).value)))
  }

  function Waits(h: seq<Event>, req: Request): nat {
    if h == [] then 0
    else Waits(h[..|h| - 1], req) + if h[|h| - 1] == Requeued(req) then 1 else 0
  }

  /** An event that does not restart the count adds to it if it is a wait of the request. */
  lemma CountStep(h: seq<Event>, req: Request, defaults: Delays)
    requires h != [] && req in Replay(h, defaults).entries
    ensures var n := |h| - 1;
      var before, after := Replay(h[..n], defaults).entries, Replay(h, defaults).entries;
      if Restarts(h, n, req, defaults) then !Drops(h[n]) && after[req].waits == 0
      else req in before && after[req].waits == before[req].waits + if h[n] == Requeued(req) then 1 else 0
  {}

  lemma RestartsBefore(h: seq<Event>, n: nat, j: nat, req: Request, defaults: Delays)
    requires j < n <= |h|
    ensures Restarts(h[..n], j, req, defaults) == Restarts(h, j, req, defaults)
  {
    hide Replay;
    assert h[..n][..j] == h[..j];
  }

  lemma WaitsStep(h: seq<Event>, i: nat, req: Request)
    requires i < |h|
    ensures var n := |h| - 1; Waits(h[i..], req) == Waits(h[..n][i..], req) + if h[n] == Requeued(req) then 1 else 0
  {
    assert h[i..][..|h| - 1 - i] == h[..|h| - 1][i..];
  }

  /** The retry count of an overridden request is its waits since it was last forgotten or given its key. */
  lemma {:induction false} CountSinceRestart(h: seq<Event>, req: Request, defaults: Delays) returns (i: nat)
    requires req in Replay(h, defaults).entries
    ensures 0 < i <= |h| && Restarts(h, i - 1, req, defaults) && !Drops(h[i - 1])
    ensures forall j | i <= j < |h| :: !Restarts(h, j, req, defaults)
    ensures Replay(h, defaults).entries[req].waits == Waits(h[i..], req)
  {
    var n := |h| - 1;
    assert h != [];
    hide Replay, Restarts, Drops, Waits, Step, Requeues;
    CountStep(h, req, defaults);
    if Restarts(h, n, req, defaults) {
      i := n + 1;
      NoWaits(h[i..], req);
    } else {
      i := CountSinceRestart(h[..n], req, defaults);
      RestartsBefore(h, n, i - 1, req, defaults);
      forall j | i <= j < |h|
        ensures !Restarts(h, j, req, defaults)
      {
        if j < n {
          RestartsBefore(h, n, j, req, defaults);
        }
      }
      WaitsStep(h, i, req);
    }
  }

  /** An override has the key that its request was given last. */
  lemma {:induction false} KeyLastGiven(h: seq<Event>, req: Request, defaults: Delays) returns (k: nat)
    requires req in Replay(h, defaults).entries
    ensures k < |h| && h[k].req == req && GivenKey(h[k], defaults) == Some(Replay(h, defaults).entries[req].key)
    ensures forall j | k < j < |h| && h[j].req == req :: !Drops(h[j]) && GivenKey(h[j], defaults).None?
  {
    var n := |h| - 1;
    assert h != [];
    if h[n].req == req && GivenKey(h[n], defaults).Some? {
      k := n;
    } else {
      k := KeyLastGiven(h[..n], req, defaults);
      forall j | k < j < |h| && h[j].req == req
        ensures !Drops(h[j]) && GivenKey(h[j], defaults).None?
      {
        assert j < n ==> h[..n][j] == h[j];
      }
    }
  }

  /** What an overridden request waits next: the delay it was given last, doubled once for each of its
      waits since it was last forgotten or given another one. */
  lemma DelayAfterHistory(h: seq<Event>, req: Request, defaults: Delays) returns (k: nat, i: nat)
    requires req in Replay(h, defaults).entries
    ensures k < |h| && h[k].req == req && GivenKey(h[k], defaults).Some?
    ensures forall j | k < j < |h| && h[j].req == req :: !Drops(h[j]) && GivenKey(h[j], defaults).None?
    ensures 0 < i <= |h| && Restarts(h, i - 1, req, defaults)
    ensures forall j | i <= j < |h| :: !Restarts(h, j, req, defaults)
    ensures NextDelay(Replay(h, defaults), defaults, req) == Backoff(GivenKey(h[k], defaults).value, Waits(h[i..], req))
  {
    hide Replay, Restarts, Drops, Waits, GivenKey, Backoff;
    k := KeyLastGiven(h, req, defaults);
    i := CountSinceRestart(h, req, defaults);
  }

  lemma NoWaits(h: seq<Event>, req: Request)
    requires h == []
    ensures Waits(h, req) == 0
  {}
}
