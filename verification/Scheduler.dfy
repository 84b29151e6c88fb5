/** The shared provider scheduler of `pkg/terraform/provider_scheduler.go`. */
module Scheduler {

  type Handle = string

  /** A running provider process with its users and its invocations so far. */
  datatype Entry = Entry(inUse: nat, invocationCount: nat)

  type Runners = map<Handle, Entry>

  datatype Outcome = Reused | RetryLater | StopFailed | Fresh

  const NEW_ENTRY := Entry(0, 0)

  /** Ten per cent over the time to live, truncated towards zero. */
  function ReuseBudget(ttl: int): (b: int)
    ensures ttl >= 0 ==> b >= ttl
  {
    if ttl >= 0 then ttl + ttl / 10 else -((-ttl) + (-ttl) / 10)
  }

  /** What Start does with the runner of a handle; `stopOk` is the outcome of stopping an expired one. */
  function StartOutcome(runners: Runners, ttl: int, h: Handle, stopOk: bool): Outcome {
    if h !in runners then Fresh
    else if runners[h].invocationCount < ttl || runners[h].inUse > 0 then
      if runners[h].invocationCount > ReuseBudget(ttl) then RetryLater else Reused
    else if stopOk then Fresh
    else StopFailed
  }

  function AfterStart(runners: Runners, ttl: int, h: Handle, stopOk: bool): Runners {
    if StartOutcome(runners, ttl, h, stopOk).Fresh? then runners[h := NEW_ENTRY] else runners
  }

  function Incremented(runners: Runners, h: Handle): Runners
    requires h in runners
  {
    runners[h := Entry(runners[h].inUse + 1, runners[h].invocationCount + 1)]
  }

  function Decremented(runners: Runners, h: Handle): Runners
    requires h in runners
  {
    if runners[h].inUse == 0 then runners
    else runners[h := Entry(runners[h].inUse - 1, runners[h].invocationCount)]
  }

  class SharedProviderScheduler {
    const ttl: int
    var runners: Runners

    constructor (ttl: int)
      ensures this.ttl == ttl && runners == map[]
    {
      this.ttl := ttl;
      runners := map[];
    }

    /** An in-use handle is returned on reuse and on a fresh start; starting the process may still
        fail, which the caller sees as an error. */
    method Start(h: Handle, stopOk: bool, startOk: bool) returns (outcome: Outcome, ok: bool)
      modifies this
      ensures outcome == StartOutcome(old(runners), ttl, h, stopOk)
      ensures runners == AfterStart(old(runners), ttl, h, stopOk)
      ensures ok == ((outcome.Reused? || outcome.Fresh?) && startOk)
    {
      if h in runners {
        var r := runners[h];
        if r.invocationCount < ttl || r.inUse > 0 {
          if r.invocationCount > ReuseBudget(ttl) {
            return RetryLater, false;
          }
          return Reused, startOk;
        }
        if !stopOk {
          return StopFailed, false;
        }
      }
      runners := runners[h := NEW_ENTRY];
      return Fresh, startOk;
    }

    method Increment(h: Handle)
      requires h in runners
      modifies this
      ensures runners == Incremented(old(runners), h)
    {
      var r := runners[h];
      runners := runners[h := r.(inUse := r.inUse + 1, invocationCount := r.invocationCount + 1)];
    }

    method Decrement(h: Handle)
      requires h in runners
      modifies this
      ensures runners == Decremented(old(runners), h)
    {
      if runners[h].inUse == 0 {
        return;
      }
      runners := runners[h := runners[h].(inUse := runners[h].inUse - 1)];
    }
  }
}
