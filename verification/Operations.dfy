/** The operation tracker of `pkg/terraform/operation.go`. Each method holds the operation's
    lock throughout, so each is one atomic step of the protocols that share it. */
module Operations {
  import opened Wrappers

  /** An error is an opaque value; times are opaque clock readings. */
  datatype OpState = OpState(ty: string, startTime: Option<nat>, endTime: Option<nat>, err: Option<int>)

  const FRESH := OpState("", None, None, None)

  predicate Running(o: OpState) {
    o.startTime.Some? && o.endTime.None?
  }

  function MarkedStart(o: OpState, ty: string, now: nat): OpState {
    o.(ty := ty, startTime := Some(now), endTime := None)
  }

  function MarkedEnd(o: OpState, now: nat): OpState {
    o.(endTime := Some(now))
  }

  function Cleared(o: OpState, preserveError: bool): OpState {
    OpState("", None, None, if preserveError then o.err else None)
  }

  function Failed(o: OpState, err: Option<int>): OpState {
    o.(err := err)
  }

  class Operation {
    var ty: string
    var startTime: Option<nat>
    var endTime: Option<nat>
    var err: Option<int>

    function View(): OpState
      reads this
    {
      OpState(ty, startTime, endTime, err)
    }

    constructor ()
      ensures View() == FRESH
    {
      ty, startTime, endTime, err := "", None, None, None;
    }

    /** Refuses while an operation is running; keeps the error of the last one. */
    method MarkStart(t: string, now: nat) returns (ok: bool)
      modifies this
      ensures ok == !Running(old(View()))
      ensures View() == if ok then MarkedStart(old(View()), t, now) else old(View())
      ensures Running(View())
    {
      if startTime.Some? && endTime.None? {
        return false;
      }
      ty := t;
      startTime := Some(now);
      endTime := None;
      return true;
    }

    method MarkEnd(now: nat)
      modifies this
      ensures View() == MarkedEnd(old(View()), now) && !Running(View())
    {
      endTime := Some(now);
    }

    method Flush()
      modifies this
      ensures View() == FRESH
    {
      Clear(false);
    }

    method Clear(preserveError: bool)
      modifies this
      ensures View() == Cleared(old(View()), preserveError) && !Running(View())
    {
      ty := "";
      startTime := None;
      endTime := None;
      if !preserveError {
        err := None;
      }
    }

    method IsRunning() returns (b: bool)
      ensures b == Running(View())
    {
      b := startTime.Some? && endTime.None?;
    }

    method IsEnded() returns (b: bool)
      ensures b == View().endTime.Some?
    {
      b := endTime.Some?;
    }

    method SetError(e: Option<int>)
      modifies this
      ensures View() == Failed(old(View()), e)
    {
      err := e;
    }
  }
}
