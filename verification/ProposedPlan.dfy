/** proposedState, the entry to the merge: what the loops of `pkg/controller/proposed_state.go` compute, said in
    terms of the prior state and the configuration alone. */
module ProposedPlan {
  import opened ProposedState
  import opened ProposedStateLoops
  import opened ProposedStatePaths
  import opened ProposedStateProvenance
  import opened ProposedStateReplan
  import opened Wrappers

  /** At every path, the configuration's values are kept and all others are accounted for; for a null configuration
      the prior state is planned. There is no plan only if a correlation compares a pair on which its walk can fail. */
  method ProposeState(s: Schema, prior: Value, config: Value) returns (r: Option<Value>)
    requires Supported(s) && Conforms(s, prior) && Conforms(s, config)
    ensures r.None? ==> MayFail(s, prior, config)
    ensures r.Some? ==> Conforms(s, r.value)
    ensures r.Some? && config.Null? ==> r.value == prior
    ensures r.Some? ==>
      forall p: Path | At(config, p).Some? && !At(config, p).value.Null? ::
        At(r.value, p).Some? && SameHead(At(r.value, p).value, At(config, p).value)
    ensures r.Some? && !config.Null? ==>
      forall p: Path :: Explained(AtElement(BlockElement, s), Some(prior), config, r.value, p)
    ensures r.Some? && (config.Null? || Replannable(s, config)) ==>
      ProposedNew(s, r.value, config) == r.value && !MayFail(s, r.value, config)
  {
    hide Supported, ConformsObject, At, SameHead, Explained, Replannable, SomeBlockMayFail;
    r := ProposeNew(s, prior, config);
    if r.Some? {
      if config.Null? || Replannable(s, config) {
        ReplanIsFixedPoint(s, prior, config);
      }
      forall p: Path | At(config, p).Some? && !At(config, p).value.Null?
        ensures At(r.value, p).Some? && SameHead(At(r.value, p).value, At(config, p).value)
      {
        ConfigWins(s, prior, config, p);
      }
      if !config.Null? {
        forall p: Path
          ensures Explained(AtElement(BlockElement, s), Some(prior), config, r.value, p)
        {
          Provenance(s, prior, config, p);
        }
      }
    }
  }

  /** Planning, and planning again from what was planned: nothing changes any more, and nothing fails. */
  method ProposeTwice(s: Schema, prior: Value, config: Value) returns (planned: Option<Value>, again: Option<Value>)
    requires Supported(s) && Conforms(s, prior) && Conforms(s, config)
    ensures planned.None? ==> again.None? && MayFail(s, prior, config)
    ensures planned.Some? ==> Conforms(s, planned.value)
    ensures planned.Some? && (config.Null? || Replannable(s, config)) ==> again == planned
    ensures planned.Some? && prior == config ==> planned.value == config
  {
    hide Supported, ProposedNew, Replannable, MayFail;
    if config.Null? || Replannable(s, config) {
      ReplanIsFixedPoint(s, prior, config);
    }
    PlannedOverItself(s, config);
    planned := ProposeNew(s, prior, config);
    again := None;
    if planned.Some? {
      again := ProposeNew(s, planned.value, config);
    }
  }
}
