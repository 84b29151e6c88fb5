/** The loops of the proposed-state merge (`pkg/controller/proposed_state.go`), as methods proved against the merge of
    ProposedState. Where the walk of a set correlation fails, there is no plan. */
module ProposedStateLoops {
  import opened ProposedState
  import opened ProposedStateWalk
  import opened Wrappers

  // ------------------------------------------------- when there may be no plan

  /** Some correlation on the way compares a pair of elements at which the walk can fail. */
  ghost predicate MayFail(s: Schema, prior: Value, config: Value)
    requires Supported(s) && Conforms(s, prior) && Conforms(s, config)
    decreases s, 1
  {
    !config.Null? && SomeBlockMayFail(s, if prior.Null? then EmptyValue(s) else prior, config)
  }

  ghost predicate SomeBlockMayFail(s: Schema, prior: Value, config: Value)
    requires Supported(s) && ConformsObject(s, prior) && ConformsObject(s, config)
    decreases s, 0
  {
    exists n <- s.blocks :: BlockMayFail(s.blocks[n], prior.fields[n], config.fields[n])
  }

  ghost predicate BlockMayFail(b: Block, prior: Value, config: Value)
    requires SupportedBlock(b) && ConformsBlock(b, prior) && ConformsBlock(b, config)
    decreases b
  {
    !config.Null? && NestingMayFail(b.mode, BlockElement, b.body, prior, config)
  }

  /** The walk over elements of a nested attribute looks up nothing and cannot fail. */
  ghost predicate NestingMayFail(mode: NestingMode, kind: ElementKind, s: Schema, prior: Value, config: Value)
    requires SupportedElement(kind, s)
    requires (prior.Null? || ConformsNesting(mode, s, prior)) && ConformsNesting(mode, s, config)
    decreases s, 4
  {
    kind.BlockElement? &&
    match mode
    case Single => MayFail(s, prior, config)
    case ListMode => ListMayFail(s, ElemsOf(prior), config.elems)
    case SetMode => SetMayFail(s, MembersOf(prior), config.members, Unused(|MembersOf(prior)|))
    case MapMode => exists k <- config.entries ::
      k in EntriesOf(prior) && MayFail(s, EntriesOf(prior)[k], config.entries[k])
  }

  ghost predicate ListMayFail(s: Schema, priors: seq<Value>, configs: seq<Value>)
    requires Supported(s) && AllConform(s, priors) && AllConform(s, configs)
    decreases s, 3
  {
    exists i :: 0 <= i < |configs| && i < |priors| && MayFail(s, priors[i], configs[i])
  }

  /** An element is compared with the unused prior ones up to the first that fits. */
  ghost predicate ComparesReaching(s: Schema, priors: seq<Value>, config: Value, used: seq<bool>)
    requires AllConform(s, priors) && ConformsObject(s, config) && |used| == |priors|
  {
    exists m :: 0 <= m < FirstMatch(BlockElement, s, priors, config, used, 0) && !used[m] &&
      Reaches(s, priors[m], config)
  }

  ghost predicate SetMayFail(s: Schema, priors: seq<Value>, configs: seq<Value>, used: seq<bool>)
    requires Supported(s) && AllConform(s, priors) && AllConform(s, configs) && |used| == |priors|
    decreases s, 3, |configs|
  {
    configs != [] &&
    var j := FirstMatch(BlockElement, s, priors, configs[0], used, 0);
    || ComparesReaching(s, priors, configs[0], used)
    || MayFail(s, if j < |priors| then priors[j] else Null, configs[0])
    || SetMayFail(s, priors, configs[1..], if j < |priors| then used[j := true] else used)
  }

  // -------------------------------------------------- the loops of the source

  /** proposedNew: the attribute loop, then the block loop, each in an arbitrary order. */
  method ProposeNew(s: Schema, prior: Value, config: Value) returns (r: Option<Value>)
    requires Supported(s) && Conforms(s, prior) && Conforms(s, config)
    ensures r.Some? ==> r.value == ProposedNew(s, prior, config)
    ensures r.None? ==> MayFail(s, prior, config)
    decreases s, 1
  {
    hide SomeBlockMayFail;
    if config.Null? && prior.Null? {
      return Some(prior);
    }
    var from := prior;
    if prior.Null? {
      from := EmptyValue(s);
    }
    if config.Null? {
      return Some(from);
    }
    var newAttrs := ProposeAttributes(s, from, config);
    var newBlocks := ProposeBlocks(s, from, config);
    if newBlocks.None? {
      return None;
    }
    r := Some(Obj(newAttrs + newBlocks.value));
  }

  method ProposeBlocks(s: Schema, prior: Value, config: Value) returns (r: Option<map<string, Value>>)
    requires Supported(s) && ConformsObject(s, prior) && ConformsObject(s, config)
    ensures r.Some? ==> r.value == ProposedBlocks(s, prior, config)
    ensures r.None? ==> SomeBlockMayFail(s, prior, config)
    decreases s, 0
  {
    hide ProposedBlock, ConformsBlock, SupportedBlock, BlockMayFail;
    var newBlocks: map<string, Value> := map[];
    var todo := s.blocks.Keys;
    while todo != {}
      invariant todo <= s.blocks.Keys
      invariant newBlocks.Keys == s.blocks.Keys - todo
      invariant forall n <- newBlocks ::
        newBlocks[n] == ProposedBlock(s.blocks[n], prior.fields[n], config.fields[n])
    {
      var n :| n in todo;
      var b := ProposeBlock(s.blocks[n], prior.fields[n], config.fields[n]);
      if b.None? {
        return None;
      }
      newBlocks := newBlocks[n := b.value];
      todo := todo - {n};
    }
    return Some(newBlocks);
  }

  lemma PriorFieldsConform(s: Schema, prior: Value)
    requires Conforms(s, prior)
    ensures forall n <- s.attrs :: ConformsAttribute(s.attrs[n], PriorField(prior, n))
  {}

  method ProposeAttributes(s: Schema, prior: Value, config: Value) returns (newAttrs: map<string, Value>)
    requires Supported(s) && Conforms(s, prior) && ConformsObject(s, config)
    ensures newAttrs == ProposedAttributes(s, prior, config)
    decreases s, 0
  {
    hide ProposedAttribute, ConformsAttribute, SupportedAttribute;
    PriorFieldsConform(s, prior);
    newAttrs := map[];
    var todo := s.attrs.Keys;
    while todo != {}
      invariant todo <= s.attrs.Keys
      invariant newAttrs.Keys == s.attrs.Keys - todo
      invariant forall n <- newAttrs ::
        newAttrs[n] == ProposedAttribute(s.attrs[n], PriorField(prior, n), config.fields[n])
    {
      var n :| n in todo;
      var priorV := if prior.Null? then Null else prior.fields[n];
      var newV := ProposeAttribute(s.attrs[n], priorV, config.fields[n]);
      newAttrs := newAttrs[n := newV];
      todo := todo - {n};
    }
  }

  /** The loop body for one attribute. */
  method ProposeAttribute(a: Attribute, priorV: Value, configV: Value) returns (newV: Value)
    requires SupportedAttribute(a) && ConformsAttribute(a, priorV) && ConformsAttribute(a, configV)
    ensures newV == ProposedAttribute(a, priorV, configV)
    decreases a
  {
    newV := configV;
    if a.computed && configV.Null? {
      newV := priorV;
      if OptionalValueNotComputable(a, priorV) {
        newV := configV;
      }
    } else if a.Nested? && !configV.Null? {
      var nested := ProposeNesting(a.mode, AttributeElement, a.body, priorV, configV);
      newV := nested.value;
    }
  }

  method ProposeBlock(b: Block, prior: Value, config: Value) returns (r: Option<Value>)
    requires SupportedBlock(b) && ConformsBlock(b, prior) && ConformsBlock(b, config)
    ensures r.Some? ==> r.value == ProposedBlock(b, prior, config)
    ensures r.None? ==> BlockMayFail(b, prior, config)
    decreases b
  {
    r := Some(config);
    if !config.Null? {
      r := ProposeNesting(b.mode, BlockElement, b.body, prior, config);
    }
  }

  method ProposeElement(kind: ElementKind, s: Schema, prior: Value, config: Value) returns (r: Option<Value>)
    requires SupportedElement(kind, s)
    requires Conforms(s, prior) && ConformsObject(s, config)
    ensures r.Some? ==> r.value == ProposedElement(kind, s, prior, config)
    ensures r.None? ==> kind.BlockElement? && MayFail(s, prior, config)
    decreases s, 2
  {
    match kind
    case BlockElement =>
      r := ProposeNew(s, prior, config);
    case AttributeElement =>
      var newAttrs := ProposeAttributes(s, prior, config);
      r := Some(Obj(newAttrs));
  }

  method ProposeNesting(mode: NestingMode, kind: ElementKind, s: Schema, prior: Value, config: Value)
    returns (r: Option<Value>)
    requires SupportedElement(kind, s)
    requires prior.Null? || ConformsNesting(mode, s, prior)
    requires ConformsNesting(mode, s, config)
    ensures r.Some? ==> r.value == ProposedNesting(mode, kind, s, prior, config)
    ensures r.None? ==> NestingMayFail(mode, kind, s, prior, config)
    decreases s, 4
  {
    hide ConformsObject, Supported, MayFail, ListMayFail, SetMayFail, ListElements, SetElements;
    match mode
    case Single =>
      r := ProposeElement(kind, s, prior, config);
    case ListMode =>
      var vs := ProposeList(kind, s, ElemsOf(prior), config.elems);
      r := if vs.Some? then Some(ListV(vs.value)) else None;
    case SetMode =>
      var vs := ProposeSet(kind, s, MembersOf(prior), config.members);
      r := if vs.Some? then Some(SetV(vs.value)) else None;
    case MapMode =>
      var m := ProposeMap(kind, s, EntriesOf(prior), config.entries);
      r := if m.Some? then Some(MapV(m.value)) else None;
  }

  method ProposeList(kind: ElementKind, s: Schema, priors: seq<Value>, configs: seq<Value>)
    returns (r: Option<seq<Value>>)
    requires SupportedElement(kind, s)
    requires AllConform(s, priors) && AllConform(s, configs)
    ensures r.Some? ==> r.value == ListElements(kind, s, priors, configs)
    ensures r.None? ==> kind.BlockElement? && ListMayFail(s, priors, configs)
    decreases s, 3
  {
    hide ConformsObject, ConformsNesting, Supported, ProposedElement, MayFail;
    var newVals: seq<Value> := [];
    for idx := 0 to |configs|
      invariant newVals == ListElements(kind, s, priors, configs[..idx])
    {
      var newV := configs[idx];
      if idx < |priors| {
        var merged := ProposeElement(kind, s, priors[idx], configs[idx]);
        if merged.None? {
          return None;
        }
        newV := merged.value;
      }
      newVals := newVals + [newV];
      assert configs[..idx + 1][..idx] == configs[..idx];
    }
    assert configs[..|configs|] == configs;
    return Some(newVals);
  }

  method ProposeMap(kind: ElementKind, s: Schema, priors: map<string, Value>, configs: map<string, Value>)
    returns (r: Option<map<string, Value>>)
    requires SupportedElement(kind, s)
    requires forall k <- priors :: ConformsObject(s, priors[k])
    requires forall k <- configs :: ConformsObject(s, configs[k])
    ensures r.Some? ==> r.value == MapElements(kind, s, priors, configs)
    ensures r.None? ==> kind.BlockElement? && exists k <- configs :: k in priors && MayFail(s, priors[k], configs[k])
    decreases s, 3
  {
    hide ConformsObject, ConformsNesting, Supported, ProposedElement, MayFail;
    var newVals: map<string, Value> := map[];
    var todo := configs.Keys;
    while todo != {}
      invariant todo <= configs.Keys
      invariant newVals.Keys == configs.Keys - todo
      invariant forall k <- newVals ::
        newVals[k] == if k in priors then ProposedElement(kind, s, priors[k], configs[k]) else configs[k]
    {
      var k :| k in todo;
      var newV := configs[k];
      if k in priors {
        var merged := ProposeElement(kind, s, priors[k], configs[k]);
        if merged.None? {
          return None;
        }
        newV := merged.value;
      }
      newVals := newVals[k := newV];
      todo := todo - {k};
    }
    return Some(newVals);
  }

  lemma SetElementsStep(kind: ElementKind, s: Schema, priors: seq<Value>, configs: seq<Value>, used: seq<bool>, c: nat)
    requires SupportedElement(kind, s) && AllConform(s, priors) && AllConform(s, configs) && |used| == |priors|
    requires c < |configs|
    ensures var j := FirstMatch(kind, s, priors, configs[c], used, 0);
            var priorEV := if j < |priors| then priors[j] else Null;
            var used' := if j < |priors| then used[j := true] else used;
            && SetElements(kind, s, priors, configs[c..], used) ==
                 [ProposedElement(kind, s, priorEV, configs[c])] + SetElements(kind, s, priors, configs[c + 1..], used')
            && (kind.BlockElement? ==>
                  (SetMayFail(s, priors, configs[c..], used) <==>
                   ComparesReaching(s, priors, configs[c], used) || MayFail(s, priorEV, configs[c]) ||
                   SetMayFail(s, priors, configs[c + 1..], used')))
  {
    hide ConformsObject, Supported, ValidPriorFromConfig, ProposedElement, FirstMatch, ComparesReaching, MayFail;
    assert configs[c..][0] == configs[c] && configs[c..][1..] == configs[c + 1..];
  }

  /** What is planned so far, and what is left to plan, make up the whole. */
  ghost predicate SetProgress(kind: ElementKind, s: Schema, priors: seq<Value>, configs: seq<Value>, vs: seq<Value>,
                              used: seq<bool>, c: nat)
    requires SupportedElement(kind, s) && AllConform(s, priors) && AllConform(s, configs) && |used| == |priors|
    requires c <= |configs|
  {
    && vs + SetElements(kind, s, priors, configs[c..], used) == SetElements(kind, s, priors, configs, Unused(|priors|))
    && (kind.BlockElement? && SetMayFail(s, priors, configs[c..], used) ==>
          SetMayFail(s, priors, configs, Unused(|priors|)))
  }

  lemma SetProgressStarts(kind: ElementKind, s: Schema, priors: seq<Value>, configs: seq<Value>)
    requires SupportedElement(kind, s) && AllConform(s, priors) && AllConform(s, configs)
    ensures SetProgress(kind, s, priors, configs, [], Unused(|priors|), 0)
  {
    hide ConformsObject, Supported, SetElements, SetMayFail;
    assert configs[0..] == configs;
  }

  lemma SetProgressEnds(kind: ElementKind, s: Schema, priors: seq<Value>, configs: seq<Value>, vs: seq<Value>,
                        used: seq<bool>)
    requires SupportedElement(kind, s) && AllConform(s, priors) && AllConform(s, configs) && |used| == |priors|
    requires SetProgress(kind, s, priors, configs, vs, used, |configs|)
    ensures vs == SetElements(kind, s, priors, configs, Unused(|priors|))
  {
    hide ConformsObject, Supported, SetElements, SetMayFail;
    assert configs[|configs|..] == [];
    var rest := SetElements(kind, s, priors, configs[|configs|..], used);
    assert |rest| == 0;
    assert vs + rest == vs;
  }

  lemma Regroup(vs: seq<Value>, v: Value, rest: seq<Value>)
    ensures vs + ([v] + rest) == (vs + [v]) + rest
  {}

  lemma SetProgressStep(kind: ElementKind, s: Schema, priors: seq<Value>, configs: seq<Value>, vs: seq<Value>,
                        used: seq<bool>, c: nat)
    requires SupportedElement(kind, s) && AllConform(s, priors) && AllConform(s, configs) && |used| == |priors|
    requires c < |configs| && SetProgress(kind, s, priors, configs, vs, used, c)
    ensures var j := FirstMatch(kind, s, priors, configs[c], used, 0);
            var priorEV := if j < |priors| then priors[j] else Null;
            var used' := if j < |priors| then used[j := true] else used;
            && SetProgress(kind, s, priors, configs, vs + [ProposedElement(kind, s, priorEV, configs[c])], used', c + 1)
            && (kind.BlockElement? && (ComparesReaching(s, priors, configs[c], used) || MayFail(s, priorEV, configs[c]))
                ==> SetMayFail(s, priors, configs, Unused(|priors|)))
  {
    hide ConformsObject, Supported, ValidPriorFromConfig, ProposedElement, FirstMatch, SetElements, ComparesReaching,
      MayFail, SetMayFail;
    SetElementsStep(kind, s, priors, configs, used, c);
    var j := FirstMatch(kind, s, priors, configs[c], used, 0);
    var newV := ProposedElement(kind, s, if j < |priors| then priors[j] else Null, configs[c]);
    var rest := SetElements(kind, s, priors, configs[c + 1..], if j < |priors| then used[j := true] else used);
    Regroup(vs, newV, rest);
  }

  /** proposedNewNestingSet: `used` marks the prior elements taken so far and is updated in place. */
  method ProposeSet(kind: ElementKind, s: Schema, priors: seq<Value>, configs: seq<Value>)
    returns (r: Option<seq<Value>>)
    requires SupportedElement(kind, s) && AllConform(s, priors) && AllConform(s, configs)
    ensures r.Some? ==> r.value == SetElements(kind, s, priors, configs, Unused(|priors|))
    ensures r.None? ==> kind.BlockElement? && SetMayFail(s, priors, configs, Unused(|priors|))
    decreases s, 3
  {
    hide ConformsObject, Supported, ValidPriorFromConfig, ProposedElement, FirstMatch, SetElements, ComparesReaching,
      MayFail, SetMayFail, SetProgress;
    var newVals: seq<Value> := [];
    var used := new bool[|priors|](_ => false);
    assert used[..] == Unused(|priors|);
    SetProgressStarts(kind, s, priors, configs);
    for c := 0 to |configs|
      invariant SetProgress(kind, s, priors, configs, newVals, used[..], c)
    {
      SetProgressStep(kind, s, priors, configs, newVals, used[..], c);
      var priorEV := TakePrior(kind, s, priors, configs[c], used);
      if priorEV.None? {
        return None;
      }
      var newV := ProposeElement(kind, s, priorEV.value, configs[c]);
      if newV.None? {
        return None;
      }
      newVals := newVals + [newV.value];
    }
    SetProgressEnds(kind, s, priors, configs, newVals, used[..]);
    return Some(newVals);
  }

  /** The inner loop: the first unused prior element that fits is marked and returned, or null is. */
  method TakePrior(kind: ElementKind, s: Schema, priors: seq<Value>, config: Value, used: array<bool>)
    returns (priorEV: Option<Value>)
    requires Supported(s) && AllConform(s, priors) && ConformsObject(s, config) && used.Length == |priors|
    modifies used
    ensures priorEV.Some? ==>
      var j := FirstMatch(kind, s, priors, config, old(used[..]), 0);
      if j < |priors| then priorEV.value == priors[j] && used[..] == old(used[..])[j := true]
      else priorEV.value == Null && used[..] == old(used[..])
    ensures priorEV.None? ==> kind.BlockElement? && ComparesReaching(s, priors, config, old(used[..]))
  {
    hide ConformsObject, Supported, ValidPriorFromConfig;
    ghost var before := used[..];
    for i := 0 to |priors|
      invariant used[..] == before
      invariant FirstMatch(kind, s, priors, config, before, 0) == FirstMatch(kind, s, priors, config, before, i)
    {
      if !used[i] {
        var o := Visit(kind, s, priors[i], config);
        if o.Fails? {
          assert FirstMatch(kind, s, priors, config, before, 0) > i;
          return None;
        }
        if o.Accepts? {
          used[i] := true;
          return Some(priors[i]);
        }
      }
    }
    return Some(Null);
  }
}
