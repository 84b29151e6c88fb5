/** Planning again from a planned state. It changes nothing if each element of a set block fits its configuration again,
    which depends on what the configuration leaves null; ProposedStateTakeover shows what happens where one does not. */
module ProposedStateReplan {
  import opened ProposedState
  import opened ProposedStateLaws
  import opened ProposedStateLoops
  import opened ProposedStateWalk

  // ---------------------------------------- a merged element fits its configuration

  lemma {:induction false} ElementFitsAfter(kind: ElementKind, s: Schema, p: Value, c: Value)
    requires SupportedElement(kind, s) && ConformsObject(s, p) && ConformsObject(s, c)
    requires FitsObject(s, p, c) && (kind.BlockElement? ==> Refits(s, c))
    ensures FitsObject(s, ProposedElement(kind, s, p, c), c)
    decreases s, 1
  {
    hide ProposedElement, ProposedAttribute, ProposedBlock, ConformsAttribute, ConformsBlock, FitsAttribute,
      FitsBlock, RefitsAttribute, RefitsBlock;
    if p == c {
      SelfElement(kind, s, c);
    } else {
      ElementFields(kind, s, p, c);
      var out := ProposedElement(kind, s, p, c);
      forall n <- s.attrs
        ensures FitsAttribute(s.attrs[n], out.fields[n], c.fields[n])
      {
        AttributeFitsAfter(s.attrs[n], p.fields[n], c.fields[n]);
      }
      forall n <- s.blocks
        ensures FitsBlock(s.blocks[n], out.fields[n], c.fields[n])
      {
        BlockFitsAfter(s.blocks[n], p.fields[n], c.fields[n]);
      }
    }
  }

  lemma {:induction false} AttributeFitsAfter(a: Attribute, p: Value, c: Value)
    requires SupportedAttribute(a) && ConformsAttribute(a, p) && ConformsAttribute(a, c)
    requires FitsAttribute(a, p, c)
    ensures FitsAttribute(a, ProposedAttribute(a, p, c), c)
    decreases a
  {
    if a.Nested? && !c.Null? {
      if p == c {
        SelfAttribute(a, c);
      } else if p.Null? {
        NullAttribute(a, c);
      } else if a.mode == Single {
        ElementFitsAfter(AttributeElement, a.body, p, c);
        FieldByField(a.body, ProposedElement(AttributeElement, a.body, p, c), c);
      } else {
        PrefixNesting(a.mode, AttributeElement, a.body, p, c);
      }
    }
  }

  lemma {:induction false} BlockFitsAfter(b: Block, p: Value, c: Value)
    requires SupportedBlock(b) && ConformsBlock(b, p) && ConformsBlock(b, c)
    requires FitsBlock(b, p, c) && RefitsBlock(b, c)
    ensures FitsBlock(b, ProposedBlock(b, p, c), c)
    decreases b
  {
    if !c.Null? {
      if p == c {
        SelfBlock(b, c);
      } else if b.mode != Single {
        if p.Null? {
          NothingNesting(b.mode, BlockElement, b.body, p, c);
        } else {
          PrefixNesting(b.mode, BlockElement, b.body, p, c);
        }
      } else if p.Null? {
        assert ProposedBlock(b, p, c) == ProposedElement(BlockElement, b.body, p, c);
        ObjectOverNothing(BlockElement, b.body, p, c);
      } else {
        ElementFitsAfter(BlockElement, b.body, p, c);
        FieldByField(b.body, ProposedElement(BlockElement, b.body, p, c), c);
      }
    }
  }

  /** Elements of a list or map that fit are the configured ones, and stay so. */
  lemma PrefixNesting(mode: NestingMode, kind: ElementKind, s: Schema, p: Value, c: Value)
    requires SupportedElement(kind, s) && ConformsNesting(mode, s, p) && ConformsNesting(mode, s, c)
    requires mode != Single && !p.Null? && FitsNesting(mode, s, p, c)
    ensures ProposedNesting(mode, kind, s, p, c) == c
  {
    hide ConformsObject, Supported, ProposedElement, ListElements;
    var out := ProposedNesting(mode, kind, s, p, c);
    match mode
    case ListMode =>
      forall i | 0 <= i < |c.elems|
        ensures out.elems[i] == c.elems[i]
      {
        ListElementsAt(kind, s, p.elems, c.elems, i);
        SelfElement(kind, s, c.elems[i]);
      }
    case MapMode =>
      forall k <- c.entries
        ensures ProposedElement(kind, s, c.entries[k], c.entries[k]) == c.entries[k]
      {
        SelfElement(kind, s, c.entries[k]);
      }
      assert out.entries == MapElements(kind, s, p.entries, c.entries);
      assert forall k <- c.entries | k in p.entries :: p.entries[k] == c.entries[k];
      assert out.entries == c.entries;
    case _ =>
  }

  /** A configured element of a set block fits what is planned for it, with whichever prior element that fits or without
      one, exactly if it refits. */
  lemma PlannedFitsIff(s: Schema, c: Value)
    requires Supported(s) && ConformsObject(s, c)
    ensures Refits(s, c) <==>
      forall p | Conforms(s, p) && (p.Null? || FitsObject(s, p, c)) ::
        FitsObject(s, ProposedElement(BlockElement, s, p, c), c)
  {
    ObjectOverNothing(BlockElement, s, Null, c);
    if Refits(s, c) {
      forall p | Conforms(s, p) && (p.Null? || FitsObject(s, p, c))
        ensures FitsObject(s, ProposedElement(BlockElement, s, p, c), c)
      {
        if !p.Null? {
          ElementFitsAfter(BlockElement, s, p, c);
        }
      }
    } else {
      assert Conforms(s, Null);
    }
  }

  lemma NullNesting(mode: NestingMode, s: Schema, c: Value)
    requires SupportedElement(AttributeElement, s) && ConformsNesting(mode, s, c)
    ensures ProposedNesting(mode, AttributeElement, s, Null, c) == c
  {
    if mode == Single {
      NullElement(s, c);
    } else {
      NothingNesting(mode, AttributeElement, s, Null, c);
    }
  }

  // The same where only shapes are compared.

  lemma {:induction false} ElementShapeAfter(s: Schema, p: Value, c: Value)
    requires SupportedElement(AttributeElement, s) && ConformsObject(s, p) && ConformsObject(s, c) && FitsShape(p, c)
    ensures FitsShape(ProposedElement(AttributeElement, s, p, c), c)
    decreases s, 1
  {
    hide ProposedElement, ProposedAttribute, ConformsAttribute;
    if p == c {
      SelfElement(AttributeElement, s, c);
    } else {
      ElementFields(AttributeElement, s, p, c);
      forall n <- s.attrs
        ensures FitsShape(ProposedElement(AttributeElement, s, p, c).fields[n], c.fields[n])
      {
        AttributeShapeAfter(s.attrs[n], p.fields[n], c.fields[n]);
      }
    }
  }

  lemma {:induction false} AttributeShapeAfter(a: Attribute, p: Value, c: Value)
    requires SupportedAttribute(a) && ConformsAttribute(a, p) && ConformsAttribute(a, c) && FitsShape(p, c)
    ensures FitsShape(ProposedAttribute(a, p, c), c)
    decreases a
  {
    if a.Nested? && !c.Null? {
      if p == c {
        SelfAttribute(a, c);
      } else {
        NestingShapeAfter(a.mode, a.body, p, c);
      }
    }
  }

  lemma {:induction false} NestingShapeAfter(mode: NestingMode, s: Schema, p: Value, c: Value)
    requires SupportedElement(AttributeElement, s) && (p.Null? || ConformsNesting(mode, s, p)) &&
      ConformsNesting(mode, s, c)
    requires p != c && FitsShape(p, c)
    ensures FitsShape(ProposedNesting(mode, AttributeElement, s, p, c), c)
    decreases s, 2
  {
    hide ConformsObject, Supported, ProposedElement, ListElements;
    var out := ProposedNesting(mode, AttributeElement, s, p, c);
    if p.Null? {
      NullNesting(mode, s, c);
    } else {
      match mode
      case Single => ElementShapeAfter(s, p, c);
      case ListMode =>
        forall i | 0 <= i < |c.elems|
          ensures FitsShape(out.elems[i], c.elems[i])
        {
          ListElementsAt(AttributeElement, s, p.elems, c.elems, i);
          if i < |p.elems| {
            ElementShapeAfter(s, p.elems[i], c.elems[i]);
          }
        }
      case MapMode =>
        assert out.entries == MapElements(AttributeElement, s, p.entries, c.entries);
        forall k <- c.entries
          ensures FitsShape(out.entries[k], c.entries[k])
        {
          if k in p.entries {
            ElementShapeAfter(s, p.entries[k], c.entries[k]);
          }
        }
      case SetMode =>
    }
  }

  /** A planned set element fits the configured one, whether it had a prior element or not. */
  lemma PlannedFits(kind: ElementKind, s: Schema, p: Value, c: Value)
    requires SupportedElement(kind, s) && Conforms(s, p) && ConformsObject(s, c)
    requires (kind.BlockElement? ==> Refits(s, c)) && (p.Null? || ValidPriorFromConfig(kind, s, p, c))
    ensures ValidPriorFromConfig(kind, s, ProposedElement(kind, s, p, c), c)
  {
    match kind
    case BlockElement => PlannedFitsIff(s, c);
    case AttributeElement =>
      if p.Null? {
        NullElement(s, c);
      } else {
        ElementShapeAfter(s, p, c);
      }
  }

  // ----------------------------------------------------------- the fixed point

  /** Every configured element of a set block, at any depth, refits. */
  ghost predicate Replannable(s: Schema, c: Value)
    requires ConformsObject(s, c)
    decreases s, 0
  {
    forall n <- s.blocks :: ReplannableBlock(s.blocks[n], c.fields[n])
  }

  ghost predicate ReplannableBlock(b: Block, c: Value)
    requires ConformsBlock(b, c)
    decreases b
  {
    c.Null? || (ReplannableNesting(b.mode, b.body, c) && (b.mode == SetMode ==> AllRefit(b.body, c.members)))
  }

  ghost predicate AllRefit(s: Schema, cs: seq<Value>)
    requires AllConform(s, cs)
  {
    forall i | 0 <= i < |cs| :: Refits(s, cs[i])
  }

  ghost predicate ReplannableNesting(mode: NestingMode, s: Schema, c: Value)
    requires ConformsNesting(mode, s, c)
    decreases s, 2
  {
    match mode
    case Single => Replannable(s, c)
    case ListMode => AllReplannable(s, c.elems)
    case SetMode => AllReplannable(s, c.members)
    case MapMode => forall k <- c.entries :: Replannable(s, c.entries[k])
  }

  ghost predicate AllReplannable(s: Schema, cs: seq<Value>)
    requires AllConform(s, cs)
    decreases s, 1
  {
    forall i | 0 <= i < |cs| :: Replannable(s, cs[i])
  }

  lemma NoBlocksReplannable(mode: NestingMode, s: Schema, c: Value)
    requires s.blocks == map[] && ConformsNesting(mode, s, c)
    ensures ReplannableNesting(mode, s, c)
  {}

  lemma {:induction false} NestingFixedPoint(mode: NestingMode, kind: ElementKind, s: Schema, p: Value, c: Value)
    requires SupportedElement(kind, s) && (p.Null? || ConformsNesting(mode, s, p)) && ConformsNesting(mode, s, c)
    requires ReplannableNesting(mode, s, c)
    requires mode == SetMode && kind.BlockElement? ==> AllRefit(s, c.members)
    ensures var out := ProposedNesting(mode, kind, s, p, c);
            ProposedNesting(mode, kind, s, out, c) == out
    decreases s, 3
  {
    hide ConformsObject, ConformsAttribute, ConformsBlock, ValidPriorFromConfig, ProposedElement;
    match mode
    case Single => ElementFixedPoint(kind, s, p, c);
    case ListMode => ListFixedPoint(kind, s, ElemsOf(p), c.elems);
    case SetMode => SetFixedPoint(kind, s, MembersOf(p), c.members);
    case MapMode => MapFixedPoint(kind, s, EntriesOf(p), c.entries);
  }

  /** A set planned over its own result matches slot i with slot i again, although others may fit too. */
  lemma {:induction false} SetFixedPoint(kind: ElementKind, s: Schema, priors: seq<Value>, configs: seq<Value>)
    requires SupportedElement(kind, s) && AllConform(s, priors) && AllConform(s, configs) && AllReplannable(s, configs)
    requires kind.BlockElement? ==> AllRefit(s, configs)
    ensures var outs := SetElements(kind, s, priors, configs, Unused(|priors|));
            SetElements(kind, s, outs, configs, Unused(|outs|)) == outs
    decreases s, 2
  {
    hide ConformsObject, ConformsNesting, Supported, Replannable, Refits, SetElements, ProposedElement,
      ValidPriorFromConfig;
    var js := SetChoices(kind, s, priors, configs, Unused(|priors|));
    var outs := SetElements(kind, s, priors, configs, Unused(|priors|));
    forall i | 0 <= i < |outs|
      ensures ValidPriorFromConfig(kind, s, outs[i], configs[i])
      ensures ProposedElement(kind, s, outs[i], configs[i]) == outs[i]
    {
      ElementsFollowChoices(kind, s, priors, configs, Unused(|priors|), i);
      var prior := if js[i] < |priors| then priors[js[i]] else Null;
      PlannedFits(kind, s, prior, configs[i]);
      ElementFixedPoint(kind, s, prior, configs[i]);
    }
    SetReplay(kind, s, outs, configs, 0, Unused(|outs|));
    assert configs[0..] == configs && outs[0..] == outs;
  }

  lemma {:induction false} ListFixedPoint(kind: ElementKind, s: Schema, priors: seq<Value>, configs: seq<Value>)
    requires SupportedElement(kind, s) && AllConform(s, priors) && AllConform(s, configs) && AllReplannable(s, configs)
    ensures var outs := ListElements(kind, s, priors, configs);
            ListElements(kind, s, outs, configs) == outs
    decreases s, 2
  {
    hide ConformsObject, ConformsNesting, Supported, Replannable, ListElements, ProposedElement;
    var outs := ListElements(kind, s, priors, configs);
    var again := ListElements(kind, s, outs, configs);
    forall i | 0 <= i < |configs|
      ensures again[i] == outs[i]
    {
      ListElementsAt(kind, s, priors, configs, i);
      ListElementsAt(kind, s, outs, configs, i);
      if i < |priors| {
        ElementFixedPoint(kind, s, priors[i], configs[i]);
      } else {
        SelfElement(kind, s, configs[i]);
      }
    }
  }

  lemma {:induction false} MapFixedPoint(
      kind: ElementKind, s: Schema, priors: map<string, Value>, configs: map<string, Value>)
    requires SupportedElement(kind, s)
    requires forall k <- priors :: ConformsObject(s, priors[k])
    requires forall k <- configs :: ConformsObject(s, configs[k]) && Replannable(s, configs[k])
    ensures var outs := MapElements(kind, s, priors, configs);
            MapElements(kind, s, outs, configs) == outs
    decreases s, 2
  {
    hide ConformsObject, ConformsNesting, Supported, Replannable, ProposedElement;
    var outs := MapElements(kind, s, priors, configs);
    forall k <- configs
      ensures ProposedElement(kind, s, outs[k], configs[k]) == outs[k]
    {
      if k in priors {
        ElementFixedPoint(kind, s, priors[k], configs[k]);
      } else {
        SelfElement(kind, s, configs[k]);
      }
    }
    assert MapElements(kind, s, outs, configs) == outs;
  }

  lemma {:induction false} ElementFixedPoint(kind: ElementKind, s: Schema, p: Value, c: Value)
    requires SupportedElement(kind, s) && Conforms(s, p) && ConformsObject(s, c) && Replannable(s, c)
    ensures var out := ProposedElement(kind, s, p, c);
            ProposedElement(kind, s, out, c) == out
    decreases s, 1
  {
    hide ConformsNesting, ConformsAttribute, ConformsBlock, ProposedElement, ProposedAttribute, ProposedBlock;
    var out := ProposedElement(kind, s, p, c);
    var again := ProposedElement(kind, s, out, c);
    var from := PriorObject(kind, s, p);
    ElementFields(kind, s, p, c);
    ElementFields(kind, s, out, c);
    forall n <- s.attrs
      ensures again.fields[n] == out.fields[n]
    {
      AttributeFixedPoint(s.attrs[n], PriorField(from, n), c.fields[n]);
    }
    forall n <- s.blocks
      ensures again.fields[n] == out.fields[n]
    {
      BlockFixedPoint(s.blocks[n], from.fields[n], c.fields[n]);
    }
    assert again.fields == out.fields;
  }

  lemma {:induction false} AttributeFixedPoint(a: Attribute, p: Value, c: Value)
    requires SupportedAttribute(a) && ConformsAttribute(a, p) && ConformsAttribute(a, c)
    ensures var out := ProposedAttribute(a, p, c);
            ProposedAttribute(a, out, c) == out
    decreases a
  {
    if a.Nested? && !c.Null? {
      NoBlocksReplannable(a.mode, a.body, c);
      NestingFixedPoint(a.mode, AttributeElement, a.body, p, c);
    }
  }

  lemma {:induction false} BlockFixedPoint(b: Block, p: Value, c: Value)
    requires SupportedBlock(b) && ConformsBlock(b, p) && ConformsBlock(b, c)
    requires ReplannableBlock(b, c)
    ensures var out := ProposedBlock(b, p, c);
            ProposedBlock(b, out, c) == out
    decreases b
  {
    if !c.Null? {
      NestingFixedPoint(b.mode, BlockElement, b.body, p, c);
    }
  }

  /** Planning again from the planned state changes nothing, for every prior state, if the configured elements of set
      blocks refit; and it does not fail, even if planning could. */
  lemma ReplanIsFixedPoint(s: Schema, prior: Value, config: Value)
    requires Supported(s) && Conforms(s, prior) && Conforms(s, config) && (config.Null? || Replannable(s, config))
    ensures var planned := ProposedNew(s, prior, config);
            ProposedNew(s, planned, config) == planned && !MayFail(s, planned, config)
  {
    if !config.Null? {
      ElementFixedPoint(BlockElement, s, prior, config);
      ReplanNeverFails(s, prior, config);
    }
  }

  /** A configuration planned over itself is itself, whatever its schema computes. */
  lemma PlannedOverItself(s: Schema, config: Value)
    requires Supported(s) && Conforms(s, config)
    ensures ProposedNew(s, config, config) == config
  {
    if !config.Null? {
      SelfElement(BlockElement, s, config);
    }
  }

  // --------------------------------------------------- planning again does not fail

  lemma {:induction false} ReplanNeverFails(s: Schema, p: Value, c: Value)
    requires Supported(s) && Conforms(s, p) && ConformsObject(s, c) && Replannable(s, c)
    ensures !MayFail(s, ProposedNew(s, p, c), c)
    decreases s, 1
  {
    hide ProposedElement, ProposedAttribute, ProposedBlock, ConformsAttribute, ConformsBlock, BlockMayFail,
      ReplannableBlock;
    var out := ProposedElement(BlockElement, s, p, c);
    assert out == ProposedNew(s, p, c) by { ProposedAsElement(s, p, c); }
    var from := PriorObject(BlockElement, s, p);
    ElementFields(BlockElement, s, p, c);
    forall n <- s.blocks
      ensures !BlockMayFail(s.blocks[n], out.fields[n], c.fields[n])
    {
      BlockNeverFails(s.blocks[n], from.fields[n], c.fields[n]);
    }
  }

  lemma ProposedAsElement(s: Schema, p: Value, c: Value)
    requires Supported(s) && Conforms(s, p) && ConformsObject(s, c)
    ensures ProposedElement(BlockElement, s, p, c) == ProposedNew(s, p, c)
  {}

  lemma {:induction false} BlockNeverFails(b: Block, p: Value, c: Value)
    requires SupportedBlock(b) && ConformsBlock(b, p) && ConformsBlock(b, c) && ReplannableBlock(b, c)
    ensures !BlockMayFail(b, ProposedBlock(b, p, c), c)
    decreases b
  {
    hide ConformsObject, Supported, Replannable, MayFail, ListMayFail, SetMayFail, ListElements, SetElements,
      ProposedElement, AllRefit;
    if !c.Null? {
      match b.mode
      case Single =>
        ProposedAsElement(b.body, p, c);
        ReplanNeverFails(b.body, p, c);
      case ListMode => ListNeverFails(b.body, ElemsOf(p), c.elems);
      case SetMode => SetNeverFails(b.body, MembersOf(p), c.members);
      case MapMode =>
    }
  }

  lemma {:induction false} ListNeverFails(s: Schema, priors: seq<Value>, configs: seq<Value>)
    requires Supported(s) && AllConform(s, priors) && AllConform(s, configs) && AllReplannable(s, configs)
    ensures !ListMayFail(s, ListElements(BlockElement, s, priors, configs), configs)
    decreases s, 3
  {
    hide ConformsObject, Supported, Replannable, MayFail, ListElements, ProposedElement;
    var outs := ListElements(BlockElement, s, priors, configs);
    forall i | 0 <= i < |configs|
      ensures !MayFail(s, outs[i], configs[i])
    {
      ListElementsAt(BlockElement, s, priors, configs, i);
      if i < |priors| {
        ProposedAsElement(s, priors[i], configs[i]);
        ReplanNeverFails(s, priors[i], configs[i]);
      } else {
        SelfElement(BlockElement, s, configs[i]);
        ProposedAsElement(s, configs[i], configs[i]);
        ReplanNeverFails(s, configs[i], configs[i]);
      }
    }
  }

  lemma {:induction false} SetNeverFails(s: Schema, priors: seq<Value>, configs: seq<Value>)
    requires Supported(s) && AllConform(s, priors) && AllConform(s, configs)
    requires AllReplannable(s, configs) && AllRefit(s, configs)
    ensures var outs := SetElements(BlockElement, s, priors, configs, Unused(|priors|));
            !SetMayFail(s, outs, configs, Unused(|outs|))
    decreases s, 3
  {
    hide ConformsObject, Supported, Replannable, Refits, SetElements, SetMayFail, MayFail, ProposedElement,
      ValidPriorFromConfig;
    var js := SetChoices(BlockElement, s, priors, configs, Unused(|priors|));
    var outs := SetElements(BlockElement, s, priors, configs, Unused(|priors|));
    forall i | 0 <= i < |outs|
      ensures ValidPriorFromConfig(BlockElement, s, outs[i], configs[i]) && !MayFail(s, outs[i], configs[i])
    {
      ElementsFollowChoices(BlockElement, s, priors, configs, Unused(|priors|), i);
      var prior := if js[i] < |priors| then priors[js[i]] else Null;
      PlannedFits(BlockElement, s, prior, configs[i]);
      ProposedAsElement(s, prior, configs[i]);
      ReplanNeverFails(s, prior, configs[i]);
    }
    ReplayNeverFails(s, outs, configs, 0, Unused(|outs|));
    assert configs[0..] == configs;
  }

  /** When slot i fits configured element i, no other pair is compared. */
  lemma {:induction false} ReplayNeverFails(s: Schema, slots: seq<Value>, configs: seq<Value>, k: nat, used: seq<bool>)
    requires Supported(s) && AllConform(s, slots) && AllConform(s, configs)
    requires k <= |slots| == |configs| == |used| && UsedUpTo(used, k)
    requires forall i | 0 <= i < |slots| ::
      ValidPriorFromConfig(BlockElement, s, slots[i], configs[i]) && !MayFail(s, slots[i], configs[i])
    ensures !SetMayFail(s, slots, configs[k..], used)
    decreases |configs| - k
  {
    hide ConformsObject, Supported, ValidPriorFromConfig, MayFail, Reaches;
    if k < |configs| {
      assert configs[k..][0] == configs[k] && configs[k..][1..] == configs[k + 1..];
      var j := FirstMatch(BlockElement, s, slots, configs[k], used, 0);
      assert j == k;
      ReplayNeverFails(s, slots, configs, k + 1, used[k := true]);
    }
  }

  // ------------------------------------------------------- where planning again differs

  /** What is made of a configured object of a block without a prior one, is made of itself again. */
  lemma {:induction false} FilledIsExact(kind: ElementKind, s: Schema, prior: Value, c: Value)
    requires SupportedElement(kind, s) && Conforms(s, prior) && ConformsObject(s, c)
    requires if kind.BlockElement? then prior.Null?
             else prior.Obj? && forall n <- s.attrs :: prior.fields[n] == EmptyAttribute(s.attrs[n])
    ensures Exact(s, ProposedElement(kind, s, prior, c))
    decreases s, 1
  {
    hide ProposedElement, ProposedAttribute, ProposedBlock, ConformsAttribute, ConformsBlock, ExactAttribute,
      ExactBlock, EmptyAttribute, EmptyBlock;
    var out := ProposedElement(kind, s, prior, c);
    ElementFields(kind, s, prior, c);
    forall n <- s.attrs
      ensures ExactAttribute(s.attrs[n], out.fields[n])
    {
      FilledAttributeIsExact(s.attrs[n], c.fields[n]);
    }
    forall n <- s.blocks
      ensures ExactBlock(s.blocks[n], out.fields[n])
    {
      FilledBlockIsExact(s.blocks[n], c.fields[n]);
    }
  }

  lemma {:induction false} FilledAttributeIsExact(a: Attribute, c: Value)
    requires SupportedAttribute(a) && ConformsAttribute(a, c)
    ensures ExactAttribute(a, ProposedAttribute(a, EmptyAttribute(a), c))
    decreases a
  {
    hide NonComputedWithin;
    if a.Nested? {
      if c.Null? {
        NullOverEmpty(a);
        EmptyIsExact(a);
      } else if a.mode == Single {
        SingleOverEmpty(a);
        FilledIsExact(AttributeElement, a.body, EmptyAttribute(a), c);
      } else {
        NothingNesting(a.mode, AttributeElement, a.body, EmptyAttribute(a), c);
      }
    }
  }

  lemma {:induction false} EmptyIsExact(a: Attribute)
    requires SupportedAttribute(a)
    ensures ExactAttribute(a, EmptyAttribute(a))
    decreases a
  {
    if a.Nested? && a.mode == Single {
      SingleOverEmpty(a);
      forall n <- a.body.attrs
        ensures ExactAttribute(a.body.attrs[n], EmptyAttribute(a).fields[n])
      {
        EmptyIsExact(a.body.attrs[n]);
      }
    }
  }

  lemma {:induction false} FilledBlockIsExact(b: Block, c: Value)
    requires SupportedBlock(b) && ConformsBlock(b, c)
    ensures ExactBlock(b, ProposedBlock(b, EmptyBlock(b), c))
    decreases b
  {
    if !c.Null? {
      match b.mode
      case Single =>
        assert ProposedBlock(b, EmptyBlock(b), c) == ProposedElement(BlockElement, b.body, Null, c);
        FilledIsExact(BlockElement, b.body, Null, c);
      case SetMode =>
        var outs := SetElements(BlockElement, b.body, [], c.members, Unused(0));
        forall i | 0 <= i < |outs|
          ensures Exact(b.body, outs[i])
        {
          ElementsFollowChoices(BlockElement, b.body, [], c.members, Unused(0), i);
          FilledIsExact(BlockElement, b.body, Null, c.members[i]);
        }
      case _ =>
    }
  }

  /** A configured object that refits is planned over what was made of it, and gives that again. */
  lemma {:induction false} FilledStays(s: Schema, c: Value)
    requires Supported(s) && ConformsObject(s, c) && Refits(s, c)
    ensures var out := ProposedElement(BlockElement, s, Null, c); ProposedElement(BlockElement, s, out, c) == out
    decreases s
  {
    hide ProposedElement, ProposedAttribute, ProposedBlock, ConformsAttribute, ConformsBlock, RefitsAttribute,
      RefitsBlock;
    var out := ProposedElement(BlockElement, s, Null, c);
    var again := ProposedElement(BlockElement, s, out, c);
    var from := PriorObject(BlockElement, s, Null);
    ElementFields(BlockElement, s, Null, c);
    ElementFields(BlockElement, s, out, c);
    forall n <- s.attrs
      ensures again.fields[n] == out.fields[n]
    {
      AttributeFixedPoint(s.attrs[n], PriorField(from, n), c.fields[n]);
    }
    forall n <- s.blocks
      ensures again.fields[n] == out.fields[n]
    {
      FilledBlockStays(s.blocks[n], c.fields[n]);
    }
    FieldByField(s, again, out);
  }

  lemma {:induction false} FilledBlockStays(b: Block, c: Value)
    requires SupportedBlock(b) && ConformsBlock(b, c) && RefitsBlock(b, c)
    ensures var out := ProposedBlock(b, EmptyBlock(b), c); ProposedBlock(b, out, c) == out
    decreases b
  {
    if !c.Null? {
      if b.mode == Single {
        var out := ProposedElement(BlockElement, b.body, Null, c);
        assert ProposedBlock(b, EmptyBlock(b), c) == out;
        assert ProposedBlock(b, out, c) == ProposedElement(BlockElement, b.body, out, c);
        FilledStays(b.body, c);
      } else {
        BlockOverEmpty(b, c);
        assert ExactBlock(b, c);
        SelfBlock(b, c);
      }
    }
  }
}
