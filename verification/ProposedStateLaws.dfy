/** Laws of the proposed-state merge: set elements are correlated one to one, a value planned over itself is
    itself, and what becomes of a value that is planned over nothing. */
module ProposedStateLaws {
  import opened ProposedState

  // ------------------------------------------------------------ elementwise

  /** The object the merge pulls prior values from: a null prior block becomes an empty one. */
  function PriorObject(kind: ElementKind, s: Schema, prior: Value): (v: Value)
    requires Supported(s) && Conforms(s, prior)
    ensures Conforms(s, v) && (kind == BlockElement ==> v.Obj?)
  {
    if prior.Null? && kind == BlockElement then EmptyValue(s) else prior
  }

  lemma ElementFields(kind: ElementKind, s: Schema, prior: Value, config: Value)
    requires SupportedElement(kind, s)
    requires Conforms(s, prior) && ConformsObject(s, config)
    ensures var out := ProposedElement(kind, s, prior, config);
            var from := PriorObject(kind, s, prior);
            && (forall n <- s.attrs :: out.fields[n] ==
                  ProposedAttribute(s.attrs[n], PriorField(from, n), config.fields[n]))
            && (forall n <- s.blocks :: out.fields[n] ==
                  ProposedBlock(s.blocks[n], from.fields[n], config.fields[n]))
  {
    var out := ProposedElement(kind, s, prior, config);
    var from := PriorObject(kind, s, prior);
    match kind
    case BlockElement =>
      assert out == ProposedNew(s, prior, config);
      assert out.fields == ProposedAttributes(s, from, config) + ProposedBlocks(s, from, config);
    case AttributeElement =>
      assert out == ProposedObjectAttributes(s, prior, config);
      assert out.fields == ProposedAttributes(s, prior, config);
  }

  lemma LeafProposed(a: Attribute, prior: Value, config: Value)
    requires a.Leaf?
    ensures ProposedAttribute(a, prior, config) == if a.computed && config.Null? then prior else config
  {}

  lemma {:induction false} ListElementsAt(kind: ElementKind, s: Schema, priors: seq<Value>, configs: seq<Value>, i: nat)
    requires SupportedElement(kind, s)
    requires AllConform(s, priors) && AllConform(s, configs) && i < |configs|
    ensures ListElements(kind, s, priors, configs)[i] ==
            if i < |priors| then ProposedElement(kind, s, priors[i], configs[i]) else configs[i]
    decreases |configs|
  {
    hide ConformsObject, ConformsNesting, Supported;
    var last := |configs| - 1;
    if i < last {
      ListElementsAt(kind, s, priors, configs[..last], i);
    }
  }

  // ---------------------------------------------------- correlation in a set

  /** The prior element chosen for each configured element; `|priors|` stands for none. */
  function SetChoices(kind: ElementKind, s: Schema, priors: seq<Value>, configs: seq<Value>, used: seq<bool>)
    : (js: seq<nat>)
    requires AllConform(s, priors) && AllConform(s, configs) && |used| == |priors|
    ensures |js| == |configs|
    decreases |configs|
  {
    if configs == [] then []
    else
      var j := FirstMatch(kind, s, priors, configs[0], used, 0);
      [j] + SetChoices(kind, s, priors, configs[1..], if j < |priors| then used[j := true] else used)
  }

  /** What a choice means: the chosen prior element fits, and is what the configured one is merged with. */
  ghost predicate Correlated(kind: ElementKind, s: Schema, priors: seq<Value>, config: Value, j: nat, out: Value)
    requires SupportedElement(kind, s) && AllConform(s, priors) && ConformsObject(s, config)
  {
    && (j < |priors| ==> ValidPriorFromConfig(kind, s, priors[j], config))
    && out == ProposedElement(kind, s, if j < |priors| then priors[j] else Null, config)
  }

  /** The first of the elements and of the choices. */
  lemma SetHead(kind: ElementKind, s: Schema, priors: seq<Value>, configs: seq<Value>, used: seq<bool>)
    requires SupportedElement(kind, s) && AllConform(s, priors) && AllConform(s, configs) && |used| == |priors|
    requires configs != []
    ensures var j := FirstMatch(kind, s, priors, configs[0], used, 0);
            var used' := if j < |priors| then used[j := true] else used;
            && SetChoices(kind, s, priors, configs, used) == [j] + SetChoices(kind, s, priors, configs[1..], used')
            && SetElements(kind, s, priors, configs, used) ==
                 [ProposedElement(kind, s, if j < |priors| then priors[j] else Null, configs[0])] +
                 SetElements(kind, s, priors, configs[1..], used')
  {
    hide ConformsObject, ConformsNesting, Supported, ValidPriorFromConfig, FirstMatch, ProposedElement;
  }

  lemma {:induction false} ElementsFollowChoices(
      kind: ElementKind, s: Schema, priors: seq<Value>, configs: seq<Value>, used: seq<bool>, i: nat)
    requires SupportedElement(kind, s) && AllConform(s, priors) && AllConform(s, configs) && |used| == |priors|
    requires i < |configs|
    ensures Correlated(kind, s, priors, configs[i], SetChoices(kind, s, priors, configs, used)[i],
                       SetElements(kind, s, priors, configs, used)[i])
    decreases |configs|
  {
    hide ConformsObject, ConformsNesting, Supported, ValidPriorFromConfig, ProposedElement, SetChoices, SetElements;
    var j := FirstMatch(kind, s, priors, configs[0], used, 0);
    SetHead(kind, s, priors, configs, used);
    if i > 0 {
      ElementsFollowChoices(kind, s, priors, configs[1..], if j < |priors| then used[j := true] else used, i - 1);
    }
  }

  /** No choice is marked used, and no two configured elements share one. */
  ghost predicate OneToOne(js: seq<nat>, used: seq<bool>) {
    && (forall i | 0 <= i < |js| && js[i] < |used| :: !used[js[i]])
    && (forall i, k | 0 <= i < k < |js| && js[i] < |used| :: js[i] != js[k])
  }

  lemma OneToOneCons(j: nat, rest: seq<nat>, used: seq<bool>)
    requires j < |used| && !used[j] && OneToOne(rest, used[j := true])
    ensures OneToOne([j] + rest, used)
  {
    forall i | 0 <= i < |rest| && rest[i] < |used|
      ensures rest[i] != j && !used[rest[i]]
    {
      assert !used[j := true][rest[i]];
    }
  }

  lemma {:induction false} ChoicesAreOneToOne(
      kind: ElementKind, s: Schema, priors: seq<Value>, configs: seq<Value>, used: seq<bool>)
    requires AllConform(s, priors) && AllConform(s, configs) && |used| == |priors|
    ensures OneToOne(SetChoices(kind, s, priors, configs, used), used)
    decreases |configs|
  {
    hide ConformsObject, ValidPriorFromConfig, OneToOne;
    if configs == [] {
      OneToOneNil(used);
    } else {
      var j := FirstMatch(kind, s, priors, configs[0], used, 0);
      var used' := if j < |priors| then used[j := true] else used;
      ChoicesAreOneToOne(kind, s, priors, configs[1..], used');
      var rest := SetChoices(kind, s, priors, configs[1..], used');
      if j < |priors| {
        OneToOneCons(j, rest, used);
      } else {
        OneToOneSkip(j, rest, used);
      }
    }
  }

  lemma OneToOneNil(used: seq<bool>)
    ensures OneToOne([], used)
  {}

  lemma OneToOneSkip(j: nat, rest: seq<nat>, used: seq<bool>)
    requires j >= |used| && OneToOne(rest, used)
    ensures OneToOne([j] + rest, used)
  {}

  /** A configured element is left without a prior element only when all that fit are taken. */
  lemma {:induction false} ChoicesAreMaximal(
      kind: ElementKind, s: Schema, priors: seq<Value>, configs: seq<Value>, used: seq<bool>, i: nat, m: nat)
    requires AllConform(s, priors) && AllConform(s, configs) && |used| == |priors|
    requires i < |configs| && m < |priors| && !used[m] && ValidPriorFromConfig(kind, s, priors[m], configs[i])
    requires SetChoices(kind, s, priors, configs, used)[i] >= |priors|
    ensures m in SetChoices(kind, s, priors, configs, used)[..i]
    decreases |configs|
  {
    hide ConformsObject, ValidPriorFromConfig;
    var j := FirstMatch(kind, s, priors, configs[0], used, 0);
    var used' := if j < |priors| then used[j := true] else used;
    var rest := SetChoices(kind, s, priors, configs[1..], used');
    assert SetChoices(kind, s, priors, configs, used) == [j] + rest;
    if i > 0 {
      assert SetChoices(kind, s, priors, configs, used)[..i] == [j] + rest[..i - 1];
      if m != j {
        ChoicesAreMaximal(kind, s, priors, configs[1..], used', i - 1, m);
      }
    }
  }

  // ------------------------------------------------- replaying a set

  ghost predicate UsedUpTo(used: seq<bool>, k: nat) {
    k <= |used| && forall i | 0 <= i < |used| :: used[i] == (i < k)
  }

  /** When slot i fits configured element i and absorbs it, the scan re-matches slot i with slot i. */
  lemma SetReplay(kind: ElementKind, s: Schema, slots: seq<Value>, configs: seq<Value>, k: nat, used: seq<bool>)
    requires SupportedElement(kind, s) && AllConform(s, slots) && AllConform(s, configs)
    requires k <= |slots| == |configs| == |used| && UsedUpTo(used, k)
    requires forall i | 0 <= i < |slots| ::
      ValidPriorFromConfig(kind, s, slots[i], configs[i]) && ProposedElement(kind, s, slots[i], configs[i]) == slots[i]
    ensures SetElements(kind, s, slots, configs[k..], used) == slots[k..]
    decreases |configs| - k
  {
    hide ConformsObject, Supported, ValidPriorFromConfig, ProposedElement, SetElements, FirstMatch;
    if k < |configs| {
      FirstUnused(kind, s, slots, configs[k], used, k);
      SetReplay(kind, s, slots, configs, k + 1, used[k := true]);
      assert configs[k..] == [configs[k]] + configs[k + 1..];
      SetFirst(kind, s, slots, configs[k], configs[k + 1..], used);
      assert slots[k..] == [slots[k]] + slots[k + 1..];
    }
  }

  lemma SetFirst(kind: ElementKind, s: Schema, priors: seq<Value>, config: Value, configs: seq<Value>, used: seq<bool>)
    requires SupportedElement(kind, s) && AllConform(s, priors) && ConformsObject(s, config) && AllConform(s, configs)
    requires |used| == |priors|
    ensures AllConform(s, [config] + configs)
    ensures var j := FirstMatch(kind, s, priors, config, used, 0);
            SetElements(kind, s, priors, [config] + configs, used) ==
              [ProposedElement(kind, s, if j < |priors| then priors[j] else Null, config)] +
              SetElements(kind, s, priors, configs, if j < |priors| then used[j := true] else used)
  {
    hide ConformsObject, Supported, ValidPriorFromConfig, ProposedElement, FirstMatch;
    assert ([config] + configs)[1..] == configs;
  }

  lemma FirstUnused(kind: ElementKind, s: Schema, priors: seq<Value>, config: Value, used: seq<bool>, k: nat)
    requires AllConform(s, priors) && ConformsObject(s, config) && |used| == |priors|
    requires k < |priors| && UsedUpTo(used, k) && ValidPriorFromConfig(kind, s, priors[k], config)
    ensures FirstMatch(kind, s, priors, config, used, 0) == k
  {
    hide ConformsObject, ValidPriorFromConfig;
  }

  // ---------------------------------------------- planning a config over itself

  lemma {:induction false} SelfNesting(mode: NestingMode, kind: ElementKind, s: Schema, c: Value)
    requires SupportedElement(kind, s) && ConformsNesting(mode, s, c)
    ensures ProposedNesting(mode, kind, s, c, c) == c
    decreases s, 2
  {
    match mode
    case Single => SelfElement(kind, s, c);
    case ListMode =>
      var out := ListElements(kind, s, c.elems, c.elems);
      forall i | 0 <= i < |c.elems|
        ensures out[i] == c.elems[i]
      {
        ListElementsAt(kind, s, c.elems, c.elems, i);
        SelfElement(kind, s, c.elems[i]);
      }
    case SetMode =>
      forall i | 0 <= i < |c.members|
        ensures ProposedElement(kind, s, c.members[i], c.members[i]) == c.members[i]
      {
        SelfElement(kind, s, c.members[i]);
      }
      SetReplay(kind, s, c.members, c.members, 0, Unused(|c.members|));
      assert c.members[0..] == c.members;
    case MapMode =>
      forall k <- c.entries
        ensures ProposedElement(kind, s, c.entries[k], c.entries[k]) == c.entries[k]
      {
        SelfElement(kind, s, c.entries[k]);
      }
      assert MapElements(kind, s, c.entries, c.entries) == c.entries;
  }

  lemma {:induction false} SelfElement(kind: ElementKind, s: Schema, c: Value)
    requires SupportedElement(kind, s) && ConformsObject(s, c)
    ensures ProposedElement(kind, s, c, c) == c
    decreases s, 1
  {
    ElementFields(kind, s, c, c);
    var out := ProposedElement(kind, s, c, c);
    forall n <- s.attrs
      ensures out.fields[n] == c.fields[n]
    {
      SelfAttribute(s.attrs[n], c.fields[n]);
    }
    forall n <- s.blocks
      ensures out.fields[n] == c.fields[n]
    {
      SelfBlock(s.blocks[n], c.fields[n]);
    }
    assert out.fields == c.fields;
  }

  lemma {:induction false} SelfAttribute(a: Attribute, c: Value)
    requires SupportedAttribute(a) && ConformsAttribute(a, c)
    ensures ProposedAttribute(a, c, c) == c
    decreases a
  {
    if a.Nested? && !c.Null? {
      SelfNesting(a.mode, AttributeElement, a.body, c);
    }
  }

  lemma {:induction false} SelfBlock(b: Block, c: Value)
    requires SupportedBlock(b) && ConformsBlock(b, c)
    ensures ProposedBlock(b, c, c) == c
    decreases b
  {
    if !c.Null? {
      SelfNesting(b.mode, BlockElement, b.body, c);
    }
  }

  // ------------------------------------------------- planning over nothing

  /** A nested attribute without a prior object takes the configuration as it is. */
  lemma {:induction false} NullElement(s: Schema, c: Value)
    requires SupportedElement(AttributeElement, s) && ConformsObject(s, c)
    ensures ProposedElement(AttributeElement, s, Null, c) == c
    decreases s, 1
  {
    hide ProposedElement, ProposedAttribute, ConformsAttribute, ConformsBlock;
    ElementFields(AttributeElement, s, Null, c);
    var out := ProposedElement(AttributeElement, s, Null, c);
    forall n <- s.attrs
      ensures out.fields[n] == c.fields[n]
    {
      NullAttribute(s.attrs[n], c.fields[n]);
    }
    assert out.fields == c.fields;
  }

  lemma {:induction false} NullAttribute(a: Attribute, c: Value)
    requires SupportedAttribute(a) && ConformsAttribute(a, c)
    ensures ProposedAttribute(a, Null, c) == c
    decreases a
  {
    if a.Nested? && !c.Null? {
      if a.mode == Single {
        NullElement(a.body, c);
      } else {
        NothingNesting(a.mode, AttributeElement, a.body, Null, c);
      }
    }
  }

  /** So do lists and maps of either kind, and sets of nested attributes. */
  lemma {:induction false} NothingNesting(mode: NestingMode, kind: ElementKind, s: Schema, prior: Value, c: Value)
    requires SupportedElement(kind, s) && mode != Single && (mode == SetMode ==> kind == AttributeElement)
    requires ConformsNesting(mode, s, c) && prior in {Null, ListV([]), SetV([]), MapV(map[])}
    requires prior.Null? || ConformsNesting(mode, s, prior)
    ensures ProposedNesting(mode, kind, s, prior, c) == c
    decreases s, 2
  {
    hide ConformsObject, Supported, ProposedElement;
    match mode
    case Single =>
    case ListMode =>
      forall i | 0 <= i < |c.elems|
        ensures ListElements(kind, s, [], c.elems)[i] == c.elems[i]
      {
        ListElementsAt(kind, s, [], c.elems, i);
      }
    case SetMode =>
      var outs := SetElements(kind, s, [], c.members, Unused(0));
      forall i | 0 <= i < |c.members|
        ensures outs[i] == c.members[i]
      {
        ElementsFollowChoices(kind, s, [], c.members, Unused(0), i);
        NullElement(s, c.members[i]);
      }
    case MapMode =>
      assert MapElements(kind, s, map[], c.entries) == c.entries;
  }

  /** The empty value of the attribute is there and counts as one that only a configuration can set. */
  predicate HoldsEmpty(a: Attribute) {
    a.Nested? && (!a.computed || (a.mode == Single && exists n <- a.body.attrs :: HoldsEmpty(a.body.attrs[n])))
  }

  /** Null stays null, although it is computed, over the empty value of the attribute. */
  predicate StaysNull(a: Attribute) {
    a.Nested? && a.mode == Single && a.optional && exists n <- a.body.attrs :: HoldsEmpty(a.body.attrs[n])
  }

  lemma {:induction false} HoldsEmptyIff(a: Attribute)
    requires SupportedAttribute(a)
    ensures NonComputedWithin(a, EmptyAttribute(a)) <==> HoldsEmpty(a)
    decreases a
  {
    if a.Nested? && a.mode == Single {
      forall n <- a.body.attrs {
        HoldsEmptyIff(a.body.attrs[n]);
      }
    }
  }

  lemma {:induction false} NullOverEmpty(a: Attribute)
    requires SupportedAttribute(a)
    ensures ProposedAttribute(a, EmptyAttribute(a), Null) ==
      if a.computed && !StaysNull(a) then EmptyAttribute(a) else Null
  {
    if a.Nested? && a.mode == Single {
      forall n <- a.body.attrs {
        HoldsEmptyIff(a.body.attrs[n]);
      }
    }
  }

  // Which configured objects of a block are taken as they are without a prior object, and which of them what is
  // made of them still fits: this depends on what they leave null.

  ghost predicate Exact(s: Schema, c: Value)
    requires ConformsObject(s, c)
    decreases s, 0
  {
    && (forall n <- s.attrs :: ExactAttribute(s.attrs[n], c.fields[n]))
    && (forall n <- s.blocks :: ExactBlock(s.blocks[n], c.fields[n]))
  }

  ghost predicate ExactAttribute(a: Attribute, c: Value)
    requires ConformsAttribute(a, c)
    decreases a
  {
    a.Nested? ==> if c.Null? then !a.computed || StaysNull(a) else ExactNesting(a.mode, AttributeElement, a.body, c)
  }

  ghost predicate ExactBlock(b: Block, c: Value)
    requires ConformsBlock(b, c)
    decreases b
  {
    c.Null? || ExactNesting(b.mode, BlockElement, b.body, c)
  }

  ghost predicate ExactNesting(mode: NestingMode, kind: ElementKind, s: Schema, c: Value)
    requires ConformsNesting(mode, s, c)
    decreases s, 1
  {
    match mode
    case Single => Exact(s, c)
    case SetMode => kind.BlockElement? ==> forall i | 0 <= i < |c.members| :: Exact(s, c.members[i])
    case _ => true
  }

  /** A list or map that is left null may become an empty one, and an object without attributes be filled in; but a
      set block within has to be taken as it is. */
  ghost predicate Refits(s: Schema, c: Value)
    requires ConformsObject(s, c)
    decreases s, 0
  {
    && (forall n <- s.attrs :: RefitsAttribute(s.attrs[n], c.fields[n]))
    && (forall n <- s.blocks :: RefitsBlock(s.blocks[n], c.fields[n]))
  }

  ghost predicate RefitsAttribute(a: Attribute, c: Value)
    requires ConformsAttribute(a, c)
    decreases a
  {
    a.Nested? ==> if c.Null? then RefitsNull(a) else RefitsNesting(a.mode, AttributeElement, a.body, c)
  }

  predicate RefitsNull(a: Attribute)
    requires a.Nested?
  {
    || !a.computed || a.mode in {ListMode, MapMode}
    || (a.mode == Single && (StaysNull(a) || a.body.attrs == map[]))
  }

  ghost predicate RefitsBlock(b: Block, c: Value)
    requires ConformsBlock(b, c)
    decreases b
  {
    c.Null? || RefitsNesting(b.mode, BlockElement, b.body, c)
  }

  ghost predicate RefitsNesting(mode: NestingMode, kind: ElementKind, s: Schema, c: Value)
    requires ConformsNesting(mode, s, c)
    decreases s, 1
  {
    match mode
    case Single => Refits(s, c)
    case SetMode => ExactNesting(mode, kind, s, c)
    case _ => true
  }

  /** An attribute over its empty value. */
  lemma {:induction false} AttributeOverEmpty(a: Attribute, c: Value)
    requires SupportedAttribute(a) && ConformsAttribute(a, c)
    ensures var out := ProposedAttribute(a, EmptyAttribute(a), c);
      && (out == c <==> ExactAttribute(a, c))
      && (FitsAttribute(a, out, c) <==> RefitsAttribute(a, c))
    decreases a
  {
    hide NonComputedWithin;
    if a.Leaf? {
      LeafProposed(a, EmptyAttribute(a), c);
    } else if c.Null? {
      NullOverEmpty(a);
      EmptyFitsNull(a);
    } else if a.mode == Single {
      SingleOverEmpty(a);
      ObjectOverNothing(AttributeElement, a.body, EmptyAttribute(a), c);
    } else {
      NothingNesting(a.mode, AttributeElement, a.body, EmptyAttribute(a), c);
    }
  }

  lemma EmptyFitsNull(a: Attribute)
    requires SupportedAttribute(a) && a.Nested?
    ensures EmptyAttribute(a) != Null && FitsAttribute(a, Null, Null)
    ensures FitsAttribute(a, EmptyAttribute(a), Null) <==>
      a.mode in {ListMode, MapMode} || (a.mode == Single && a.body.attrs == map[])
  {
    if a.mode == Single {
      if a.body.attrs != map[] {
        var n :| n in a.body.attrs;
      }
      assert FitsFields(a.body, EmptyAttribute(a), Null) <==> a.body.attrs == map[];
    }
  }

  lemma SingleOverEmpty(a: Attribute)
    requires SupportedAttribute(a) && a.Nested? && a.mode == Single
    ensures ConformsObject(a.body, EmptyAttribute(a))
    ensures forall n <- a.body.attrs :: EmptyAttribute(a).fields[n] == EmptyAttribute(a.body.attrs[n])
  {}

  lemma {:induction false} BlockOverEmpty(b: Block, c: Value)
    requires SupportedBlock(b) && ConformsBlock(b, c)
    ensures var out := ProposedBlock(b, EmptyBlock(b), c);
      && (out == c <==> ExactBlock(b, c))
      && (FitsBlock(b, out, c) <==> RefitsBlock(b, c))
    decreases b
  {
    if !c.Null? {
      match b.mode
      case Single =>
        assert ProposedBlock(b, EmptyBlock(b), c) == ProposedElement(BlockElement, b.body, Null, c);
        ObjectOverNothing(BlockElement, b.body, Null, c);
      case SetMode => SetOverNothing(b.body, c.members);
      case _ => NothingNesting(b.mode, BlockElement, b.body, EmptyBlock(b), c);
    }
  }

  lemma {:induction false} SetOverNothing(s: Schema, configs: seq<Value>)
    requires Supported(s) && AllConform(s, configs)
    ensures SetElements(BlockElement, s, [], configs, Unused(0)) == configs <==>
      forall i | 0 <= i < |configs| :: Exact(s, configs[i])
    decreases s, 2
  {
    hide ConformsObject, Supported, ProposedElement, Exact, SetElements, SetChoices, Refits;
    var outs := SetElements(BlockElement, s, [], configs, Unused(0));
    forall i | 0 <= i < |configs|
      ensures outs[i] == configs[i] <==> Exact(s, configs[i])
    {
      ElementsFollowChoices(BlockElement, s, [], configs, Unused(0), i);
      ObjectOverNothing(BlockElement, s, Null, configs[i]);
    }
  }

  /** A block without a prior object, or an attribute with an empty one, which amounts to the same. */
  lemma {:induction false} ObjectOverNothing(kind: ElementKind, s: Schema, prior: Value, c: Value)
    requires SupportedElement(kind, s) && Conforms(s, prior) && ConformsObject(s, c)
    requires if kind.BlockElement? then prior.Null?
             else prior.Obj? && forall n <- s.attrs :: prior.fields[n] == EmptyAttribute(s.attrs[n])
    ensures var out := ProposedElement(kind, s, prior, c);
      && (out == c <==> Exact(s, c))
      && (FitsFields(s, out, c) <==> Refits(s, c)) && (FitsObject(s, out, c) <==> Refits(s, c))
    decreases s, 1
  {
    hide ProposedElement, ProposedAttribute, ProposedBlock, ConformsAttribute, ConformsBlock, ExactAttribute,
      ExactBlock, RefitsAttribute, RefitsBlock, FitsAttribute, FitsBlock, EmptyAttribute, EmptyBlock;
    var out := ProposedElement(kind, s, prior, c);
    ElementFields(kind, s, prior, c);
    forall n <- s.attrs
      ensures out.fields[n] == c.fields[n] <==> ExactAttribute(s.attrs[n], c.fields[n])
      ensures FitsAttribute(s.attrs[n], out.fields[n], c.fields[n]) <==> RefitsAttribute(s.attrs[n], c.fields[n])
    {
      AttributeOverEmpty(s.attrs[n], c.fields[n]);
    }
    forall n <- s.blocks
      ensures out.fields[n] == c.fields[n] <==> ExactBlock(s.blocks[n], c.fields[n])
      ensures FitsBlock(s.blocks[n], out.fields[n], c.fields[n]) <==> RefitsBlock(s.blocks[n], c.fields[n])
    {
      BlockOverEmpty(s.blocks[n], c.fields[n]);
    }
    FieldByField(s, out, c);
  }

  lemma FieldByField(s: Schema, v: Value, c: Value)
    requires ConformsObject(s, v) && ConformsObject(s, c)
    ensures v == c <==>
      (forall n <- s.attrs :: v.fields[n] == c.fields[n]) && (forall n <- s.blocks :: v.fields[n] == c.fields[n])
    ensures FitsObject(s, v, c) <==> FitsFields(s, v, c)
  {
    if (forall n <- s.attrs :: v.fields[n] == c.fields[n]) && (forall n <- s.blocks :: v.fields[n] == c.fields[n]) {
      assert v.fields == c.fields;
    }
  }
}
